/** Whole runs: a log of commands applied one at a time, each with its own clock readings. */
module Runs {
  import opened Types
  import opened Namespace
  import opened MetaSpec
  import opened MetaInvariant

  datatype LogEntry = LogEntry(command: Command, times: Times)

  /** The state after one command. */
  ghost function Next(s: State, e: LogEntry): (r: State)
    requires Valid(s) && NoDangling(s) && s.nextInodeId < MAX_64
    ensures Valid(r) && NoDangling(r) && s.nextInodeId <= r.nextInodeId <= s.nextInodeId + 1
  {
    ApplyKeepsValid(s, e.command, e.times);
    ApplyNumbers(s, e.command, e.times);
    ValidHasNoDangling(Apply(s, e.command, e.times).0);
    Apply(s, e.command, e.times).0
  }

  /** The state after a log. Each command uses at most one inode number, so the numbers last. */
  ghost function Run(s: State, log: seq<LogEntry>): (r: State)
    requires Valid(s) && NoDangling(s) && s.nextInodeId + |log| <= MAX_64
    ensures Valid(r) && NoDangling(r) && s.nextInodeId <= r.nextInodeId <= s.nextInodeId + |log|
    decreases |log|
  {
    if log == [] then s else Run(Next(s, log[0]), log[1..])
  }

  lemma {:induction false} RunConcat(s: State, log: seq<LogEntry>, more: seq<LogEntry>)
    requires Valid(s) && NoDangling(s) && s.nextInodeId + |log| + |more| <= MAX_64
    ensures Run(s, log + more) == Run(Run(s, log), more)
    decreases |log|
  {
    hide Valid, NoDangling, Next;
    if log == [] {
      assert log + more == more;
    } else {
      assert (log + more)[1..] == log[1..] + more;
      RunConcat(Next(s, log[0]), log[1..], more);
    }
  }

  /** Entries join existing inodes, none leads to the root, and exactly one path leads to each inode. */
  ghost predicate ProperTree(s: State) {
    && (forall k :: k in s.dentries ==>
          && k.parent in s.inodes && s.inodes[k.parent].kind.Directory?
          && s.dentries[k] in s.inodes && s.dentries[k] != ROOT)
    && (forall id :: id in s.inodes ==> Reaches(s.dentries, ROOT, id))
    && (forall p, q :: OnePath(s.dentries, p, q))
  }

  ghost predicate OnePath(d: Dentries, p: Path, q: Path) {
    Resolve(d, ROOT, p).Some? && Resolve(d, ROOT, p) == Resolve(d, ROOT, q) ==> p == q
  }

  lemma ValidMeans(s: State)
    requires Valid(s)
    ensures ProperTree(s) && Linked(s) && Cached(s) && Numbered(s)
  {
    hide Linked, Cached, Numbered, Reaches, Resolve;
    forall k | k in s.dentries
      ensures && k.parent in s.inodes && s.inodes[k.parent].kind.Directory?
              && s.dentries[k] in s.inodes && s.dentries[k] != ROOT
    {
      assert k.parent in KindsOf(s) && s.dentries[k] in KindsOf(s);
    }
    forall id | id in s.inodes ensures Reaches(s.dentries, ROOT, id) {
      assert id in KindsOf(s);
    }
    forall p, q ensures OnePath(s.dentries, p, q) {
      if Resolve(s.dentries, ROOT, p).Some? && Resolve(s.dentries, ROOT, p) == Resolve(s.dentries, ROOT, q) {
        PathsUnique(s.dentries, p, q);
      }
    }
  }

  /** On every run of fewer than 2^64 - 2 commands from a fresh server: the entries form a tree
      over the inodes with exactly one path to each inode, link counts are right, and exactly
      the files have layouts, which carry the files' attributes. */
  lemma EveryRunKeepsTheNamespace(chunkSize: u64, now: i64, log: seq<LogEntry>)
    requires |log| < MAX_64 - 1
    ensures Valid(InitialState(chunkSize, now)) && NoDangling(InitialState(chunkSize, now))
    ensures var s := Run(InitialState(chunkSize, now), log);
            ProperTree(s) && Linked(s) && Cached(s) && Numbered(s)
  {
    InitialIsValid(chunkSize, now);
    ValidHasNoDangling(InitialState(chunkSize, now));
    hide Valid, NoDangling, ProperTree, Linked, Cached, Numbered;
    ValidMeans(Run(InitialState(chunkSize, now), log));
  }
}
