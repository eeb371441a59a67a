/** Layouts, sizes and version counters over whole runs. */
module RunFiles {
  import opened Types
  import opened Extents
  import opened Namespace
  import opened MetaSpec
  import opened MetaInvariant
  import opened MetaFiles
  import opened Runs

  // ---------- layouts ----------

  /** Along the run no incoming extent end wraps. */
  ghost predicate FittingRun(s: State, log: seq<LogEntry>)
    requires Valid(s) && NoDangling(s) && s.nextInodeId + |log| <= MAX_64
    decreases |log|
  {
    log == [] || (Fitting(s, log[0].command) && FittingRun(Next(s, log[0]), log[1..]))
  }

  /** Along the run every incoming extent stays inside its object. */
  ghost predicate InsideRun(s: State, log: seq<LogEntry>)
    requires Valid(s) && NoDangling(s) && s.nextInodeId + |log| <= MAX_64
    decreases |log|
  {
    log == [] || (InsideObjects(Batch(s, log[0].command)) && InsideRun(Next(s, log[0]), log[1..]))
  }

  /** Along the run no batch is rejected after it reached past its file's size. */
  ghost predicate RestrainedRun(s: State, log: seq<LogEntry>)
    requires Valid(s) && NoDangling(s) && s.nextInodeId + |log| <= MAX_64
    decreases |log|
  {
    log == [] || (!Overreaches(s, log[0].command) && RestrainedRun(Next(s, log[0]), log[1..]))
  }

  lemma NextIsApply(s: State, e: LogEntry)
    requires Valid(s) && NoDangling(s) && s.nextInodeId < MAX_64
    ensures Next(s, e) == Apply(s, e.command, e.times).0
  {
  }

  /** On every run, failed batches included, layouts stay sorted, disjoint and free of empty
      extents; object ranges stay inside their objects if the incoming ones did; and without
      overreaching rejected batches every extent ends within its file. */
  lemma {:induction false} RunKeepsLayouts(s: State, log: seq<LogEntry>)
    requires Valid(s) && NoDangling(s) && s.nextInodeId + |log| <= MAX_64
    requires ExtentsOk(s) && FittingRun(s, log)
    ensures ExtentsOk(Run(s, log))
    ensures RangesOk(s) && InsideRun(s, log) ==> RangesOk(Run(s, log))
    ensures SizesOk(s) && RestrainedRun(s, log) ==> SizesOk(Run(s, log))
    decreases |log|
  {
    hide Valid, NoDangling, ExtentsOk, RangesOk, SizesOk, Fitting, Apply, Next, Overreaches, Batch;
    if log != [] {
      var c, t := log[0].command, log[0].times;
      NextIsApply(s, log[0]);
      ApplyKeepsExtents(s, c, t);
      if RangesOk(s) && InsideRun(s, log) {
        ApplyKeepsRanges(s, c, t);
      }
      if SizesOk(s) && RestrainedRun(s, log) {
        ApplyKeepsSizesIff(s, c, t);
      }
      RunKeepsLayouts(Next(s, log[0]), log[1..]);
    }
  }

  /** The same from a fresh server, where there is nothing to assume about the start. */
  lemma EveryRunKeepsLayouts(chunkSize: u64, now: i64, log: seq<LogEntry>)
    requires |log| < MAX_64 - 1
    ensures Valid(InitialState(chunkSize, now)) && NoDangling(InitialState(chunkSize, now))
    ensures var s := InitialState(chunkSize, now);
            FittingRun(s, log) ==>
              && ExtentsOk(Run(s, log))
              && (InsideRun(s, log) ==> RangesOk(Run(s, log)))
              && (RestrainedRun(s, log) ==> SizesOk(Run(s, log)))
  {
    var s := InitialState(chunkSize, now);
    InitialIsValid(chunkSize, now);
    ValidHasNoDangling(s);
    assert ExtentsOk(s) && RangesOk(s) && SizesOk(s);
    hide Valid, NoDangling, ExtentsOk, RangesOk, SizesOk;
    if FittingRun(s, log) {
      RunKeepsLayouts(s, log);
    }
  }

  // ---------- fragmentation ----------

  /** How many extents a run merges into one file. */
  ghost function MergedInto(s: State, log: seq<LogEntry>, id: u64): nat
    requires Valid(s) && NoDangling(s) && s.nextInodeId + |log| <= MAX_64
    decreases |log|
  {
    if log == [] then 0 else
    (if Target(log[0].command) == Some(id) then |Batch(s, log[0].command)| else 0) +
    MergedInto(Next(s, log[0]), log[1..], id)
  }

  /** The most entries n merged extents can leave. */
  function Cap(n: nat): nat {
    if n == 0 then 0 else 2 * n - 1
  }

  lemma {:induction false} BatchCap(xs: seq<FileExtent>, es: seq<FileExtent>, n: nat)
    requires WellFormed(xs) && AllFit(es) && NoneEmpty(es) && |xs| <= Cap(n)
    ensures |MergeAll(xs, es)| <= Cap(n + |es|)
  {
    hide WellFormed, At, Merged;
    if es != [] {
      var init, last := es[..|es| - 1], es[|es| - 1];
      BatchCap(xs, init, n);
      BatchWellFormed(xs, init);
      MergeOverlays(MergeAll(xs, init), last);
      if n + |init| == 0 {
        MergedIntoEmpty(last);
      }
    }
  }

  lemma MergedIntoEmpty(e: FileExtent)
    ensures |Merged([], e)| == 1
  {
    assert Kept([], e) + [e] == [e];
  }

  lemma StepCap(s: State, c: Command, id: u64, n: nat)
    requires ExtentsOk(s) && Fitting(s, c)
    requires id in s.layouts ==> |s.layouts[id].extents| <= Cap(n)
    ensures |ExtentsAfter(s, c, id)| <= Cap(n + if Target(c) == Some(id) then |Batch(s, c)| else 0)
  {
    if id in s.layouts {
      BatchFits(s, c);
      hide WellFormed, Fitting;
      BatchCap(s.layouts[id].extents, Batch(s, c), n);
    }
  }

  /** On every run a file into which n extents were merged has at most 2n - 1 entries, whatever
      truncations and failed batches came between. */
  lemma {:induction false} RunFragmentation(s: State, log: seq<LogEntry>, id: u64, n: nat)
    requires Valid(s) && NoDangling(s) && s.nextInodeId + |log| <= MAX_64
    requires ExtentsOk(s) && FittingRun(s, log)
    requires id in s.layouts ==> |s.layouts[id].extents| <= Cap(n)
    ensures id in Run(s, log).layouts ==> |Run(s, log).layouts[id].extents| <= Cap(n + MergedInto(s, log, id))
    decreases |log|
  {
    hide Valid, NoDangling, ExtentsOk, Fitting, Apply, Next, ExtentsAfter, SizeAfter, Batch;
    if log != [] {
      var c, t := log[0].command, log[0].times;
      NextIsApply(s, log[0]);
      ApplyKeepsExtents(s, c, t);
      ApplyContents(s, c, t);
      StepCap(s, c, id, n);
      RunFragmentation(Next(s, log[0]), log[1..], id,
                       n + if Target(c) == Some(id) then |Batch(s, c)| else 0);
    }
  }

  // ---------- versions and inode numbers ----------

  ghost predicate VersionsBelow(s: State, n: int) {
    forall id :: id in s.inodes ==> s.inodes[id].version <= n
  }

  /** Every surviving inode is unchanged or has a larger version, by at most `step`; an inode
      that was not there before has the next number. */
  ghost predicate Progress(s: State, s': State, step: int) {
    && (forall id :: id in s'.inodes && id in s.inodes ==>
          || s'.inodes[id] == s.inodes[id]
          || s.inodes[id].version < s'.inodes[id].version <= s.inodes[id].version + step)
    && (forall id :: id in s'.inodes && id !in s.inodes ==>
          id == s.nextInodeId < s'.nextInodeId && s'.inodes[id].version == 1)
  }

  lemma SameProgress(s: State)
    ensures Progress(s, s, 3)
  {
  }

  lemma CreateProgress(
      s: State, parent: u64, name: string, kind: InodeType, mode: u32, uid: u32, gid: u32, now: i64)
    requires Numbered(s) && VersionsBelow(s, MAX_64 - 3) && s.nextInodeId < MAX_64
    ensures Progress(s, CreateNode(s, parent, name, kind, mode, uid, gid, now).state, 3)
  {
    var key, o := DentryKey(parent, name), CreateNode(s, parent, name, kind, mode, uid, gid, now);
    if o.result.Ok? {
      WithNodeProgress(s, key, o.result.value, now);
    } else {
      SameProgress(s);
    }
    hide WithNode, Progress, VersionsBelow, Numbered;
  }

  lemma WithNodeProgress(s: State, key: DentryKey, attrs: InodeAttrs, now: i64)
    requires key.parent in s.inodes && VersionsBelow(s, MAX_64 - 3) && s.nextInodeId < MAX_64
    requires attrs.inodeId == s.nextInodeId && s.nextInodeId !in s.inodes && attrs.version == 1
    ensures Progress(s, WithNode(s, key, attrs, now), 3)
  {
  }

  lemma WithoutNodeProgress(s: State, key: DentryKey, now: i64)
    requires key in s.dentries && s.dentries[key] in s.inodes
    requires key.parent in s.inodes && key.parent != s.dentries[key] && VersionsBelow(s, MAX_64 - 3)
    ensures Progress(s, WithoutNode(s, key, now), 1) && VersionsBelow(WithoutNode(s, key, now), MAX_64 - 2)
  {
  }

  lemma RelinkedProgressAt(s: State, oldKey: DentryKey, newKey: DentryKey, now: i64, x: u64)
    requires oldKey in s.dentries && s.dentries[oldKey] in s.inodes && x in s.inodes
    requires oldKey.parent in s.inodes && newKey.parent in s.inodes && VersionsBelow(s, MAX_64 - 2)
    requires !(oldKey.parent != newKey.parent && s.dentries[oldKey] in {oldKey.parent, newKey.parent})
    ensures var s' := Relinked(s, oldKey, newKey, now);
            || s'.inodes[x] == s.inodes[x]
            || s.inodes[x].version < s'.inodes[x].version <= s.inodes[x].version + 2
  {
  }

  lemma RelinkedProgress(s: State, oldKey: DentryKey, newKey: DentryKey, now: i64)
    requires oldKey in s.dentries && s.dentries[oldKey] in s.inodes
    requires oldKey.parent in s.inodes && newKey.parent in s.inodes && VersionsBelow(s, MAX_64 - 2)
    requires !(oldKey.parent != newKey.parent && s.dentries[oldKey] in {oldKey.parent, newKey.parent})
    ensures Progress(s, Relinked(s, oldKey, newKey, now), 2)
  {
    hide Relinked;
    forall x | x in s.inodes
      ensures var s' := Relinked(s, oldKey, newKey, now);
              || s'.inodes[x] == s.inodes[x]
              || s.inodes[x].version < s'.inodes[x].version <= s.inodes[x].version + 2
    {
      RelinkedProgressAt(s, oldKey, newKey, now, x);
    }
  }

  lemma ProgressTrans(s: State, s1: State, s2: State)
    requires Progress(s, s1, 1) && Progress(s1, s2, 2)
    requires s1.inodes.Keys <= s.inodes.Keys && s2.inodes.Keys <= s1.inodes.Keys
    ensures Progress(s, s2, 3)
  {
  }

  lemma ProgressLoosened(s: State, s': State)
    requires Progress(s, s', 2) || Progress(s, s', 1)
    ensures Progress(s, s', 3)
  {
  }

  lemma VersionsLoosened(s: State)
    requires VersionsBelow(s, MAX_64 - 3)
    ensures VersionsBelow(s, MAX_64 - 2)
  {
  }

  lemma RenameProgress(s: State, oldKey: DentryKey, newKey: DentryKey, times: Times)
    requires Valid(s) && NoDangling(s) && VersionsBelow(s, MAX_64 - 3)
    ensures Progress(s, Rename(s, oldKey, newKey, times).state, 3)
  {
    SameProgress(s);
    hide VersionsBelow;
    assert forall k :: k in s.dentries ==> s.dentries[k] in s.inodes && k.parent in s.inodes;
    hide Valid, NoDangling, WithoutNode, Relinked, Leaf, Progress, ReplaceError;
    if Rename(s, oldKey, newKey, times).result.Ok? {
      GuardKeepsOutside(s, oldKey, newKey.parent);
      NotAmongParents(s, oldKey, newKey.parent);
      if newKey !in s.dentries {
        VersionsLoosened(s);
        RelinkedProgress(s, oldKey, newKey, times.final);
        ProgressLoosened(s, Relinked(s, oldKey, newKey, times.final));
      } else if s.dentries[newKey] != s.dentries[oldKey] {
        TargetIsLeaf(s, s.dentries[oldKey], newKey);
        TargetRemoved(s, oldKey, newKey, times.removal);
        ReplaceProgress(s, oldKey, newKey, times);
      }
    }
  }

  lemma ReplaceProgress(s: State, oldKey: DentryKey, newKey: DentryKey, times: Times)
    requires oldKey in s.dentries && newKey in s.dentries && s.dentries[oldKey] in s.inodes
    requires s.dentries[newKey] in s.inodes && s.dentries[newKey] != s.dentries[oldKey]
    requires oldKey.parent in s.inodes && newKey.parent in s.inodes
    requires newKey.parent != s.dentries[newKey] && oldKey.parent != s.dentries[newKey]
    requires s.dentries[oldKey] != newKey.parent && s.dentries[oldKey] != oldKey.parent
    requires VersionsBelow(s, MAX_64 - 3)
    ensures Progress(s, Relinked(WithoutNode(s, newKey, times.removal), oldKey, newKey, times.final), 3)
  {
    hide WithoutNode, Relinked, Progress, VersionsBelow;
    WithoutNodeProgress(s, newKey, times.removal);
    var s1 := WithoutNode(s, newKey, times.removal);
    RelinkedProgress(s1, oldKey, newKey, times.final);
    ProgressTrans(s, s1, Relinked(s1, oldKey, newKey, times.final));
  }

  /** A moved inode is neither of the two directories involved. */
  lemma NotAmongParents(s: State, oldKey: DentryKey, newParent: u64)
    requires Valid(s) && oldKey in s.dentries && !Reaches(s.dentries, s.dentries[oldKey], newParent)
    ensures s.dentries[oldKey] != newParent && s.dentries[oldKey] != oldKey.parent
  {
    var d := s.dentries;
    ReachesSelf(d, newParent);
    assert oldKey.parent in KindsOf(s);
    ParentIsShallower(d, oldKey);
    assert |PathTo(d, d[oldKey])| > |PathTo(d, oldKey.parent)|;
  }

  lemma RemovalProgress(s: State, parent: u64, name: string, now: i64)
    requires NoDangling(s) && VersionsBelow(s, MAX_64 - 3)
    ensures Progress(s, Unlink(s, parent, name, now).state, 3)
    ensures Progress(s, Rmdir(s, parent, name, now).state, 3)
  {
    var key := DentryKey(parent, name);
    SameProgress(s);
    hide WithoutNode, Progress;
    if key in s.dentries && key.parent != s.dentries[key] {
      WithoutNodeProgress(s, key, now);
      ProgressLoosened(s, WithoutNode(s, key, now));
    }
  }

  lemma ContentProgress(s: State, c: Command, times: Times)
    requires NoDangling(s) && VersionsBelow(s, MAX_64 - 3) && Target(c).Some?
    ensures Progress(s, Apply(s, c, times).0, 3)
  {
    hide NoDangling, MergeAll, Cut, MaxEnd, ShiftAll, Accepted;
  }

  lemma SetAttrProgress(s: State, id: u64, args: SetAttrArgs, now: i64)
    requires VersionsBelow(s, MAX_64 - 3)
    ensures Progress(s, SetAttr(s, id, args, now).state, 3)
  {
  }

  /** Any command that changes an inode raises its version, and only new inodes get new numbers. */
  lemma ApplyProgress(s: State, c: Command, times: Times)
    requires Valid(s) && NoDangling(s) && VersionsBelow(s, MAX_64 - 3) && s.nextInodeId < MAX_64
    ensures Progress(s, Apply(s, c, times).0, 3)
  {
    hide Apply, Valid, NoDangling, VersionsBelow, Progress;
    if Target(c).Some? {
      ContentProgress(s, c, times);
    } else {
      NamespaceProgress(s, c, times);
    }
  }

  lemma NamespaceProgress(s: State, c: Command, times: Times)
    requires Valid(s) && NoDangling(s) && VersionsBelow(s, MAX_64 - 3) && s.nextInodeId < MAX_64
    requires Target(c).None?
    ensures Progress(s, Apply(s, c, times).0, 3)
  {
    assert Numbered(s);
    hide Numbered, VersionsBelow, Valid, NoDangling, CreateNode, SetAttr, Unlink, Rmdir, Rename, Progress;
    match c {
      case MkdirCommand(parent, name, mode, uid, gid) =>
        CreateProgress(s, parent, name, Directory, mode, uid, gid, times.final);
      case CreateFileCommand(parent, name, mode, uid, gid) =>
        CreateProgress(s, parent, name, File, mode, uid, gid, times.final);
      case SetAttrCommand(id, args) => SetAttrProgress(s, id, args, times.final);
      case UnlinkCommand(parent, name) => RemovalProgress(s, parent, name, times.removal);
      case RmdirCommand(parent, name) => RemovalProgress(s, parent, name, times.removal);
      case RenameCommand(op, on, np, nn) => RenameProgress(s, DentryKey(op, on), DentryKey(np, nn), times);
      case CommandNotSet => SameProgress(s);
    }
  }

  lemma ProgressBounds(s: State, s': State, n: int)
    requires Progress(s, s', 3) && VersionsBelow(s, n) && 1 <= n
    ensures VersionsBelow(s', n + 3)
  {
  }

  /** Over a whole run, removed inode numbers are never used again, and every surviving inode is
      either unchanged or has a strictly larger version. */
  lemma {:induction false} RunMonotone(s: State, log: seq<LogEntry>, id: u64, n: int)
    requires Valid(s) && NoDangling(s) && s.nextInodeId + |log| <= MAX_64
    requires VersionsBelow(s, n) && 1 <= n && n + 3 * |log| <= MAX_64
    ensures id < s.nextInodeId && id !in s.inodes ==> id !in Run(s, log).inodes
    ensures id in s.inodes && id in Run(s, log).inodes ==>
              || Run(s, log).inodes[id] == s.inodes[id]
              || s.inodes[id].version < Run(s, log).inodes[id].version
    decreases |log|
  {
    if log != [] {
      var s' := Next(s, log[0]);
      NextIsApply(s, log[0]);
      if id in s.inodes {
        NumberedBelow(s, id);
      }
      hide Valid, NoDangling, Apply, Next, Numbered;
      assert VersionsBelow(s, MAX_64 - 3);
      ApplyProgress(s, log[0].command, log[0].times);
      ProgressBounds(s, s', n);
      RunMonotone(s', log[1..], id, n + 3);
    }
  }

  lemma NumberedBelow(s: State, id: u64)
    requires Valid(s) && id in s.inodes
    ensures id < s.nextInodeId
  {
  }
}
