/** Replica agreement: what two servers with different clocks make of one log, and what a server
    restored from a snapshot makes of the rest of it (src/meta_service.cc:435-579). */
module Replicas {
  import opened Types
  import opened Extents
  import opened Namespace
  import opened Ancestry
  import opened MetaSpec
  import opened MetaInvariant
  import opened Runs
  import opened Snapshots

  // ---------- forgetting the times ----------

  function EraseAttrs(a: InodeAttrs): InodeAttrs {
    a.(atimeNs := 0, mtimeNs := 0, ctimeNs := 0)
  }

  function EraseLayout(l: FileLayout): FileLayout {
    l.(attrs := EraseAttrs(l.attrs))
  }

  function Erase(s: State): State {
    s.(inodes := map id | id in s.inodes :: EraseAttrs(s.inodes[id]),
       layouts := map id | id in s.layouts :: EraseLayout(s.layouts[id]))
  }

  function EraseResult(r: Result<InodeAttrs>): Result<InodeAttrs> {
    match r case Ok(a) => Ok(EraseAttrs(a)) case Err(e) => Err(e)
  }

  function EraseOutcome(o: Outcome<InodeAttrs>): Outcome<InodeAttrs> {
    Outcome(Erase(o.state), EraseResult(o.result))
  }

  function EraseAppend(o: Outcome<AppendResult>): Outcome<AppendResult> {
    Outcome(Erase(o.state), match o.result
                            case Ok(a) => Ok(a.(attrs := EraseAttrs(a.attrs)))
                            case Err(e) => Err(e))
  }

  function EraseResponse(r: Response): Response {
    match r
    case AttrsReply(a) => AttrsReply(EraseAttrs(a))
    case AppendReply(a) => AppendReply(a.(attrs := EraseAttrs(a.attrs)))
    case ErrorReply(e) => ErrorReply(e)
  }

  /** The times a SetAttr command itself carries are forgotten too. */
  function EraseCommand(c: Command): Command {
    if c.SetAttrCommand? then
      c.(args := c.args.(atimeNs := if c.args.atimeNs.Some? then Some(0) else None,
                         mtimeNs := if c.args.mtimeNs.Some? then Some(0) else None))
    else c
  }

  const NO_TIMES := Times(0, 0)

  // ---------- forgetting commutes with every table update ----------

  lemma ErasePutInode(s: State, id: u64, a: InodeAttrs)
    ensures Erase(PutInode(s, id, a)) == PutInode(Erase(s), id, EraseAttrs(a))
  {
  }

  lemma ErasePutBoth(s: State, id: u64, a: InodeAttrs)
    ensures Erase(PutBoth(s, id, a)) == PutBoth(Erase(s), id, EraseAttrs(a))
  {
  }

  lemma EraseTouch(s: State, id: u64, now: i64)
    requires id in s.inodes
    ensures Erase(Touch(s, id, now)) == Touch(Erase(s), id, 0)
  {
    ErasePutBoth(s, id, Stamped(s.inodes[id], now));
    hide PutBoth;
  }

  lemma EraseAddLinks(s: State, id: u64, delta: int)
    requires id in s.inodes && (delta == 1 || delta == -1)
    ensures Erase(AddLinks(s, id, delta)) == AddLinks(Erase(s), id, delta)
  {
    var a := s.inodes[id];
    ErasePutInode(s, id, a.(nlink := if delta == 1 then Add64(a.nlink, 1) else Sub64(a.nlink, 1)));
    hide PutInode;
  }

  lemma EraseEntered(s: State, t: State, key: DentryKey, attrs: InodeAttrs)
    requires t.defaultChunkSize == s.defaultChunkSize
    ensures Erase(Entered(s, t, key, attrs)) == Entered(Erase(s), Erase(t), key, EraseAttrs(attrs))
  {
  }

  lemma EraseParentUpdated(s: State, key: DentryKey, kind: InodeType, now: i64)
    requires key.parent in s.inodes
    ensures Erase(ParentUpdated(s, key, kind, now)) == ParentUpdated(Erase(s), key, kind, 0)
    ensures ParentUpdated(s, key, kind, now).defaultChunkSize == s.defaultChunkSize
  {
    var stamped := Stamped(s.inodes[key.parent], now);
    ErasePutInode(s, key.parent, stamped);
    EraseAddLinks(PutInode(s, key.parent, stamped), key.parent, 1);
    assert EraseAttrs(stamped) == Stamped(Erase(s).inodes[key.parent], 0);
    hide AddLinks, Erase;
  }

  lemma EraseWithNode(s: State, key: DentryKey, attrs: InodeAttrs, now: i64)
    requires key.parent in s.inodes && key.parent in Erase(s).inodes
    ensures Erase(WithNode(s, key, attrs, now)) == WithNode(Erase(s), key, EraseAttrs(attrs), 0)
  {
    hide Erase, ParentUpdated, Entered;
    EraseParentUpdated(s, key, attrs.kind, now);
    EraseEntered(s, ParentUpdated(s, key, attrs.kind, now), key, attrs);
  }

  lemma EraseDrop(s: State, key: DentryKey, id: u64)
    ensures Erase(s.(dentries := s.dentries - {key}, layouts := s.layouts - {id}, inodes := s.inodes - {id})) ==
            Erase(s).(dentries := s.dentries - {key}, layouts := Erase(s).layouts - {id},
                      inodes := Erase(s).inodes - {id})
  {
  }

  lemma EraseWithoutNode(s: State, key: DentryKey, now: i64)
    requires key in s.dentries && s.dentries[key] in s.inodes
    requires key.parent in s.inodes && key.parent != s.dentries[key]
    ensures Erase(WithoutNode(s, key, now)) == WithoutNode(Erase(s), key, 0)
  {
    var id := s.dentries[key];
    EraseDrop(s, key, id);
    var s1 := s.(dentries := s.dentries - {key}, layouts := s.layouts - {id}, inodes := s.inodes - {id});
    EraseTouch(s1, key.parent, now);
    EraseAddLinks(Touch(s1, key.parent, now), key.parent, -1);
    hide AddLinks;
  }

  lemma EraseRelinked(s: State, oldKey: DentryKey, newKey: DentryKey, now: i64)
    requires oldKey in s.dentries && s.dentries[oldKey] in s.inodes
    requires oldKey.parent in s.inodes && newKey.parent in s.inodes
    ensures Erase(Relinked(s, oldKey, newKey, now)) == Relinked(Erase(s), oldKey, newKey, 0)
  {
    var id := s.dentries[oldKey];
    var s0 := s.(dentries := Moved(s.dentries, oldKey, newKey));
    EraseTouch(s0, oldKey.parent, now);
    var s1 := Touch(s0, oldKey.parent, now);
    var e1 := Touch(Erase(s).(dentries := s0.dentries), oldKey.parent, 0);
    assert Erase(s0) == Erase(s).(dentries := s0.dentries);
    var s2, e2 := s1, e1;
    if oldKey.parent != newKey.parent {
      EraseTouch(s1, newKey.parent, now);
      s2, e2 := Touch(s1, newKey.parent, now), Touch(e1, newKey.parent, 0);
      if s2.inodes[id].kind.Directory? {
        EraseAddLinks(s2, oldKey.parent, -1);
        EraseAddLinks(AddLinks(s2, oldKey.parent, -1), newKey.parent, 1);
        s2 := AddLinks(AddLinks(s2, oldKey.parent, -1), newKey.parent, 1);
        e2 := AddLinks(AddLinks(e2, oldKey.parent, -1), newKey.parent, 1);
      }
    }
    assert Erase(s2) == e2 && id in s2.inodes && e2.inodes[id] == EraseAttrs(s2.inodes[id]);
    ErasePutBoth(s2, id, s2.inodes[id].(ctimeNs := now, version := Add64(s2.inodes[id].version, 1)));
    assert Relinked(Erase(s), oldKey, newKey, 0) ==
           PutBoth(e2, id, e2.inodes[id].(ctimeNs := 0, version := Add64(e2.inodes[id].version, 1)));
    hide PutBoth, AddLinks, Touch, Relinked;
    assert Relinked(s, oldKey, newKey, now) ==
           PutBoth(s2, id, s2.inodes[id].(ctimeNs := now, version := Add64(s2.inodes[id].version, 1)));
  }

  // ---------- forgetting commutes with every command ----------

  lemma EraseKeepsClosed(s: State)
    requires NoDangling(s)
    ensures NoDangling(Erase(s))
  {
  }

  lemma EraseParentError(s: State, parent: u64, name: string)
    ensures ParentError(Erase(s).inodes, parent, name) == ParentError(s.inodes, parent, name)
  {
  }

  lemma EraseFileError(s: State, id: u64)
    ensures FileError(Erase(s), id) == FileError(s, id)
  {
  }

  lemma EraseCreate(s: State, parent: u64, name: string, kind: InodeType, mode: u32, uid: u32, gid: u32, now: i64)
    ensures EraseOutcome(CreateNode(s, parent, name, kind, mode, uid, gid, now)) ==
            CreateNode(Erase(s), parent, name, kind, mode, uid, gid, 0)
  {
    EraseParentError(s, parent, name);
    if CreateNode(s, parent, name, kind, mode, uid, gid, now).result.Ok? {
      EraseWithNode(s, DentryKey(parent, name),
                    NewInode(s.nextInodeId, kind, mode, uid, gid, now, s.defaultChunkSize), now);
    }
    hide WithNode, ParentError;
  }

  lemma EraseSetAttr(s: State, id: u64, args: SetAttrArgs, now: i64)
    ensures EraseOutcome(SetAttr(s, id, args, now)) ==
            SetAttr(Erase(s), id, EraseCommand(SetAttrCommand(id, args)).args, 0)
  {
    if id in s.inodes {
      ErasePutBoth(s, id, SetAttr(s, id, args, now).result.value);
      hide PutBoth;
    }
  }

  lemma EraseUnlink(s: State, parent: u64, name: string, now: i64)
    requires NoDangling(s) && NoDangling(Erase(s))
    ensures EraseOutcome(Unlink(s, parent, name, now)) == Unlink(Erase(s), parent, name, 0)
  {
    var key := DentryKey(parent, name);
    EraseParentError(s, parent, name);
    assert ParentError(s.inodes, parent, name).None? ==> s.inodes[parent].kind.Directory?;
    hide WithoutNode, ParentError;
    if key in s.dentries && key.parent != s.dentries[key] {
      EraseWithoutNode(s, key, now);
    }
  }

  lemma EraseRmdir(s: State, parent: u64, name: string, now: i64)
    requires NoDangling(s) && NoDangling(Erase(s))
    ensures EraseOutcome(Rmdir(s, parent, name, now)) == Rmdir(Erase(s), parent, name, 0)
  {
    var key := DentryKey(parent, name);
    EraseParentError(s, parent, name);
    assert ParentError(s.inodes, parent, name).None? ==> s.inodes[parent].kind.Directory?;
    hide WithoutNode, ParentError;
    if key in s.dentries && key.parent != s.dentries[key] {
      EraseWithoutNode(s, key, now);
    }
  }

  lemma EraseReplace(s: State, oldKey: DentryKey, newKey: DentryKey, times: Times)
    requires oldKey in s.dentries && newKey in s.dentries && s.dentries[oldKey] in s.inodes
    requires s.dentries[newKey] in s.inodes && s.dentries[newKey] != s.dentries[oldKey]
    requires oldKey.parent in s.inodes && newKey.parent in s.inodes
    requires newKey.parent != s.dentries[newKey] && oldKey.parent != s.dentries[newKey]
    ensures Erase(Relinked(WithoutNode(s, newKey, times.removal), oldKey, newKey, times.final)) ==
            Relinked(WithoutNode(Erase(s), newKey, 0), oldKey, newKey, 0)
  {
    EraseWithoutNode(s, newKey, times.removal);
    hide WithoutNode, Relinked, Erase;
    EraseRelinked(WithoutNode(s, newKey, times.removal), oldKey, newKey, times.final);
  }

  lemma EraseReplaceError(s: State, moved: u64, newKey: DentryKey)
    requires newKey in s.dentries && s.dentries[newKey] in s.inodes && moved in s.inodes
    ensures ReplaceError(Erase(s), moved, newKey) == ReplaceError(s, moved, newKey)
  {
    hide Leaf;
  }

  lemma ReplacedIsApart(s: State, oldKey: DentryKey, newKey: DentryKey)
    requires NoDangling(s) && oldKey in s.dentries && newKey in s.dentries
    requires ReplaceError(s, s.dentries[oldKey], newKey).None?
    ensures s.inodes[oldKey.parent].kind.Directory? && s.inodes[newKey.parent].kind.Directory? ==>
              oldKey.parent != s.dentries[newKey] && newKey.parent != s.dentries[newKey]
  {
  }

  lemma EraseRename(s: State, oldKey: DentryKey, newKey: DentryKey, times: Times)
    requires NoDangling(s) && NoDangling(Erase(s))
    ensures EraseOutcome(Rename(s, oldKey, newKey, times)) == Rename(Erase(s), oldKey, newKey, NO_TIMES)
  {
    EraseParentError(s, oldKey.parent, oldKey.name);
    EraseParentError(s, newKey.parent, newKey.name);
    assert ParentError(s.inodes, oldKey.parent, oldKey.name).None? ==> s.inodes[oldKey.parent].kind.Directory?;
    assert ParentError(s.inodes, newKey.parent, newKey.name).None? ==> s.inodes[newKey.parent].kind.Directory?;
    hide WithoutNode, Relinked, Above, ParentError, ReplaceError;
    if oldKey in s.dentries && newKey in s.dentries {
      EraseReplaceError(s, s.dentries[oldKey], newKey);
    }
    if oldKey in s.dentries && newKey.parent in s.inodes {
      if newKey !in s.dentries {
        EraseRelinked(s, oldKey, newKey, times.final);
      } else if s.dentries[newKey] != s.dentries[oldKey] && ReplaceError(s, s.dentries[oldKey], newKey).None? {
        ReplacedIsApart(s, oldKey, newKey);
        if s.inodes[oldKey.parent].kind.Directory? && s.inodes[newKey.parent].kind.Directory? {
          EraseReplace(s, oldKey, newKey, times);
        }
      }
    }
  }

  lemma EraseExtents(s: State, id: u64, xs: seq<FileExtent>)
    requires id in s.layouts
    ensures Erase(PutExtents(s, id, xs)) == PutExtents(Erase(s), id, xs)
  {
  }

  lemma EraseResized(s: State, id: u64, size: u64, now: i64)
    requires id in s.inodes
    ensures Erase(Resized(s, id, size, now)) == Resized(Erase(s), id, size, 0)
  {
    ErasePutBoth(s, id, Stamped(s.inodes[id], now).(size := size));
    hide PutBoth;
  }

  lemma EraseCommit(s: State, id: u64, es: seq<FileExtent>, now: i64)
    ensures EraseOutcome(CommitWrite(s, id, es, now)) == CommitWrite(Erase(s), id, es, 0)
  {
    EraseFileError(s, id);
    if FileError(s, id).None? {
      var xs := MergeAll(s.layouts[id].extents, es[..Accepted(es)]);
      hide MergeAll, Accepted, MaxEnd;
      EraseExtents(s, id, xs);
      EraseResized(PutExtents(s, id, xs), id, MaxEnd(s.inodes[id].size, es), now);
      hide Resized;
    }
  }

  lemma EraseAppendWrite(s: State, id: u64, es: seq<FileExtent>, now: i64)
    ensures EraseAppend(AppendWrite(s, id, es, now)) == AppendWrite(Erase(s), id, es, 0)
  {
    EraseFileError(s, id);
    if FileError(s, id).None? {
      var xs := MergeAll(s.layouts[id].extents, ShiftAll(es[..Accepted(es)], s.inodes[id].size));
      hide MergeAll, Accepted, MaxEnd, ShiftAll;
      EraseExtents(s, id, xs);
      EraseResized(PutExtents(s, id, xs), id, Add64(s.inodes[id].size, MaxEnd(0, es)), now);
      hide Resized;
    }
  }

  lemma EraseTruncate(s: State, id: u64, size: u64, now: i64)
    ensures EraseOutcome(Truncate(s, id, size, now)) == Truncate(Erase(s), id, size, 0)
  {
    EraseFileError(s, id);
    if FileError(s, id).None? {
      hide Cut;
      EraseExtents(s, id, Cut(s.layouts[id].extents, size));
      EraseResized(PutExtents(s, id, Cut(s.layouts[id].extents, size)), id, size, now);
      hide Resized;
    }
  }

  /** Up to the erased times, a command's effect and answer do not depend on the clock. */
  lemma EraseApply(s: State, c: Command, times: Times)
    requires NoDangling(s) && NoDangling(Erase(s))
    ensures Erase(Apply(s, c, times).0) == Apply(Erase(s), EraseCommand(c), NO_TIMES).0
    ensures EraseResponse(Apply(s, c, times).1) == Apply(Erase(s), EraseCommand(c), NO_TIMES).1
  {
    hide Erase, NoDangling, CreateNode, SetAttr, CommitWrite, AppendWrite, Truncate, Unlink, Rmdir, Rename;
    match c {
      case MkdirCommand(parent, name, mode, uid, gid) =>
        EraseCreate(s, parent, name, Directory, mode, uid, gid, times.final);
      case CreateFileCommand(parent, name, mode, uid, gid) =>
        EraseCreate(s, parent, name, File, mode, uid, gid, times.final);
      case SetAttrCommand(id, args) => EraseSetAttr(s, id, args, times.final);
      case CommitWriteCommand(id, _, es) => EraseCommit(s, id, es, times.final);
      case AppendWriteCommand(id, _, es) => EraseAppendWrite(s, id, es, times.final);
      case TruncateCommand(id, size) => EraseTruncate(s, id, size, times.final);
      case UnlinkCommand(parent, name) => EraseUnlink(s, parent, name, times.removal);
      case RmdirCommand(parent, name) => EraseRmdir(s, parent, name, times.removal);
      case RenameCommand(op, on, np, nn) => EraseRename(s, DentryKey(op, on), DentryKey(np, nn), times);
      case CommandNotSet =>
    }
  }

  // ---------- agreement ----------

  /** The answer to one command. */
  ghost function Answer(s: State, e: LogEntry): Response
    requires NoDangling(s)
  {
    Apply(s, e.command, e.times).1
  }

  /** The answers to a whole log, in order. */
  ghost function Answers(s: State, log: seq<LogEntry>): (r: seq<Response>)
    requires Valid(s) && NoDangling(s) && s.nextInodeId + |log| <= MAX_64
    ensures |r| == |log|
    decreases |log|
  {
    if log == [] then [] else [Answer(s, log[0])] + Answers(Next(s, log[0]), log[1..])
  }

  /** Two logs of the same commands, read at different clocks. */
  ghost predicate SameCommands(log: seq<LogEntry>, other: seq<LogEntry>) {
    |log| == |other| && forall i :: 0 <= i < |log| ==> log[i].command == other[i].command
  }

  lemma NextAgrees(s: State, t: State, e: LogEntry, f: LogEntry)
    requires Valid(s) && NoDangling(s) && Valid(t) && NoDangling(t)
    requires Erase(s) == Erase(t) && s.nextInodeId < MAX_64 && e.command == f.command
    ensures t.nextInodeId < MAX_64
    ensures Erase(Next(s, e)) == Erase(Next(t, f))
    ensures EraseResponse(Answer(s, e)) == EraseResponse(Answer(t, f))
  {
    EraseKeepsClosed(s);
    EraseKeepsClosed(t);
    assert Erase(s).nextInodeId == s.nextInodeId && Erase(t).nextInodeId == t.nextInodeId;
    hide Erase, Valid, NoDangling, Apply;
    EraseApply(s, e.command, e.times);
    EraseApply(t, f.command, f.times);
  }

  /** Two replicas that agree up to times and apply the same commands at different clocks agree
      up to times afterwards, and gave the same answers up to times all along. */
  lemma {:induction false} ReplicasAgree(s: State, t: State, log: seq<LogEntry>, other: seq<LogEntry>)
    requires Valid(s) && NoDangling(s) && s.nextInodeId + |log| <= MAX_64
    requires Valid(t) && NoDangling(t) && t.nextInodeId + |other| <= MAX_64
    requires Erase(s) == Erase(t) && SameCommands(log, other)
    ensures Erase(Run(s, log)) == Erase(Run(t, other))
    ensures forall i :: 0 <= i < |log| ==> EraseResponse(Answers(s, log)[i]) == EraseResponse(Answers(t, other)[i])
    decreases |log|
  {
    hide Erase, EraseResponse, Valid, NoDangling, Next, Answer;
    if log != [] {
      NextAgrees(s, t, log[0], other[0]);
      ReplicasAgree(Next(s, log[0]), Next(t, other[0]), log[1..], other[1..]);
    }
  }

  /** A replica that restores a snapshot taken after any prefix of the log and then applies the
      rest, at its own clock, agrees up to times with one that applied the whole log, in state and
      in every answer to the rest. */
  lemma RestoredReplicaAgrees(
      s: State, before: State, prefix: seq<LogEntry>, rest: seq<LogEntry>, replay: seq<LogEntry>, m: MetaSnapshot)
    requires Valid(s) && NoDangling(s) && s.nextInodeId + |prefix| + |rest| <= MAX_64
    requires IsSnapshotOf(Run(s, prefix), m) && SameCommands(rest, replay)
    ensures Restore(before, m).result.Ok?
    ensures var restored := Restore(before, m).state;
            && Valid(restored) && NoDangling(restored) && restored.nextInodeId + |replay| <= MAX_64
            && Erase(Run(restored, replay)) == Erase(Run(s, prefix + rest))
            && |Answers(restored, replay)| == |Answers(Run(s, prefix), rest)|
            && forall i :: 0 <= i < |rest| ==>
                 EraseResponse(Answers(restored, replay)[i]) == EraseResponse(Answers(Run(s, prefix), rest)[i])
  {
    hide Erase, Valid, NoDangling, Next, Restore, IsSnapshotOf;
    SnapshotRoundTrip(Run(s, prefix), m, before);
    RunConcat(s, prefix, rest);
    ReplicasAgree(Run(s, prefix), Run(s, prefix), rest, replay);
  }
}
