/** File contents under the commands (src/meta_state.cc:334-475): which bytes a layout reads
    as, which extents it may hold, and which objects it keeps alive. */
module MetaFiles {
  import opened Types
  import opened Extents
  import opened Namespace
  import opened Ancestry
  import opened MetaSpec
  import opened MetaInvariant

  // ---------- what one command does to one layout ----------

  /** The extents a write command merges: its accepted prefix, for an append moved to the old end. */
  function Batch(s: State, c: Command): seq<FileExtent> {
    match c
    case CommitWriteCommand(_, _, es) => es[..Accepted(es)]
    case AppendWriteCommand(id, _, es) => if id in s.inodes then ShiftAll(es[..Accepted(es)], s.inodes[id].size) else []
    case _ => []
  }

  /** The file a content command addresses. */
  function Target(c: Command): Option<u64> {
    match c
    case CommitWriteCommand(id, _, _) => Some(id)
    case AppendWriteCommand(id, _, _) => Some(id)
    case TruncateCommand(id, _) => Some(id)
    case _ => None
  }

  /** A write command whose batch is rejected part of the way. */
  predicate Rejected(c: Command) {
    match c
    case CommitWriteCommand(_, _, es) => Accepted(es) < |es|
    case AppendWriteCommand(_, _, es) => Accepted(es) < |es|
    case _ => false
  }

  function ExtentsAfter(s: State, c: Command, id: u64): seq<FileExtent> {
    if id !in s.layouts then [] else
    var xs := s.layouts[id].extents;
    if Target(c) != Some(id) then xs
    else if c.TruncateCommand? then Cut(xs, c.size)
    else MergeAll(xs, Batch(s, c))
  }

  function SizeAfter(s: State, c: Command, id: u64): u64 {
    if id !in s.inodes then 0 else
    var size := s.inodes[id].size;
    if Target(c) != Some(id) || id !in s.layouts then size
    else match c
    case TruncateCommand(_, n) => n
    case CommitWriteCommand(_, _, es) => if Rejected(c) then size else MaxEnd(size, es)
    case AppendWriteCommand(_, _, es) => if Rejected(c) then size else Add64(size, MaxEnd(0, es))
    case _ => size
  }

  ghost predicate ContentsAre(s: State, c: Command, s': State) {
    && (forall id :: id in s'.layouts ==> s'.layouts[id].extents == ExtentsAfter(s, c, id))
    && (forall id :: id in s'.inodes ==> s'.inodes[id].size == SizeAfter(s, c, id))
  }

  /** The extent list and the size of every file after any command. */
  lemma ApplyContents(s: State, c: Command, times: Times)
    requires Valid(s) && NoDangling(s)
    ensures ContentsAre(s, c, Apply(s, c, times).0)
  {
    assert Numbered(s) && Cached(s);
    hide Apply, Valid, NoDangling, Numbered, Cached, ContentsAre, ContentsFrom;
    if Target(c).Some? {
      WriteContents(s, c, times);
    } else {
      NamespaceContents(s, c, times);
      UntargetedContents(s, c, Apply(s, c, times).0);
    }
  }

  lemma UntargetedContents(s: State, c: Command, s': State)
    requires ContentsFrom(s, s') && Target(c).None?
    ensures ContentsAre(s, c, s')
  {
  }

  lemma NamespaceContents(s: State, c: Command, times: Times)
    requires Valid(s) && NoDangling(s) && Target(c).None?
    requires Numbered(s) && Cached(s)
    ensures ContentsFrom(s, Apply(s, c, times).0)
  {
    hide CreateNode, Unlink, Rmdir, Rename, Valid, NoDangling, ContentsFrom;
    match c {
      case MkdirCommand(parent, name, mode, uid, gid) =>
        CreateContents(s, parent, name, Directory, mode, uid, gid, times.final);
      case CreateFileCommand(parent, name, mode, uid, gid) =>
        CreateContents(s, parent, name, File, mode, uid, gid, times.final);
      case SetAttrCommand(id, args) => SetAttrContents(s, id, args, times.final);
      case UnlinkCommand(parent, name) => RemovalContents(s, parent, name, times.removal);
      case RmdirCommand(parent, name) => RemovalContents(s, parent, name, times.removal);
      case RenameCommand(op, on, np, nn) => RenameContents(s, DentryKey(op, on), DentryKey(np, nn), times);
      case CommandNotSet => SameContents(s);
    }
  }

  lemma SetAttrContents(s: State, id: u64, args: SetAttrArgs, now: i64)
    ensures ContentsFrom(s, SetAttr(s, id, args, now).state)
  {
  }

  lemma SameContents(s: State)
    ensures ContentsFrom(s, s)
  {
  }

  /** s' has no layout or size that s does not have, except empty ones. */
  ghost predicate ContentsFrom(s: State, s': State) {
    && (forall id :: id in s'.layouts ==>
          s'.layouts[id].extents == if id in s.layouts then s.layouts[id].extents else [])
    && (forall id :: id in s'.inodes ==>
          s'.inodes[id].size == if id in s.inodes then s.inodes[id].size else 0)
  }

  lemma CreateContents(
      s: State, parent: u64, name: string, kind: InodeType, mode: u32, uid: u32, gid: u32, now: i64)
    requires Numbered(s) && Cached(s)
    ensures ContentsFrom(s, CreateNode(s, parent, name, kind, mode, uid, gid, now).state)
  {
    assert s.nextInodeId !in s.inodes && s.nextInodeId !in s.layouts;
  }

  lemma WithoutNodeContents(s: State, key: DentryKey, now: i64)
    requires key in s.dentries && s.dentries[key] in s.inodes
    requires key.parent in s.inodes && key.parent != s.dentries[key]
    ensures ContentsFrom(s, WithoutNode(s, key, now))
  {
  }

  lemma RelinkedContents(s: State, oldKey: DentryKey, newKey: DentryKey, now: i64)
    requires oldKey in s.dentries && s.dentries[oldKey] in s.inodes
    requires oldKey.parent in s.inodes && newKey.parent in s.inodes
    requires oldKey.parent !in s.layouts && newKey.parent !in s.layouts
    ensures ContentsFrom(s, Relinked(s, oldKey, newKey, now))
    ensures Relinked(s, oldKey, newKey, now).layouts.Keys == s.layouts.Keys
  {
    hide Relinked;
    RelinkedShape(s, oldKey, newKey, now);
    forall x | x in s.inodes ensures Relinked(s, oldKey, newKey, now).inodes[x].size == s.inodes[x].size {
      RelinkedAt(s, oldKey, newKey, now, x);
    }
  }

  lemma RemovalContents(s: State, parent: u64, name: string, now: i64)
    requires NoDangling(s)
    ensures ContentsFrom(s, Unlink(s, parent, name, now).state)
    ensures ContentsFrom(s, Rmdir(s, parent, name, now).state)
  {
    var key := DentryKey(parent, name);
    if key in s.dentries && key.parent != s.dentries[key] {
      WithoutNodeContents(s, key, now);
    }
    hide WithoutNode, Leaf;
  }

  lemma RenameContents(s: State, oldKey: DentryKey, newKey: DentryKey, times: Times)
    requires Valid(s) && NoDangling(s)
    ensures ContentsFrom(s, Rename(s, oldKey, newKey, times).state)
  {
    SameContents(s);
    assert forall k :: k in s.dentries ==> s.dentries[k] in s.inodes && k.parent in s.inodes;
    assert forall id :: id in s.layouts ==> s.inodes[id].kind.File?;
    hide Valid, NoDangling, WithoutNode, Relinked, Leaf, Above, ContentsFrom;
    if oldKey in s.dentries && newKey.parent in s.inodes && s.inodes[newKey.parent].kind.Directory? {
      ParentsAreDirectories(s, oldKey);
      assert newKey.parent !in s.layouts;
      if newKey !in s.dentries {
        RelinkedContents(s, oldKey, newKey, times.final);
      } else if s.dentries[newKey] != s.dentries[oldKey] && ReplaceError(s, s.dentries[oldKey], newKey).None? {
        TargetIsLeaf(s, s.dentries[oldKey], newKey);
        ReplaceContents(s, oldKey, newKey, times);
      }
    }
  }

  lemma ReplaceContents(s: State, oldKey: DentryKey, newKey: DentryKey, times: Times)
    requires oldKey in s.dentries && newKey in s.dentries && s.dentries[oldKey] in s.inodes
    requires s.dentries[newKey] in s.inodes && s.dentries[newKey] != s.dentries[oldKey]
    requires oldKey.parent in s.inodes && newKey.parent in s.inodes
    requires newKey.parent != s.dentries[newKey] && oldKey.parent != s.dentries[newKey]
    requires oldKey.parent !in s.layouts && newKey.parent !in s.layouts
    ensures ContentsFrom(s, Relinked(WithoutNode(s, newKey, times.removal), oldKey, newKey, times.final))
  {
    WithoutNodeShape(s, newKey, times.removal);
    WithoutNodeContents(s, newKey, times.removal);
    hide WithoutNode;
    RelinkedContents(WithoutNode(s, newKey, times.removal), oldKey, newKey, times.final);
  }

  lemma WriteContents(s: State, c: Command, times: Times)
    requires Valid(s) && NoDangling(s) && Target(c).Some?
    ensures ContentsAre(s, c, Apply(s, c, times).0)
  {
    assert Cached(s);
    hide Apply, ContentsAre, Valid, NoDangling;
    match c {
      case CommitWriteCommand(id, _, es) => CommitContents(s, c, times);
      case AppendWriteCommand(id, _, es) => AppendContents(s, c, times);
      case TruncateCommand(id, size) => TruncateContents(s, c, times);
    }
  }

  lemma CommitContents(s: State, c: Command, times: Times)
    requires Cached(s) && NoDangling(s) && c.CommitWriteCommand?
    ensures ContentsAre(s, c, Apply(s, c, times).0)
  {
    hide NoDangling, MergeAll, Cut, MaxEnd, ShiftAll, Accepted;
  }

  lemma AppendContents(s: State, c: Command, times: Times)
    requires Cached(s) && NoDangling(s) && c.AppendWriteCommand?
    ensures ContentsAre(s, c, Apply(s, c, times).0)
  {
    hide NoDangling, MergeAll, Cut, MaxEnd, ShiftAll, Accepted;
  }

  lemma TruncateContents(s: State, c: Command, times: Times)
    requires Cached(s) && NoDangling(s) && c.TruncateCommand?
    ensures ContentsAre(s, c, Apply(s, c, times).0)
  {
    hide NoDangling, MergeAll, Cut, MaxEnd, ShiftAll, Accepted;
  }

  // ---------- well-formed layouts ----------

  ghost predicate ExtentsOk(s: State) {
    forall id :: id in s.layouts ==> WellFormed(s.layouts[id].extents)
  }

  ghost predicate RangesOk(s: State) {
    forall id :: id in s.layouts ==> InsideObjects(s.layouts[id].extents)
  }

  /** The ends a command brings in, counted from where it puts them, stay below 2^64. */
  predicate Fitting(s: State, c: Command) {
    match c
    case CommitWriteCommand(_, _, es) => AllFit(es)
    case AppendWriteCommand(id, _, es) =>
      id in s.inodes ==>
        forall i :: 0 <= i < |es| ==> s.inodes[id].size + es[i].offset + es[i].length < TWO_64
    case _ => true
  }

  lemma BatchFits(s: State, c: Command)
    requires Fitting(s, c)
    ensures AllFit(Batch(s, c)) && NoneEmpty(Batch(s, c))
  {
    match c {
      case CommitWriteCommand(_, _, es) =>
      case AppendWriteCommand(id, _, es) =>
        if id in s.inodes {
          ShiftedMaxEnd(s.inodes[id].size, es[..Accepted(es)]);
        }
      case _ =>
    }
  }

  /** Every command, failed or not, keeps every layout sorted, disjoint and free of empty or
      wrapped extents. */
  lemma ApplyKeepsExtents(s: State, c: Command, times: Times)
    requires Valid(s) && NoDangling(s) && ExtentsOk(s) && Fitting(s, c)
    ensures ExtentsOk(Apply(s, c, times).0)
  {
    hide Apply, WellFormed, Valid, NoDangling, Fitting;
    ApplyContents(s, c, times);
    BatchFits(s, c);
    forall id | id in Apply(s, c, times).0.layouts ensures WellFormed(ExtentsAfter(s, c, id)) {
      if id in s.layouts {
        CutWellFormed(s.layouts[id].extents, if c.TruncateCommand? then c.size else 0);
        BatchOverlays(s.layouts[id].extents, Batch(s, c));
      } else {
        NoExtentsOk();
      }
    }
  }

  lemma NoExtentsOk()
    ensures WellFormed([]) && InsideObjects([])
  {
  }

  /** Object ranges stay inside their objects if the incoming ones do. */
  lemma ApplyKeepsRanges(s: State, c: Command, times: Times)
    requires Valid(s) && NoDangling(s) && ExtentsOk(s) && RangesOk(s) && Fitting(s, c)
    requires InsideObjects(Batch(s, c))
    ensures RangesOk(Apply(s, c, times).0)
  {
    hide Apply, WellFormed, InsideObjects, Valid, NoDangling, Fitting;
    ApplyContents(s, c, times);
    BatchFits(s, c);
    forall id | id in Apply(s, c, times).0.layouts ensures InsideObjects(ExtentsAfter(s, c, id)) {
      if id in s.layouts {
        CutWellFormed(s.layouts[id].extents, if c.TruncateCommand? then c.size else 0);
        BatchInsideObjects(s.layouts[id].extents, Batch(s, c));
      } else {
        NoExtentsOk();
      }
    }
  }

  // ---------- layouts as sparse files ----------

  /** What position p of a file reads as: an object byte, or None for a hole. */
  function Byte(s: State, id: u64, p: u64): Option<Location> {
    if id in s.layouts then At(s.layouts[id].extents, p) else None
  }

  /** A layout refines a plain sparse file: a write batch is laid over it in order, an append at
      the old end, a truncation cuts to holes, and every other command leaves it alone. */
  lemma ApplyReads(s: State, c: Command, times: Times, id: u64, p: u64)
    requires Valid(s) && NoDangling(s) && ExtentsOk(s) && Fitting(s, c)
    requires id in Apply(s, c, times).0.layouts
    ensures Byte(Apply(s, c, times).0, id, p) ==
            if Target(c) != Some(id) then Byte(s, id, p)
            else if c.TruncateCommand? then (if p < c.size then Byte(s, id, p) else None)
            else if At(Batch(s, c), p).Some? then At(Batch(s, c), p)
            else Byte(s, id, p)
  {
    ApplyContents(s, c, times);
    BatchFits(s, c);
    if id in s.layouts {
      var xs := s.layouts[id].extents;
      CutReads(xs, if c.TruncateCommand? then c.size else 0, p);
      BatchOverlays(xs, Batch(s, c));
      AtConcat(xs, Batch(s, c), p);
    } else {
      NewFilesAreUntouched(s, c, times, id);
    }
    hide Apply, At;
  }

  lemma NewFilesAreUntouched(s: State, c: Command, times: Times, id: u64)
    requires Valid(s) && NoDangling(s) && id in Apply(s, c, times).0.layouts && id !in s.layouts
    ensures Target(c) != Some(id)
  {
    hide MergeAll, Cut, MaxEnd, ShiftAll, Accepted;
  }

  /** Replaying a commit changes no byte and no size. */
  lemma CommitReplay(s: State, c: Command, first: Times, second: Times, id: u64, p: u64)
    requires Valid(s) && NoDangling(s) && ExtentsOk(s) && Fitting(s, c) && c.CommitWriteCommand?
    requires id in s.layouts && s.nextInodeId < MAX_64
    ensures var s1 := Apply(s, c, first).0;
            && Valid(s1) && NoDangling(s1)
            && var s2 := Apply(s1, c, second).0;
               && id in s1.layouts && id in s2.layouts && Byte(s2, id, p) == Byte(s1, id, p)
               && id in s1.inodes && id in s2.inodes && s2.inodes[id].size == s1.inodes[id].size
  {
    hide Apply, Valid, NoDangling, ExtentsOk, At, Fitting;
    var s1 := Apply(s, c, first).0;
    ApplyKeepsValid(s, c, first);
    ValidHasNoDangling(s1);
    ApplyKeepsExtents(s, c, first);
    FilesHaveInodes(s, id);
    CommitKeepsLayouts(s, c, first);
    CommitKeepsLayouts(s1, c, second);
    StillFits(s, s1, c);
    ApplyReads(s, c, first, id, p);
    ApplyReads(s1, c, second, id, p);
    ApplyContents(s, c, first);
    ApplyContents(s1, c, second);
    ReplayedMaxEnd(s.inodes[id].size, if c.inodeId == id then c.extents else []);
  }

  lemma FilesHaveInodes(s: State, id: u64)
    requires Valid(s) && id in s.layouts
    ensures id in s.inodes
  {
  }

  lemma StillFits(s: State, s1: State, c: Command)
    requires Fitting(s, c) && c.CommitWriteCommand?
    ensures Fitting(s1, c) && Batch(s1, c) == Batch(s, c) && AllFit(c.extents) && AllFit([])
  {
  }

  lemma CommitKeepsLayouts(s: State, c: Command, times: Times)
    requires NoDangling(s) && c.CommitWriteCommand?
    ensures Apply(s, c, times).0.layouts.Keys == s.layouts.Keys
    ensures Apply(s, c, times).0.inodes.Keys == s.inodes.Keys
  {
    hide MergeAll, MaxEnd, Accepted;
  }

  lemma ReplayedMaxEnd(size: u64, es: seq<FileExtent>)
    requires AllFit(es)
    ensures MaxEnd(MaxEnd(size, es), es) == MaxEnd(size, es)
  {
    MaxEndLeast(MaxEnd(size, es), es, MaxEnd(size, es));
  }

  /** Shrinking a file and growing it again leaves a hole from the smaller size on. */
  lemma ShrinkThenGrow(s: State, id: u64, small: u64, large: u64, first: Times, second: Times, p: u64)
    requires Valid(s) && NoDangling(s) && ExtentsOk(s) && id in s.layouts && s.nextInodeId < MAX_64
    ensures var s1 := Apply(s, TruncateCommand(id, small), first).0;
            && NoDangling(s1)
            && var s2 := Apply(s1, TruncateCommand(id, large), second).0;
               && id in s2.inodes && s2.inodes[id].size == large
               && Byte(s2, id, p) == if p < small && p < large then Byte(s, id, p) else None
  {
    hide Apply, Valid, NoDangling, ExtentsOk, Byte;
    TruncateReads(s, id, small, first, p);
    TruncateReads(Apply(s, TruncateCommand(id, small), first).0, id, large, second, p);
  }

  /** One truncation, with everything the next command may rely on. */
  lemma TruncateReads(s: State, id: u64, size: u64, times: Times, p: u64)
    requires Valid(s) && NoDangling(s) && ExtentsOk(s) && id in s.layouts && s.nextInodeId < MAX_64
    ensures var s' := Apply(s, TruncateCommand(id, size), times).0;
            && Valid(s') && NoDangling(s') && ExtentsOk(s') && id in s'.layouts && s'.nextInodeId == s.nextInodeId
            && id in s'.inodes && s'.inodes[id].size == size
            && Byte(s', id, p) == if p < size then Byte(s, id, p) else None
  {
    var c := TruncateCommand(id, size);
    FilesHaveInodes(s, id);
    hide Apply, Valid, NoDangling, ExtentsOk, At;
    ApplyKeepsValid(s, c, times);
    ValidHasNoDangling(Apply(s, c, times).0);
    ApplyKeepsExtents(s, c, times);
    WritesKeepLayouts(s, c, times);
    TruncateKeepsNumbers(s, c, times);
    FilesHaveInodes(Apply(s, c, times).0, id);
    ApplyReads(s, c, times, id, p);
    ApplyContents(s, c, times);
  }

  lemma TruncateKeepsNumbers(s: State, c: Command, times: Times)
    requires NoDangling(s) && c.TruncateCommand?
    ensures Apply(s, c, times).0.nextInodeId == s.nextInodeId
  {
    hide Cut;
  }

  // ---------- extents and sizes ----------

  /** Every extent ends at or before its file's size. */
  ghost predicate SizesOk(s: State) {
    forall id :: id in s.layouts ==> id in s.inodes && Bounded(s.layouts[id].extents, s.inodes[id].size)
  }

  /** A rejected batch on a file whose merged prefix reaches past the size nobody updates. */
  predicate Overreaches(s: State, c: Command) {
    && Rejected(c) && Target(c).Some? && Target(c).value in s.layouts && Target(c).value in s.inodes
    && !Bounded(Batch(s, c), s.inodes[Target(c).value].size)
  }

  lemma BoundedAfterCommit(s: State, c: Command, id: u64)
    requires ExtentsOk(s) && Fitting(s, c) && id in s.layouts && id in s.inodes
    requires Bounded(s.layouts[id].extents, s.inodes[id].size)
    requires c.CommitWriteCommand? && c.inodeId == id
    ensures Bounded(ExtentsAfter(s, c, id), SizeAfter(s, c, id)) <==> !Overreaches(s, c)
  {
    var xs, size := s.layouts[id].extents, s.inodes[id].size;
    BatchFits(s, c);
    hide Fitting, MergeAll;
    BatchBounded(xs, Batch(s, c), SizeAfter(s, c, id));
    if !Rejected(c) {
      assert c.extents[..|c.extents|] == c.extents;
    }
  }

  lemma AppendedSize(s: State, c: Command, id: u64)
    requires Fitting(s, c) && id in s.layouts && id in s.inodes
    requires c.AppendWriteCommand? && c.inodeId == id
    ensures SizeAfter(s, c, id) == if Rejected(c) then s.inodes[id].size else MaxEnd(s.inodes[id].size, Batch(s, c))
    ensures !Rejected(c) ==> Bounded(Batch(s, c), SizeAfter(s, c, id))
  {
    if !Rejected(c) {
      assert c.extents[..|c.extents|] == c.extents;
      ShiftedMaxEnd(s.inodes[id].size, c.extents);
    }
  }

  lemma BoundedAfterAppend(s: State, c: Command, id: u64)
    requires ExtentsOk(s) && Fitting(s, c) && id in s.layouts && id in s.inodes
    requires Bounded(s.layouts[id].extents, s.inodes[id].size)
    requires c.AppendWriteCommand? && c.inodeId == id
    ensures Bounded(ExtentsAfter(s, c, id), SizeAfter(s, c, id)) <==> !Overreaches(s, c)
  {
    var xs, size := s.layouts[id].extents, s.inodes[id].size;
    BatchFits(s, c);
    AppendedSize(s, c, id);
    assert WellFormed(xs);
    hide Fitting, MergeAll, WellFormed, MaxEnd, ShiftAll, Accepted, AllFit, NoneEmpty;
    BatchBounded(xs, Batch(s, c), SizeAfter(s, c, id));
  }

  lemma BoundedAfter(s: State, c: Command, id: u64)
    requires ExtentsOk(s) && SizesOk(s) && Fitting(s, c) && id in s.layouts && id in s.inodes
    ensures Bounded(ExtentsAfter(s, c, id), SizeAfter(s, c, id)) <==> !(Target(c) == Some(id) && Overreaches(s, c))
  {
    if Target(c) == Some(id) {
      match c {
        case TruncateCommand(_, n) => CutWellFormed(s.layouts[id].extents, n);
        case CommitWriteCommand(_, _, es) => BoundedAfterCommit(s, c, id);
        case AppendWriteCommand(_, _, es) => BoundedAfterAppend(s, c, id);
      }
    }
    hide WellFormed, Fitting;
  }

  /** The size bound survives a command exactly when the command is not a rejected batch whose
      accepted prefix already reaches past the size. */
  lemma ApplyKeepsSizesIff(s: State, c: Command, times: Times)
    requires Valid(s) && NoDangling(s) && ExtentsOk(s) && SizesOk(s) && Fitting(s, c) && s.nextInodeId < MAX_64
    ensures SizesOk(Apply(s, c, times).0) <==> !Overreaches(s, c)
  {
    hide Apply, Valid, NoDangling, SizesOk, Overreaches;
    if Overreaches(s, c) {
      OverreachingBreaks(s, c, times);
    } else {
      OthersKeepSizes(s, c, times);
    }
  }

  lemma OverreachingBreaks(s: State, c: Command, times: Times)
    requires Valid(s) && NoDangling(s) && ExtentsOk(s) && SizesOk(s) && Fitting(s, c) && Overreaches(s, c)
    ensures !SizesOk(Apply(s, c, times).0)
  {
    hide Apply, Valid, NoDangling, Bounded, ExtentsOk, Fitting, ExtentsAfter, SizeAfter;
    ApplyContents(s, c, times);
    WritesKeepLayouts(s, c, times);
    BoundedAfter(s, c, Target(c).value);
  }

  lemma OthersKeepSizes(s: State, c: Command, times: Times)
    requires Valid(s) && NoDangling(s) && ExtentsOk(s) && SizesOk(s) && Fitting(s, c) && !Overreaches(s, c)
    requires s.nextInodeId < MAX_64
    ensures SizesOk(Apply(s, c, times).0)
  {
    var s' := Apply(s, c, times).0;
    hide Apply, Valid, NoDangling, Bounded, ExtentsOk, Fitting, ExtentsAfter, SizeAfter, Overreaches;
    ApplyKeepsValid(s, c, times);
    ApplyContents(s, c, times);
    forall id | id in s'.layouts ensures id in s'.inodes && Bounded(s'.layouts[id].extents, s'.inodes[id].size) {
      FilesHaveInodes(s', id);
      BoundedAfterAny(s, c, times, id);
    }
  }

  lemma BoundedAfterAny(s: State, c: Command, times: Times, id: u64)
    requires Valid(s) && NoDangling(s) && ExtentsOk(s) && SizesOk(s) && Fitting(s, c) && !Overreaches(s, c)
    requires id in Apply(s, c, times).0.layouts
    ensures Bounded(ExtentsAfter(s, c, id), SizeAfter(s, c, id))
  {
    if id in s.layouts {
      BoundedAfter(s, c, id);
    } else {
      assert Bounded(ExtentsAfter(s, c, id), SizeAfter(s, c, id));
    }
    hide Apply, Valid, Bounded;
  }

  lemma WritesKeepLayouts(s: State, c: Command, times: Times)
    requires NoDangling(s) && Target(c).Some?
    ensures Apply(s, c, times).0.layouts.Keys == s.layouts.Keys
  {
    hide MergeAll, MaxEnd, Accepted, Cut, ShiftAll;
  }

  /** For an append the condition is plain: some extent was accepted before the rejected one. */
  lemma AppendOverreachesIff(s: State, c: Command)
    requires c.AppendWriteCommand? && c.inodeId in s.layouts && c.inodeId in s.inodes && Fitting(s, c)
    ensures Overreaches(s, c) <==> 0 < Accepted(c.extents) < |c.extents|
  {
    var es, size := c.extents, s.inodes[c.inodeId].size;
    if 0 < Accepted(es) {
      ShiftedStartsAt(size, es[..Accepted(es)], 0);
      assert es[..Accepted(es)][0] == es[0];
      assert Batch(s, c)[0].offset + Batch(s, c)[0].length > size;
    }
  }

  /** A fresh server with one empty file. */
  function OneFile(chunkSize: u64, now: i64): State {
    CreateNode(InitialState(chunkSize, now), ROOT, "f", File, 420, 0, 0, now).state
  }

  lemma OneFileIsValid(chunkSize: u64, now: i64)
    ensures Valid(OneFile(chunkSize, now)) && NoDangling(OneFile(chunkSize, now))
  {
    hide Valid, NoDangling, CreateNode, InitialState;
    InitialIsValid(chunkSize, now);
    assert InitialState(chunkSize, now).nextInodeId == 2 by {
      FirstFreeInode(chunkSize, now);
    }
    CreateKeepsValid(InitialState(chunkSize, now), ROOT, "f", File, 420, 0, 0, now);
    ValidHasNoDangling(OneFile(chunkSize, now));
  }

  lemma FirstFreeInode(chunkSize: u64, now: i64)
    ensures InitialState(chunkSize, now).nextInodeId == 2
  {
  }

  lemma OneFileTables(chunkSize: u64, now: i64)
    ensures OneFile(chunkSize, now).layouts.Keys == {2}
    ensures 2 in OneFile(chunkSize, now).inodes && OneFile(chunkSize, now).inodes[2].kind.File?
    ensures OneFile(chunkSize, now).nextInodeId == 3
    ensures OneFile(chunkSize, now).layouts[2].extents == [] && OneFile(chunkSize, now).inodes[2].size == 0
  {
    hide WithNode;
    assert ParentError(InitialState(chunkSize, now).inodes, ROOT, "f").None?;
    hide ParentError;
    WithNodeShape(InitialState(chunkSize, now), DentryKey(ROOT, "f"), NewInode(2, File, 420, 0, 0, now, chunkSize),
                  now);
  }

  /** A partly merged batch: the answer is an error, yet the layout has grown past the size. */
  lemma RejectedBatchBreaksSizes() returns (s: State, c: Command, times: Times)
    ensures Valid(s) && NoDangling(s) && ExtentsOk(s) && SizesOk(s) && Fitting(s, c)
    ensures Apply(s, c, times).1.ErrorReply? && !SizesOk(Apply(s, c, times).0)
  {
    hide OneFile, Valid, NoDangling, ExtentsOk, SizesOk, Apply, Rejected, Fitting, Overreaches;
    OneFileIsValid(4096, 0);
    OneFileTables(4096, 0);
    s := OneFile(4096, 0);
    EmptyFilesAreOk(s);
    times := Times(0, 0);
    c := OverreachingBatch(s);
    ApplyKeepsSizesIff(s, c, times);
    OverreachingIsRejected(s, c);
    RejectedAnswersError(s, c, times);
  }

  lemma OverreachingIsRejected(s: State, c: Command)
    requires Overreaches(s, c)
    ensures Rejected(c)
  {
  }

  lemma EmptyFilesAreOk(s: State)
    requires s.layouts.Keys <= s.inodes.Keys && forall id :: id in s.layouts ==> s.layouts[id].extents == []
    ensures ExtentsOk(s) && SizesOk(s)
  {
  }

  lemma OverreachingBatch(s: State) returns (c: Command)
    requires 2 in s.layouts && 2 in s.inodes && s.inodes[2].size == 0
    ensures Fitting(s, c) && Overreaches(s, c)
  {
    var good := FileExtent(0, 5, "k", "", "", 5, 0);
    var empty := good.(length := 0);
    c := CommitWriteCommand(2, 1, [good, empty]);
    assert Accepted([good, empty]) == 1 by {
      assert [good, empty][1..] == [empty];
      assert !Acceptable([empty][0]);
    }
    assert Batch(s, c) == [good];
    assert [good][0] == good && !Bounded([good], 0);
  }

  lemma RejectedAnswersError(s: State, c: Command, times: Times)
    requires NoDangling(s) && Rejected(c)
    ensures Apply(s, c, times).1.ErrorReply?
  {
    hide MergeAll, MaxEnd, Accepted, ShiftAll;
  }

  /** A write command that is answered with an error after its first extents were merged. */
  ghost predicate PartlyMerged(s: State, c: Command) {
    Rejected(c) && Target(c).Some? && FileError(s, Target(c).value).None? && Batch(s, c) != []
  }

  /** What a command may change when it answers with an error: nothing, or the extents of the one
      file whose batch was rejected part of the way, which then holds the accepted prefix. */
  lemma ErrorsChangeOnlyRejectedLayouts(s: State, c: Command, times: Times)
    requires NoDangling(s) && Apply(s, c, times).1.ErrorReply?
    ensures Apply(s, c, times).0 ==
            if PartlyMerged(s, c)
            then PutExtents(s, Target(c).value, MergeAll(s.layouts[Target(c).value].extents, Batch(s, c))) else s
  {
    if Rejected(c) && Target(c).Some? && FileError(s, Target(c).value).None? && Batch(s, c) == [] {
      NothingMerged(s, c);
    }
    hide MaxEnd, Cut, Leaf, Above, ParentError, MergeAll;
  }

  lemma NothingMerged(s: State, c: Command)
    requires Target(c).Some? && Target(c).value in s.layouts
    ensures var id := Target(c).value; PutExtents(s, id, MergeAll(s.layouts[id].extents, [])) == s
  {
  }

  /** The last extent a partly merged batch leaves names an object the file did not hold, as the
      objects of new writes do. */
  ghost predicate EndsInNewObject(s: State, c: Command) {
    PartlyMerged(s, c) ==>
      Batch(s, c)[|Batch(s, c)| - 1].objectKey !in Keys(s.layouts[Target(c).value].extents)
  }

  /** An error answer comes with a changed state if and only if an existing file's batch was rejected
      after its first extent. */
  lemma ErrorsChangeIff(s: State, c: Command, times: Times)
    requires NoDangling(s) && EndsInNewObject(s, c)
    ensures Apply(s, c, times).1.ErrorReply? && Apply(s, c, times).0 != s <==> PartlyMerged(s, c)
  {
    hide Apply, NoDangling, MergeAll, Keys, Accepted, ShiftAll;
    if PartlyMerged(s, c) {
      RejectedAnswersError(s, c, times);
      ErrorsChangeOnlyRejectedLayouts(s, c, times);
      var id := Target(c).value;
      BatchKeys(s.layouts[id].extents, Batch(s, c));
      assert MergeAll(s.layouts[id].extents, Batch(s, c)) != s.layouts[id].extents;
      assert Apply(s, c, times).0.layouts[id].extents != s.layouts[id].extents;
    } else if Apply(s, c, times).1.ErrorReply? {
      ErrorsChangeOnlyRejectedLayouts(s, c, times);
    }
  }

  /** For any batch, repeated objects or not: a command that is answered with an error leaves every
      file reading as before if and only if the accepted prefix, where it reads as something, reads
      as what the file held. */
  lemma ErrorsKeepReadsIff(s: State, c: Command, times: Times)
    requires NoDangling(s) && ExtentsOk(s) && Fitting(s, c) && Apply(s, c, times).1.ErrorReply?
    ensures Apply(s, c, times).0.layouts.Keys == s.layouts.Keys
    ensures (forall id, p: u64 :: id in s.layouts ==> Byte(Apply(s, c, times).0, id, p) == Byte(s, id, p)) <==>
            (PartlyMerged(s, c) ==>
               forall p: u64 :: At(Batch(s, c), p).Some? ==> At(Batch(s, c), p) == Byte(s, Target(c).value, p))
  {
    hide Apply, NoDangling, MergeAll, At, WellFormed, Rejected, Batch, Fitting, FileError;
    ErrorsChangeOnlyRejectedLayouts(s, c, times);
    BatchFits(s, c);
    if PartlyMerged(s, c) {
      HasLayout(s, Target(c).value);
      BatchReads(s, Target(c).value, Batch(s, c));
    }
  }

  lemma HasLayout(s: State, id: u64)
    requires FileError(s, id).None?
    ensures id in s.layouts
  {
  }

  lemma BatchReads(s: State, id: u64, es: seq<FileExtent>)
    requires id in s.layouts && WellFormed(s.layouts[id].extents) && AllFit(es) && NoneEmpty(es)
    ensures forall x, p: u64 :: x in s.layouts ==>
              Byte(PutExtents(s, id, MergeAll(s.layouts[id].extents, es)), x, p) ==
              if x == id && At(es, p).Some? then At(es, p) else Byte(s, x, p)
  {
    var xs := s.layouts[id].extents;
    BatchOverlays(xs, es);
    hide MergeAll, At, WellFormed;
    forall p: u64 ensures At(MergeAll(xs, es), p) == if At(es, p).Some? then At(es, p) else At(xs, p) {
      AtConcat(xs, es, p);
    }
  }

  /** On a file within its size an append touches nothing stored: every byte below the old end is
      kept, the new bytes start there, and no committed extent overlaps a stored one. */
  lemma AppendIsolation(s: State, id: u64, base: u64, es: seq<FileExtent>, times: Times, p: u64)
    requires Valid(s) && NoDangling(s) && ExtentsOk(s) && SizesOk(s) && id in s.layouts && id in s.inodes
    requires Fitting(s, AppendWriteCommand(id, base, es))
    requires AppendWrite(s, id, es, times.final).result.Ok?
    ensures var o := AppendWrite(s, id, es, times.final);
            && o.result.value.appendStart == s.inodes[id].size
            && id in o.state.layouts
            && Byte(o.state, id, p) ==
               (if p < s.inodes[id].size then Byte(s, id, p) else At(o.result.value.committed, p))
            && Apart(o.result.value.committed, s.layouts[id].extents)
  {
    hide Valid, NoDangling, At, Apart, Fitting, ExtentsOk, SizesOk, Bounded, MergeAll, ShiftAll;
    var c := AppendWriteCommand(id, base, es);
    assert es[..|es|] == es;
    WritesKeepLayouts(s, c, times);
    ApplyReads(s, c, times, id, p);
    AppendStartsAtEnd(s, id, base, es, p);
  }

  lemma AppendStartsAtEnd(s: State, id: u64, base: u64, es: seq<FileExtent>, p: u64)
    requires ExtentsOk(s) && SizesOk(s) && id in s.layouts && id in s.inodes
    requires Fitting(s, AppendWriteCommand(id, base, es))
    ensures var committed := ShiftAll(es, s.inodes[id].size);
            && (p < s.inodes[id].size ==> At(committed, p) == None)
            && (s.inodes[id].size <= p ==> Byte(s, id, p) == None)
            && Apart(committed, s.layouts[id].extents)
  {
    var size, xs, committed := s.inodes[id].size, s.layouts[id].extents, ShiftAll(es, s.inodes[id].size);
    BoundedIffHoles(xs, size);
    AtSomeIffCovered(committed, p);
    forall i | 0 <= i < |es| ensures committed[i].offset == size + es[i].offset && committed[i].length == es[i].length {
      ShiftedStartsAt(size, es, i);
    }
    hide At, ShiftAll;
  }

  // ---------- live objects ----------

  function CommandKeys(c: Command): set<string> {
    match c
    case CommitWriteCommand(_, _, es) => Keys(es)
    case AppendWriteCommand(_, _, es) => Keys(es)
    case _ => {}
  }

  lemma LiveInKeys(s: State, key: string)
    ensures Live(s, key) <==> key != "" && exists id :: id in s.layouts && key in Keys(s.layouts[id].extents)
  {
    if key != "" && exists id :: id in s.layouts && key in Keys(s.layouts[id].extents) {
      var id :| id in s.layouts && key in Keys(s.layouts[id].extents);
      var i :| 0 <= i < |s.layouts[id].extents| && s.layouts[id].extents[i].objectKey == key;
    }
  }

  /** Over any command the live objects gain only keys that command carries, so a key nobody
      commits any more can only leave. */
  lemma LiveOnlyGainsCommitted(s: State, c: Command, times: Times, key: string)
    requires Valid(s) && NoDangling(s) && Live(Apply(s, c, times).0, key)
    ensures Live(s, key) || key in CommandKeys(c)
  {
    var s' := Apply(s, c, times).0;
    ApplyContents(s, c, times);
    LiveInKeys(s', key);
    LiveInKeys(s, key);
    var id :| id in s'.layouts && key in Keys(s'.layouts[id].extents);
    ExtentsAfterKeys(s, c, id);
    hide Apply, Valid, Keys, Live, ExtentsAfter, CommandKeys;
  }

  lemma ExtentsAfterKeys(s: State, c: Command, id: u64)
    ensures Keys(ExtentsAfter(s, c, id)) <=
            (if id in s.layouts then Keys(s.layouts[id].extents) else {}) + CommandKeys(c)
  {
    if id in s.layouts {
      CutKeys(s.layouts[id].extents, if c.TruncateCommand? then c.size else 0);
      BatchKeys(s.layouts[id].extents, Batch(s, c));
      BatchCarriesCommandKeys(s, c);
    }
    hide CommandKeys;
  }

  lemma BatchCarriesCommandKeys(s: State, c: Command)
    ensures Keys(Batch(s, c)) <= CommandKeys(c)
  {
    match c {
      case CommitWriteCommand(_, _, es) =>
        assert forall i :: 0 <= i < |Batch(s, c)| ==> Batch(s, c)[i] == es[i];
      case AppendWriteCommand(id, _, es) =>
        if id in s.inodes {
          ShiftedKeys(es[..Accepted(es)], s.inodes[id].size);
          assert forall i :: 0 <= i < Accepted(es) ==> es[..Accepted(es)][i] == es[i];
        }
      case _ =>
    }
  }
}
