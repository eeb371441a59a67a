/** The commands of MetaState as functions of the whole state (src/meta_state.cc:81-475 and
    546-702). The class in MetaState.dfy is proved to compute them; the theorems are about them. */
module MetaSpec {
  import opened Types
  import opened Extents
  import opened Text
  import opened Namespace
  import opened Ancestry

  // ---------- names and lookups ----------

  predicate ValidName(name: string) {
    name != "" && name != "." && name != ".." && '/' !in name && '\0' !in name
  }

  function PathFor(parent: u64, name: string): string {
    Decimal(parent) + "/" + name
  }

  /** ValidateParent: None when the name may be used in the directory. */
  function ParentError(inodes: map<u64, InodeAttrs>, parent: u64, name: string): Option<Error> {
    if !ValidName(name) then Some(InvalidArgument)
    else if parent !in inodes then Some(NotFound(Decimal(parent)))
    else if !inodes[parent].kind.Directory? then Some(NotDirectory(Decimal(parent)))
    else None
  }

  /** ValidateRegularFile followed by the layout lookup of the write commands. */
  function FileError(s: State, id: u64): Option<Error> {
    if id !in s.inodes then Some(NotFound(Decimal(id)))
    else if !s.inodes[id].kind.File? then Some(InvalidArgument)
    else if id !in s.layouts then Some(NotFound(Decimal(id)))
    else None
  }

  /** Every entry joins existing inodes, so that no inodes_.at throws. */
  ghost predicate NoDangling(s: State) {
    forall k :: k in s.dentries ==> k.parent in s.inodes && s.dentries[k] in s.inodes
  }

  // ---------- updates of one inode ----------

  /** Overwrite the attributes of an inode. */
  function PutInode(s: State, id: u64, attrs: InodeAttrs): State {
    s.(inodes := s.inodes[id := attrs])
  }

  /** Overwrite the attributes of an inode and the copy in its layout, if it has one. */
  function PutBoth(s: State, id: u64, attrs: InodeAttrs): State {
    s.(inodes := s.inodes[id := attrs],
       layouts := if id in s.layouts then s.layouts[id := s.layouts[id].(attrs := attrs)] else s.layouts)
  }

  function Stamped(attrs: InodeAttrs, now: i64): InodeAttrs {
    attrs.(mtimeNs := now, ctimeNs := now, version := Add64(attrs.version, 1))
  }

  function Touch(s: State, id: u64, now: i64): State
    requires id in s.inodes
  {
    PutBoth(s, id, Stamped(s.inodes[id], now))
  }

  function AddLinks(s: State, id: u64, delta: int): State
    requires id in s.inodes && (delta == 1 || delta == -1)
  {
    var attrs := s.inodes[id];
    PutInode(s, id, attrs.(nlink := if delta == 1 then Add64(attrs.nlink, 1) else Sub64(attrs.nlink, 1)))
  }

  // ---------- namespace commands ----------

  function NewInode(id: u64, kind: InodeType, mode: u32, uid: u32, gid: u32, now: i64, chunkSize: u64): InodeAttrs {
    InodeAttrs(id, kind, mode, uid, gid, 0, if kind.Directory? then 2 else 1, 1, now, now, now,
               if kind.File? then chunkSize else 0)
  }

  /** The parent of a new node: stamped, and with one link more if the node is a directory. */
  function ParentUpdated(s: State, key: DentryKey, kind: InodeType, now: i64): State
    requires key.parent in s.inodes
  {
    var s1 := PutInode(s, key.parent, Stamped(s.inodes[key.parent], now));
    if kind.Directory? then AddLinks(s1, key.parent, 1) else s1
  }

  /** The new node's entries in the tables, next to an updated parent. */
  function Entered(s: State, t: State, key: DentryKey, attrs: InodeAttrs): State {
    t.(nextInodeId := Add64(s.nextInodeId, 1),
       dentries := s.dentries[key := attrs.inodeId],
       inodes := if attrs.inodeId in t.inodes then t.inodes else t.inodes[attrs.inodeId := attrs],
       layouts := if attrs.kind.File? && attrs.inodeId !in s.layouts
                  then s.layouts[attrs.inodeId := FileLayout(attrs, s.defaultChunkSize, [])] else s.layouts)
  }

  /** The state after a node is created under a free name. */
  function WithNode(s: State, key: DentryKey, attrs: InodeAttrs, now: i64): State
    requires key.parent in s.inodes
  {
    Entered(s, ParentUpdated(s, key, attrs.kind, now), key, attrs)
  }

  function CreateNode(
      s: State, parent: u64, name: string, kind: InodeType, mode: u32, uid: u32, gid: u32, now: i64)
      : Outcome<InodeAttrs>
  {
    var bad := ParentError(s.inodes, parent, name);
    var key := DentryKey(parent, name);
    if bad.Some? then Outcome(s, Err(bad.value))
    else if key in s.dentries then Outcome(s, Err(AlreadyExists(PathFor(parent, name))))
    else
      var attrs := NewInode(s.nextInodeId, kind, mode, uid, gid, now, s.defaultChunkSize);
      Outcome(WithNode(s, key, attrs, now), Ok(attrs))
  }

  /** RemoveNode. */
  function WithoutNode(s: State, key: DentryKey, now: i64): (r: State)
    requires key in s.dentries && s.dentries[key] in s.inodes
    requires key.parent in s.inodes && key.parent != s.dentries[key]
    ensures r.dentries == s.dentries - {key} && r.inodes.Keys == s.inodes.Keys - {s.dentries[key]}
    ensures r.nextInodeId == s.nextInodeId && r.defaultChunkSize == s.defaultChunkSize
  {
    var id := s.dentries[key];
    var s1 := s.(dentries := s.dentries - {key}, layouts := s.layouts - {id}, inodes := s.inodes - {id});
    var s2 := Touch(s1, key.parent, now);
    if s.inodes[id].kind.Directory? then AddLinks(s2, key.parent, -1) else s2
  }

  ghost function Unlink(s: State, parent: u64, name: string, now: i64): Outcome<InodeAttrs>
    requires NoDangling(s)
  {
    var bad := ParentError(s.inodes, parent, name);
    var key := DentryKey(parent, name);
    if bad.Some? then Outcome(s, Err(bad.value))
    else if key !in s.dentries then Outcome(s, Err(NotFound(PathFor(parent, name))))
    else if s.inodes[s.dentries[key]].kind.Directory? then Outcome(s, Err(IsDirectory(PathFor(parent, name))))
    else
      var s' := WithoutNode(s, key, now);
      Outcome(s', Ok(s'.inodes[parent]))
  }

  ghost function Rmdir(s: State, parent: u64, name: string, now: i64): Outcome<InodeAttrs>
    requires NoDangling(s)
  {
    var bad := ParentError(s.inodes, parent, name);
    var key := DentryKey(parent, name);
    if bad.Some? then Outcome(s, Err(bad.value))
    else if key !in s.dentries then Outcome(s, Err(NotFound(PathFor(parent, name))))
    else if !s.inodes[s.dentries[key]].kind.Directory? then Outcome(s, Err(NotDirectory(PathFor(parent, name))))
    else if !Leaf(s.dentries, s.dentries[key]) then Outcome(s, Err(DirectoryNotEmpty(PathFor(parent, name))))
    else
      assert key.parent != s.dentries[key];
      var s' := WithoutNode(s, key, now);
      Outcome(s', Ok(s'.inodes[parent]))
  }

  /** The link-count and time bookkeeping of a rename whose target name is free. */
  function Relinked(s: State, oldKey: DentryKey, newKey: DentryKey, now: i64): (r: State)
    requires oldKey in s.dentries && s.dentries[oldKey] in s.inodes
    requires oldKey.parent in s.inodes && newKey.parent in s.inodes
    ensures r.dentries == Moved(s.dentries, oldKey, newKey) && r.inodes.Keys == s.inodes.Keys
    ensures r.nextInodeId == s.nextInodeId && r.defaultChunkSize == s.defaultChunkSize
  {
    var id := s.dentries[oldKey];
    var s1 := Touch(s.(dentries := Moved(s.dentries, oldKey, newKey)), oldKey.parent, now);
    var s2 := if oldKey.parent == newKey.parent then s1 else
              var t := Touch(s1, newKey.parent, now);
              if t.inodes[id].kind.Directory?
              then AddLinks(AddLinks(t, oldKey.parent, -1), newKey.parent, 1) else t;
    PutBoth(s2, id, s2.inodes[id].(ctimeNs := now, version := Add64(s2.inodes[id].version, 1)))
  }

  /** What forbids replacing the target entry of a rename. */
  ghost function ReplaceError(s: State, moved: u64, newKey: DentryKey): Option<Error>
    requires newKey in s.dentries && s.dentries[newKey] in s.inodes && moved in s.inodes
  {
    var target := s.dentries[newKey];
    var path := PathFor(newKey.parent, newKey.name);
    if s.inodes[moved].kind.Directory? && !s.inodes[target].kind.Directory? then Some(NotDirectory(path))
    else if !s.inodes[moved].kind.Directory? && s.inodes[target].kind.Directory? then Some(IsDirectory(path))
    else if s.inodes[target].kind.Directory? && !Leaf(s.dentries, target) then Some(DirectoryNotEmpty(path))
    else None
  }

  ghost function Rename(s: State, oldKey: DentryKey, newKey: DentryKey, times: Times): Outcome<InodeAttrs>
    requires NoDangling(s)
  {
    var badOld := ParentError(s.inodes, oldKey.parent, oldKey.name);
    var badNew := ParentError(s.inodes, newKey.parent, newKey.name);
    if badOld.Some? then Outcome(s, Err(badOld.value))
    else if badNew.Some? then Outcome(s, Err(badNew.value))
    else if oldKey !in s.dentries then Outcome(s, Err(NotFound(PathFor(oldKey.parent, oldKey.name))))
    else
      var moved := s.dentries[oldKey];
      if s.inodes[moved].kind.Directory? && Above(s.dentries, moved, newKey.parent) then
        Outcome(s, Err(InvalidArgument))
      else if newKey !in s.dentries then
        var s' := Relinked(s, oldKey, newKey, times.final);
        Outcome(s', Ok(s'.inodes[moved]))
      else if s.dentries[newKey] == moved then Outcome(s, Ok(s.inodes[moved]))
      else if ReplaceError(s, moved, newKey).Some? then
        Outcome(s, Err(ReplaceError(s, moved, newKey).value))
      else
        var s1 := WithoutNode(s, newKey, times.removal);
        var s' := Relinked(s1, oldKey, newKey, times.final);
        Outcome(s', Ok(s'.inodes[moved]))
  }

  /** The ancestor walk of a rename, if it comes to that, ends. */
  ghost predicate RenameWalkEnds(s: State, oldKey: DentryKey, newKey: DentryKey) {
    ParentError(s.inodes, oldKey.parent, oldKey.name).None? &&
    ParentError(s.inodes, newKey.parent, newKey.name).None? &&
    oldKey in s.dentries && s.dentries[oldKey] in s.inodes && s.inodes[s.dentries[oldKey]].kind.Directory? ==>
      WalkEnds(s.dentries, s.dentries[oldKey], newKey.parent)
  }

  /** The same for any command. */
  ghost predicate CommandWalkEnds(s: State, c: Command) {
    c.RenameCommand? ==> RenameWalkEnds(s, DentryKey(c.parent, c.name), DentryKey(c.newParent, c.newName))
  }

  // ---------- attributes ----------

  /** SetAttr's overwrites: never the id, the type, the size, the links or the version. */
  function WithArgs(attrs: InodeAttrs, args: SetAttrArgs): (r: InodeAttrs)
    ensures r.inodeId == attrs.inodeId && r.kind == attrs.kind && r.size == attrs.size
    ensures r.nlink == attrs.nlink && r.version == attrs.version && r.chunkSize == attrs.chunkSize
  {
    attrs.(
      mode := if args.mode.Some? then args.mode.value else attrs.mode,
      uid := if args.uid.Some? then args.uid.value else attrs.uid,
      gid := if args.gid.Some? then args.gid.value else attrs.gid,
      atimeNs := if args.atimeNs.Some? then args.atimeNs.value else attrs.atimeNs,
      mtimeNs := if args.mtimeNs.Some? then args.mtimeNs.value else attrs.mtimeNs)
  }

  function SetAttr(s: State, id: u64, args: SetAttrArgs, now: i64): Outcome<InodeAttrs> {
    if id !in s.inodes then Outcome(s, Err(NotFound(Decimal(id))))
    else
      var attrs := WithArgs(s.inodes[id], args).(ctimeNs := now, version := Add64(s.inodes[id].version, 1));
      Outcome(PutBoth(s, id, attrs), Ok(attrs))
  }

  // ---------- file contents ----------

  predicate Acceptable(e: FileExtent) {
    e.length != 0 && e.objectKey != ""
  }

  /** How many leading extents of a batch are merged before an unacceptable one stops it. */
  function Accepted(es: seq<FileExtent>): (n: nat)
    ensures n <= |es|
    ensures forall i :: 0 <= i < n ==> Acceptable(es[i])
    ensures n < |es| ==> !Acceptable(es[n])
  {
    if es == [] || !Acceptable(es[0]) then 0 else 1 + Accepted(es[1..])
  }

  /** How far a batch is accepted. */
  lemma AcceptedIs(es: seq<FileExtent>, n: nat)
    requires n <= |es| && (forall i :: 0 <= i < n ==> Acceptable(es[i]))
    requires n < |es| ==> !Acceptable(es[n])
    ensures Accepted(es) == n
  {
    var a := Accepted(es);
    assert a < |es| ==> !Acceptable(es[a]);
    assert n < |es| ==> !Acceptable(es[n]);
  }

  /** Store a new extent list for a file. */
  function PutExtents(s: State, id: u64, extents: seq<FileExtent>): State
    requires id in s.layouts
  {
    s.(layouts := s.layouts[id := s.layouts[id].(extents := extents)])
  }

  function Resized(s: State, id: u64, size: u64, now: i64): State
    requires id in s.inodes
  {
    PutBoth(s, id, Stamped(s.inodes[id], now).(size := size))
  }

  /** A rejected batch leaves its accepted prefix merged, without a new size or version. */
  function CommitWrite(s: State, id: u64, es: seq<FileExtent>, now: i64): Outcome<InodeAttrs> {
    var bad := FileError(s, id);
    if bad.Some? then Outcome(s, Err(bad.value))
    else
      var s1 := PutExtents(s, id, MergeAll(s.layouts[id].extents, es[..Accepted(es)]));
      if Accepted(es) < |es| then Outcome(s1, Err(InvalidArgument))
      else
        var s2 := Resized(s1, id, MaxEnd(s.inodes[id].size, es), now);
        Outcome(s2, Ok(s2.inodes[id]))
  }

  function AppendWrite(s: State, id: u64, es: seq<FileExtent>, now: i64): Outcome<AppendResult> {
    var bad := FileError(s, id);
    if bad.Some? then Outcome(s, Err(bad.value))
    else
      var start := s.inodes[id].size;
      var committed := ShiftAll(es[..Accepted(es)], start);
      var s1 := PutExtents(s, id, MergeAll(s.layouts[id].extents, committed));
      if Accepted(es) < |es| then Outcome(s1, Err(InvalidArgument))
      else
        var s2 := Resized(s1, id, Add64(start, MaxEnd(0, es)), now);
        Outcome(s2, Ok(AppendResult(s2.inodes[id], start, committed)))
  }

  function Truncate(s: State, id: u64, size: u64, now: i64): Outcome<InodeAttrs> {
    var bad := FileError(s, id);
    if bad.Some? then Outcome(s, Err(bad.value))
    else
      var s1 := Resized(PutExtents(s, id, Cut(s.layouts[id].extents, size)), id, size, now);
      Outcome(s1, Ok(s1.inodes[id]))
  }

  // ---------- queries ----------

  /** The layout the server hands out: the stored one with the inode's attributes. */
  function GetLayout(s: State, id: u64): Result<FileLayout> {
    var bad := FileError(s, id);
    if bad.Some? then Err(bad.value) else Ok(s.layouts[id].(attrs := s.inodes[id]))
  }

  /** The object keys some stored extent refers to. */
  ghost predicate Live(s: State, key: string) {
    key != "" && exists id, i :: id in s.layouts && 0 <= i < |s.layouts[id].extents| &&
                                 s.layouts[id].extents[i].objectKey == key
  }

  // ---------- dispatch ----------

  function Respond(o: Outcome<InodeAttrs>): (State, Response) {
    (o.state, match o.result case Ok(attrs) => AttrsReply(attrs) case Err(e) => ErrorReply(e))
  }

  function RespondAppend(o: Outcome<AppendResult>): (State, Response) {
    (o.state, match o.result case Ok(a) => AppendReply(a) case Err(e) => ErrorReply(e))
  }

  /** MetaService::Apply on a parsed command. */
  ghost function Apply(s: State, c: Command, times: Times): (State, Response)
    requires NoDangling(s)
  {
    match c
    case MkdirCommand(parent, name, mode, uid, gid) =>
      Respond(CreateNode(s, parent, name, Directory, mode, uid, gid, times.final))
    case CreateFileCommand(parent, name, mode, uid, gid) =>
      Respond(CreateNode(s, parent, name, File, mode, uid, gid, times.final))
    case SetAttrCommand(id, args) => Respond(SetAttr(s, id, args, times.final))
    case CommitWriteCommand(id, _, es) => Respond(CommitWrite(s, id, es, times.final))
    case AppendWriteCommand(id, _, es) => RespondAppend(AppendWrite(s, id, es, times.final))
    case TruncateCommand(id, size) => Respond(Truncate(s, id, size, times.final))
    case UnlinkCommand(parent, name) => Respond(Unlink(s, parent, name, times.removal))
    case RmdirCommand(parent, name) => Respond(Rmdir(s, parent, name, times.removal))
    case RenameCommand(op, on, np, nn) => Respond(Rename(s, DentryKey(op, on), DentryKey(np, nn), times))
    case CommandNotSet => (s, ErrorReply(InvalidArgument))
  }

  /** The state of a freshly constructed MetaState. */
  function InitialState(chunkSize: u64, now: i64): State {
    State(ROOT + 1, chunkSize,
          map[ROOT := InodeAttrs(ROOT, Directory, 493, 0, 0, 0, 2, 1, now, now, now, 0)], map[], map[])
  }
}
