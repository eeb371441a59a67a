/** When each command succeeds, and what it answers when and when not
    (src/meta_service.cc:435-524, src/meta_state.cc:81-475 and 546-642). */
module Answers {
  import opened Types
  import opened Text
  import opened Extents
  import opened Namespace
  import opened Ancestry
  import opened MetaSpec
  import opened MetaInvariant

  /** A valid name in an existing directory. */
  predicate NamesPlace(s: State, parent: u64, name: string) {
    ValidName(name) && parent in s.inodes && s.inodes[parent].kind.Directory?
  }

  /** The answer says what is wrong with a place that is none: first the name, then the directory. */
  predicate RefusesPlace(s: State, parent: u64, name: string, r: Response) {
    && (!ValidName(name) ==> r == ErrorReply(InvalidArgument))
    && (ValidName(name) && parent !in s.inodes ==> r == ErrorReply(NotFound(Decimal(parent))))
    && (ValidName(name) && parent in s.inodes ==> r == ErrorReply(NotDirectory(Decimal(parent))))
  }

  /** The directory holds no entry. */
  ghost predicate HoldsNothing(s: State, id: u64) {
    forall k :: k in s.dentries ==> k.parent != id
  }

  // ---------- creating ----------

  /** A creation succeeds if and only if its name is a free one in an existing directory. */
  lemma CreateIff(s: State, c: Command, times: Times)
    requires NoDangling(s) && (c.MkdirCommand? || c.CreateFileCommand?)
    ensures var r, key := Apply(s, c, times).1, DentryKey(c.parent, c.name);
            && (r.AttrsReply? <==> NamesPlace(s, c.parent, c.name) && key !in s.dentries)
            && (!NamesPlace(s, c.parent, c.name) ==> RefusesPlace(s, c.parent, c.name, r))
            && (NamesPlace(s, c.parent, c.name) && key in s.dentries ==>
                  r == ErrorReply(AlreadyExists(PathFor(c.parent, c.name))))
  {
    hide NoDangling, ValidName, WithNode, NewInode, PathFor, Decimal;
  }

  /** What a creation makes: the next number, the kind asked for, the mode and owners of the command,
      no bytes, version 1, one time, and for a file an empty layout with the default chunk size. */
  predicate IsNewNode(s: State, c: Command, now: i64, a: InodeAttrs)
    requires c.MkdirCommand? || c.CreateFileCommand?
  {
    && a.inodeId == s.nextInodeId
    && a.kind == (if c.MkdirCommand? then Directory else File)
    && a.mode == c.mode && a.uid == c.uid && a.gid == c.gid
    && a.size == 0 && a.version == 1 && a.nlink == (if c.MkdirCommand? then 2 else 1)
    && a.atimeNs == a.mtimeNs == a.ctimeNs == now
    && a.chunkSize == (if c.MkdirCommand? then 0 else s.defaultChunkSize)
  }

  lemma CreationMakes(s: State, c: Command, times: Times)
    requires NoDangling(s) && (c.MkdirCommand? || c.CreateFileCommand?) && Apply(s, c, times).1.AttrsReply?
    ensures var s', a, id := Apply(s, c, times).0, Apply(s, c, times).1.attrs, s.nextInodeId;
            && IsNewNode(s, c, times.final, a)
            && DentryKey(c.parent, c.name) in s'.dentries && s'.dentries[DentryKey(c.parent, c.name)] == id
            && id in s'.inodes
            && (id !in s.inodes ==> s'.inodes[id] == a)
            && (id !in s.inodes && id !in s.layouts ==>
                  if c.MkdirCommand? then id !in s'.layouts
                  else id in s'.layouts && s'.layouts[id] == FileLayout(a, s.defaultChunkSize, []))
            && (id in s.inodes && id != c.parent ==> s'.inodes[id] == s.inodes[id])
            && s'.nextInodeId == Add64(id, 1)
  {
    hide NoDangling, ValidName, PathFor, Decimal;
  }

  // ---------- removing ----------

  /** Unlink removes what is no directory, rmdir an empty directory; everything else is refused. */
  lemma RemovalIff(s: State, c: Command, times: Times)
    requires NoDangling(s) && (c.UnlinkCommand? || c.RmdirCommand?)
    ensures var r, key, path := Apply(s, c, times).1, DentryKey(c.parent, c.name), PathFor(c.parent, c.name);
            && (r.AttrsReply? <==>
                  && NamesPlace(s, c.parent, c.name) && key in s.dentries
                  && (if c.UnlinkCommand? then !s.inodes[s.dentries[key]].kind.Directory?
                      else s.inodes[s.dentries[key]].kind.Directory? && HoldsNothing(s, s.dentries[key])))
            && (!NamesPlace(s, c.parent, c.name) ==> RefusesPlace(s, c.parent, c.name, r))
            && (NamesPlace(s, c.parent, c.name) && key !in s.dentries ==> r == ErrorReply(NotFound(path)))
            && (NamesPlace(s, c.parent, c.name) && key in s.dentries ==>
                  var directory := s.inodes[s.dentries[key]].kind.Directory?;
                  && (c.UnlinkCommand? && directory ==> r == ErrorReply(IsDirectory(path)))
                  && (c.RmdirCommand? && !directory ==> r == ErrorReply(NotDirectory(path)))
                  && (c.RmdirCommand? && directory && !HoldsNothing(s, s.dentries[key]) ==>
                        r == ErrorReply(DirectoryNotEmpty(path))))
  {
    hide ValidName, WithoutNode, PathFor, Decimal;
  }

  /** What is removed is gone from every table. */
  lemma RemovalRemoves(s: State, c: Command, times: Times)
    requires NoDangling(s) && (c.UnlinkCommand? || c.RmdirCommand?) && Apply(s, c, times).1.AttrsReply?
    ensures var s', key := Apply(s, c, times).0, DentryKey(c.parent, c.name);
            && key in s.dentries && s'.dentries == s.dentries - {key}
            && s'.inodes.Keys == s.inodes.Keys - {s.dentries[key]}
            && s.dentries[key] !in s'.layouts
  {
    RemovalIff(s, c, times);
    RemovedLayouts(s, DentryKey(c.parent, c.name), times.removal);
    hide ValidName, WithoutNode, PathFor, Decimal, Leaf;
  }

  lemma RemovedLayouts(s: State, key: DentryKey, now: i64)
    ensures (key in s.dentries && s.dentries[key] in s.inodes && key.parent in s.inodes &&
             key.parent != s.dentries[key]) ==> s.dentries[key] !in WithoutNode(s, key, now).layouts
  {
  }

  // ---------- renaming ----------

  /** The target name is free, leads to the moved inode, or to one of its kind, which
      if a directory holds nothing. */
  ghost predicate Replaceable(s: State, moved: u64, newKey: DentryKey)
    requires NoDangling(s) && moved in s.inodes
  {
    newKey !in s.dentries || s.dentries[newKey] == moved ||
    (s.inodes[s.dentries[newKey]].kind.Directory? == s.inodes[moved].kind.Directory? &&
     (s.inodes[moved].kind.Directory? ==> HoldsNothing(s, s.dentries[newKey])))
  }

  /** A rename succeeds if and only if both names are valid ones in existing directories, the source
      entry exists, a moved directory does not hold the new parent, and the target is replaceable. */
  lemma RenameIff(s: State, c: Command, times: Times)
    requires Valid(s) && NoDangling(s) && c.RenameCommand?
    ensures var r := Apply(s, c, times).1;
            var oldKey, newKey := DentryKey(c.parent, c.name), DentryKey(c.newParent, c.newName);
            r.AttrsReply? <==>
              && NamesPlace(s, c.parent, c.name) && NamesPlace(s, c.newParent, c.newName) && oldKey in s.dentries
              && (s.inodes[s.dentries[oldKey]].kind.Directory? ==>
                    !Reaches(s.dentries, s.dentries[oldKey], c.newParent))
              && Replaceable(s, s.dentries[oldKey], newKey)
  {
    hide Valid, Apply, ValidName, Above, Reaches, Replaceable;
    RenameIffOnTables(s, c, times);
    NoDoubleEntries(s);
    var oldKey := DentryKey(c.parent, c.name);
    if oldKey in s.dentries {
      AboveIsReaches(s.dentries, s.dentries[oldKey], c.newParent);
    }
  }

  /** On any tables, tree or not, what counts is whether climbing from the new parent meets the moved
      directory; and a successful rename onto another entry of the moved inode changes nothing. */
  lemma RenameIffOnTables(s: State, c: Command, times: Times)
    requires NoDangling(s) && c.RenameCommand?
    ensures var r := Apply(s, c, times).1;
            var oldKey, newKey := DentryKey(c.parent, c.name), DentryKey(c.newParent, c.newName);
            && (r.AttrsReply? <==>
                  && NamesPlace(s, c.parent, c.name) && NamesPlace(s, c.newParent, c.newName) && oldKey in s.dentries
                  && (s.inodes[s.dentries[oldKey]].kind.Directory? ==>
                        !Above(s.dentries, s.dentries[oldKey], c.newParent))
                  && Replaceable(s, s.dentries[oldKey], newKey))
            && (r.AttrsReply? && newKey in s.dentries && s.dentries[newKey] == s.dentries[oldKey] ==>
                  Apply(s, c, times).0 == s)
  {
    hide ValidName, WithoutNode, Relinked, PathFor, Decimal, Above;
  }

  lemma NoDoubleEntries(s: State)
    requires Valid(s)
    ensures Injective(s.dentries)
  {
  }

  /** Which refusal a rename answers, in the order of its checks. */
  lemma RenameRefusals(s: State, c: Command, times: Times)
    requires Valid(s) && NoDangling(s) && c.RenameCommand?
    ensures var r := Apply(s, c, times).1;
            var oldKey, newKey := DentryKey(c.parent, c.name), DentryKey(c.newParent, c.newName);
            var path := PathFor(c.newParent, c.newName);
            if !NamesPlace(s, c.parent, c.name) then RefusesPlace(s, c.parent, c.name, r)
            else if !NamesPlace(s, c.newParent, c.newName) then RefusesPlace(s, c.newParent, c.newName, r)
            else if oldKey !in s.dentries then r == ErrorReply(NotFound(PathFor(c.parent, c.name)))
            else
              var moved := s.dentries[oldKey];
              var directory := s.inodes[moved].kind.Directory?;
              if directory && Reaches(s.dentries, moved, c.newParent) then r == ErrorReply(InvalidArgument)
              else newKey in s.dentries && s.dentries[newKey] != moved ==>
                var target := s.dentries[newKey];
                && (directory && !s.inodes[target].kind.Directory? ==> r == ErrorReply(NotDirectory(path)))
                && (!directory && s.inodes[target].kind.Directory? ==> r == ErrorReply(IsDirectory(path)))
                && (directory && s.inodes[target].kind.Directory? && !HoldsNothing(s, target) ==>
                      r == ErrorReply(DirectoryNotEmpty(path)))
  {
    hide Valid, ValidName, WithoutNode, Relinked, PathFor, Decimal, Above, Reaches;
    NoDoubleEntries(s);
    if DentryKey(c.parent, c.name) in s.dentries {
      AboveIsReaches(s.dentries, s.dentries[DentryKey(c.parent, c.name)], c.newParent);
    }
  }

  // ---------- files and attributes ----------

  predicate IsFile(s: State, id: u64) {
    id in s.inodes && s.inodes[id].kind.File? && id in s.layouts
  }

  /** Why a number names no file with a layout. */
  predicate RefusesFile(s: State, id: u64, r: Response) {
    && (id !in s.inodes ==> r == ErrorReply(NotFound(Decimal(id))))
    && (id in s.inodes && !s.inodes[id].kind.File? ==> r == ErrorReply(InvalidArgument))
    && (id in s.inodes && s.inodes[id].kind.File? ==> r == ErrorReply(NotFound(Decimal(id))))
  }

  predicate AllGood(es: seq<FileExtent>) {
    forall i :: 0 <= i < |es| ==> es[i].length != 0 && es[i].objectKey != ""
  }

  lemma GoodIsAccepted(es: seq<FileExtent>)
    ensures Accepted(es) == |es| <==> AllGood(es)
  {
    if AllGood(es) {
      AcceptedIs(es, |es|);
    }
    hide Accepted;
    assert Accepted(es) < |es| ==> !Acceptable(es[Accepted(es)]);
  }

  /** A commit succeeds if and only if it addresses a file and every extent has bytes and a key. */
  lemma CommitIff(s: State, c: Command, times: Times)
    requires NoDangling(s) && c.CommitWriteCommand?
    ensures var r := Apply(s, c, times).1;
            && (r.AttrsReply? <==> IsFile(s, c.inodeId) && AllGood(c.extents))
            && (!IsFile(s, c.inodeId) ==> RefusesFile(s, c.inodeId, r))
            && (IsFile(s, c.inodeId) && !AllGood(c.extents) ==> r == ErrorReply(InvalidArgument))
  {
    hide NoDangling, MergeAll, MaxEnd, Accepted, AllGood, Decimal;
    GoodIsAccepted(c.extents);
  }

  /** The same for an append, which answers where it starts and what it stored: the extents in order,
      each behind the old end. */
  lemma AppendIff(s: State, c: Command, times: Times)
    requires NoDangling(s) && c.AppendWriteCommand?
    ensures var r := Apply(s, c, times).1;
            && (r.AppendReply? <==> IsFile(s, c.inodeId) && AllGood(c.extents))
            && (!IsFile(s, c.inodeId) ==> RefusesFile(s, c.inodeId, r))
            && (IsFile(s, c.inodeId) && !AllGood(c.extents) ==> r == ErrorReply(InvalidArgument))
            && (r.AppendReply? ==>
                  var start := s.inodes[c.inodeId].size;
                  && r.append.appendStart == start && |r.append.committed| == |c.extents|
                  && forall i :: 0 <= i < |c.extents| ==>
                       r.append.committed[i] ==
                       c.extents[i].(offset := (start + c.extents[i].offset) % TWO_64))
  {
    hide NoDangling, MergeAll, MaxEnd, Accepted, AllGood, Decimal;
    GoodIsAccepted(c.extents);
    assert c.extents[..|c.extents|] == c.extents;
    hide ShiftAll;
  }

  lemma TruncateIff(s: State, c: Command, times: Times)
    requires NoDangling(s) && c.TruncateCommand?
    ensures var r := Apply(s, c, times).1;
            (r.AttrsReply? <==> IsFile(s, c.inodeId)) &&
            (!IsFile(s, c.inodeId) ==> RefusesFile(s, c.inodeId, r))
  {
    hide NoDangling, Cut, Decimal;
  }

  lemma SetAttrIff(s: State, c: Command, times: Times)
    requires NoDangling(s) && c.SetAttrCommand?
    ensures var r := Apply(s, c, times).1;
            (r.AttrsReply? <==> c.inodeId in s.inodes) &&
            (c.inodeId !in s.inodes ==> r == ErrorReply(NotFound(Decimal(c.inodeId))))
  {
    hide NoDangling, Decimal;
  }

  /** The layout of every file is handed out with the inode's own attributes, and no other; on a valid
      server that is the layout as it is stored. */
  lemma GetLayoutIff(s: State, id: u64)
    ensures IsFile(s, id) ==>
              var l := GetLayout(s, id);
              l.Ok? && l.value.attrs == s.inodes[id] &&
              l.value.extents == s.layouts[id].extents && l.value.chunkSize == s.layouts[id].chunkSize
    ensures !IsFile(s, id) ==>
              GetLayout(s, id) ==
              Err(if id in s.inodes && !s.inodes[id].kind.File? then InvalidArgument else NotFound(Decimal(id)))
    ensures Valid(s) && id in s.inodes && s.inodes[id].kind.File? ==> GetLayout(s, id) == Ok(s.layouts[id])
  {
    hide Tree, Numbered, Linked, Decimal;
  }

  // ---------- what is answered ----------

  /** The inode a command is about: the new one, the file, the directory of a removed entry, or the
      moved one. */
  function Addressed(s: State, c: Command): u64 {
    match c
    case MkdirCommand(_, _, _, _, _) => s.nextInodeId
    case CreateFileCommand(_, _, _, _, _) => s.nextInodeId
    case SetAttrCommand(id, _) => id
    case CommitWriteCommand(id, _, _) => id
    case AppendWriteCommand(id, _, _) => id
    case TruncateCommand(id, _) => id
    case UnlinkCommand(parent, _) => parent
    case RmdirCommand(parent, _) => parent
    case RenameCommand(parent, name, _, _) =>
      if DentryKey(parent, name) in s.dentries then s.dentries[DentryKey(parent, name)] else parent
    case CommandNotSet => ROOT
  }

  /** The attributes in an answer. */
  function AttrsIn(r: Response): Option<InodeAttrs> {
    match r
    case AttrsReply(a) => Some(a)
    case AppendReply(append) => Some(append.attrs)
    case ErrorReply(_) => None
  }

  /** Every answer is an error or the attributes that the state left behind stores for the inode the
      command is about. */
  lemma AnswerIsStored(s: State, c: Command, times: Times)
    requires NoDangling(s) && s.nextInodeId !in s.inodes
    ensures var s', a := Apply(s, c, times).0, AttrsIn(Apply(s, c, times).1);
            a.Some? ==> Addressed(s, c) in s'.inodes && s'.inodes[Addressed(s, c)] == a.value
  {
    if c.MkdirCommand? || c.CreateFileCommand? {
      if Apply(s, c, times).1.AttrsReply? {
        CreationMakes(s, c, times);
      }
      hide CreateNode;
    } else if c.RenameCommand? {
      RenameAnswerIsStored(s, c, times);
    } else {
      hide WithoutNode, MergeAll, MaxEnd, ShiftAll, Accepted, Cut, WithArgs, Leaf, ValidName, Decimal;
    }
  }

  lemma RenameAnswerIsStored(s: State, c: Command, times: Times)
    requires NoDangling(s) && c.RenameCommand?
    ensures var s', r := Apply(s, c, times).0, Apply(s, c, times).1;
            r.AttrsReply? ==> Addressed(s, c) in s'.inodes && s'.inodes[Addressed(s, c)] == r.attrs
  {
    hide WithoutNode, Relinked, Above, Leaf, ParentError, PathFor;
  }

  /** A log entry without a command is refused and changes nothing. */
  lemma NoCommand(s: State, times: Times)
    requires NoDangling(s)
    ensures Apply(s, CommandNotSet, times) == (s, ErrorReply(InvalidArgument))
  {
  }
}
