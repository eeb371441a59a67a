/** Everything a command changes: which entries, which inodes, which of their attributes and times,
    and which counters (src/meta_service.cc:435-524, src/meta_state.cc:81-475 and 580-702). */
module Effects {
  import opened Types
  import opened Extents
  import opened Namespace
  import opened Ancestry
  import opened MetaSpec
  import opened MetaInvariant
  import opened MetaFiles
  import opened RunFiles
  import opened Answers

  // ---------- entries, numbers and counters ----------

  /** A successful rename that is not one of an entry onto itself. */
  predicate MovesEntry(s: State, c: Command) {
    && c.RenameCommand? && DentryKey(c.parent, c.name) in s.dentries
    && (DentryKey(c.newParent, c.newName) in s.dentries ==>
          s.dentries[DentryKey(c.newParent, c.newName)] != s.dentries[DentryKey(c.parent, c.name)])
  }

  predicate Creates(c: Command) {
    c.MkdirCommand? || c.CreateFileCommand?
  }

  predicate Removes(c: Command) {
    c.UnlinkCommand? || c.RmdirCommand?
  }

  /** The inode whose entry a command takes away for good: the removed one, or a replaced target. */
  function Victim(s: State, c: Command): Option<u64> {
    var key := if Removes(c) then DentryKey(c.parent, c.name)
               else if MovesEntry(s, c) then DentryKey(c.newParent, c.newName) else DentryKey(ROOT, "");
    if (Removes(c) || MovesEntry(s, c)) && key in s.dentries then Some(s.dentries[key]) else None
  }

  function EntriesAfter(s: State, c: Command): Dentries {
    if Creates(c) then s.dentries[DentryKey(c.parent, c.name) := s.nextInodeId]
    else if Removes(c) then s.dentries - {DentryKey(c.parent, c.name)}
    else if MovesEntry(s, c) then
      (s.dentries - {DentryKey(c.parent, c.name)})
      [DentryKey(c.newParent, c.newName) := s.dentries[DentryKey(c.parent, c.name)]]
    else s.dentries
  }

  ghost predicate TablesAre(s: State, c: Command, s': State) {
    && s'.dentries == EntriesAfter(s, c)
    && (forall id: u64 :: id in s'.inodes <==>
          (id in s.inodes || (Creates(c) && id == s.nextInodeId)) && Victim(s, c) != Some(id))
    && s'.nextInodeId == (if Creates(c) then Add64(s.nextInodeId, 1) else s.nextInodeId)
    && s'.defaultChunkSize == s.defaultChunkSize
  }

  /** The entries, the inodes and the counters after every command that succeeds; a command that is
      refused changes none of them. */
  lemma ApplyTables(s: State, c: Command, times: Times)
    requires NoDangling(s)
    ensures var s' := Apply(s, c, times).0;
            if Apply(s, c, times).1.ErrorReply?
            then s'.(layouts := s.layouts) == s
            else TablesAre(s, c, s')
  {
    hide Apply, NoDangling, TablesAre, PartlyMerged, MergeAll, Batch;
    if Apply(s, c, times).1.ErrorReply? {
      ErrorsChangeOnlyRejectedLayouts(s, c, times);
    } else if Creates(c) {
      CreateTables(s, c, times);
    } else if Removes(c) {
      RemovalTables(s, c, times);
    } else if c.RenameCommand? {
      RenameTables(s, c, times);
    } else {
      FileTables(s, c, times);
    }
  }

  lemma CreateTables(s: State, c: Command, times: Times)
    requires NoDangling(s) && Creates(c) && !Apply(s, c, times).1.ErrorReply?
    ensures TablesAre(s, c, Apply(s, c, times).0)
  {
    hide NoDangling;
  }

  lemma RemovalTables(s: State, c: Command, times: Times)
    requires NoDangling(s) && Removes(c) && !Apply(s, c, times).1.ErrorReply?
    ensures TablesAre(s, c, Apply(s, c, times).0)
  {
    hide WithoutNode, Leaf;
  }

  lemma RenameTables(s: State, c: Command, times: Times)
    requires NoDangling(s) && c.RenameCommand? && !Apply(s, c, times).1.ErrorReply?
    ensures TablesAre(s, c, Apply(s, c, times).0)
  {
    hide Apply, NoDangling, TablesAre, EntriesAfter, Victim;
    var s' := Apply(s, c, times).0;
    forall id: u64
      ensures id in s'.inodes <==> id in s.inodes && Victim(s, c) != Some(id)
    {
      KeptByRename(s, c, times, id);
    }
    RenamedEntries(s, c, times);
    AreTables(s, c, s');
  }

  lemma AreTables(s: State, c: Command, s': State)
    requires c.RenameCommand? && s'.dentries == EntriesAfter(s, c)
    requires s'.nextInodeId == s.nextInodeId && s'.defaultChunkSize == s.defaultChunkSize
    requires forall id: u64 :: id in s'.inodes <==> id in s.inodes && Victim(s, c) != Some(id)
    ensures TablesAre(s, c, s')
  {
  }

  lemma RenamedEntries(s: State, c: Command, times: Times)
    requires NoDangling(s) && c.RenameCommand? && !Apply(s, c, times).1.ErrorReply?
    ensures var s' := Apply(s, c, times).0;
            && s'.dentries == EntriesAfter(s, c)
            && s'.nextInodeId == s.nextInodeId && s'.defaultChunkSize == s.defaultChunkSize
  {
    hide WithoutNode, Relinked, NoDangling, Rename;
    var oldKey, newKey := DentryKey(c.parent, c.name), DentryKey(c.newParent, c.newName);
    RenameForms(s, oldKey, newKey, times);
    MovedOnto(s.dentries, oldKey, newKey);
  }

  /** A rename removes the inode of a replaced target and no other. */
  lemma KeptByRename(s: State, c: Command, times: Times, id: u64)
    requires NoDangling(s) && c.RenameCommand? && !Apply(s, c, times).1.ErrorReply?
    ensures id in Apply(s, c, times).0.inodes <==> id in s.inodes && Victim(s, c) != Some(id)
  {
    hide WithoutNode, Relinked, NoDangling, Rename;
    RenameForms(s, DentryKey(c.parent, c.name), DentryKey(c.newParent, c.newName), times);
  }

  lemma MovedOnto(d: Dentries, oldKey: DentryKey, newKey: DentryKey)
    requires oldKey in d
    ensures oldKey != newKey ==> Moved(d - {newKey}, oldKey, newKey) == (d - {oldKey})[newKey := d[oldKey]]
  {
  }

  /** The two steps of a rename that goes through. */
  lemma RenameForms(s: State, oldKey: DentryKey, newKey: DentryKey, times: Times)
    requires NoDangling(s) && Rename(s, oldKey, newKey, times).result.Ok?
    ensures oldKey in s.dentries && s.dentries[oldKey] in s.inodes
    ensures oldKey.parent in s.inodes && newKey.parent in s.inodes
    ensures newKey in s.dentries && s.dentries[newKey] != s.dentries[oldKey] ==>
              && s.dentries[newKey] in s.inodes
              && newKey.parent != s.dentries[newKey] && oldKey.parent != s.dentries[newKey]
    ensures var s' := Rename(s, oldKey, newKey, times).state;
            if newKey !in s.dentries then s' == Relinked(s, oldKey, newKey, times.final)
            else if s.dentries[newKey] == s.dentries[oldKey] then s' == s
            else s' == Relinked(WithoutNode(s, newKey, times.removal), oldKey, newKey, times.final)
  {
    hide WithoutNode, Relinked, Above, ReplaceError;
    if newKey in s.dentries && s.dentries[newKey] != s.dentries[oldKey] {
      TargetIsApart(s, oldKey, newKey, times);
    }
  }

  /** A target that is replaced holds neither of the two entries. */
  lemma TargetIsApart(s: State, oldKey: DentryKey, newKey: DentryKey, times: Times)
    requires NoDangling(s) && Rename(s, oldKey, newKey, times).result.Ok? && oldKey in s.dentries
    requires newKey in s.dentries && s.dentries[newKey] != s.dentries[oldKey]
    ensures newKey.parent != s.dentries[newKey] && oldKey.parent != s.dentries[newKey]
  {
    hide WithoutNode, Relinked, Above;
  }

  lemma FileTables(s: State, c: Command, times: Times)
    requires NoDangling(s) && !Creates(c) && !Removes(c) && !c.RenameCommand?
    ensures TablesAre(s, c, Apply(s, c, times).0)
  {
    hide NoDangling, MergeAll, MaxEnd, ShiftAll, Accepted, Cut, WithArgs;
  }

  // ---------- the layouts ----------

  /** A layout keeps its chunk size for good; a new file's is the default. */
  lemma ApplyChunkSizes(s: State, c: Command, times: Times, id: u64)
    requires Valid(s) && NoDangling(s) && id in Apply(s, c, times).0.layouts
    ensures Apply(s, c, times).0.layouts[id].chunkSize ==
            if id in s.layouts then s.layouts[id].chunkSize else s.defaultChunkSize
  {
    hide Apply, Valid, NoDangling;
    NumberIsFree(s);
    if c.RenameCommand? {
      RenameChunkSizes(s, c, times, id);
    } else if Removes(c) {
      RemovalChunkSizes(s, c, times, id);
    } else if Creates(c) {
      CreationChunkSizes(s, c, times, id);
    } else {
      FileChunkSizes(s, c, times, id);
    }
  }

  lemma CreationChunkSizes(s: State, c: Command, times: Times, id: u64)
    requires NoDangling(s) && Creates(c) && s.nextInodeId !in s.layouts && id in Apply(s, c, times).0.layouts
    ensures Apply(s, c, times).0.layouts[id].chunkSize ==
            if id in s.layouts then s.layouts[id].chunkSize else s.defaultChunkSize
  {
    hide NoDangling, ParentError, ParentUpdated;
  }

  lemma FileChunkSizes(s: State, c: Command, times: Times, id: u64)
    requires NoDangling(s) && !Creates(c) && !Removes(c) && !c.RenameCommand? && id in Apply(s, c, times).0.layouts
    ensures id in s.layouts && Apply(s, c, times).0.layouts[id].chunkSize == s.layouts[id].chunkSize
  {
    hide NoDangling, MergeAll, MaxEnd, ShiftAll, Accepted, Cut, WithArgs;
  }

  lemma NumberIsFree(s: State)
    requires Valid(s)
    ensures s.nextInodeId !in s.inodes && s.nextInodeId !in s.layouts
  {
    hide Tree, Linked;
  }

  lemma RemovedChunkSize(s: State, key: DentryKey, now: i64, id: u64)
    requires key in s.dentries && s.dentries[key] in s.inodes && key.parent in s.inodes
    requires key.parent != s.dentries[key] && id in WithoutNode(s, key, now).layouts
    ensures id in s.layouts && WithoutNode(s, key, now).layouts[id].chunkSize == s.layouts[id].chunkSize
  {
  }

  lemma RelinkedChunkSize(s: State, oldKey: DentryKey, newKey: DentryKey, now: i64, id: u64)
    requires oldKey in s.dentries && s.dentries[oldKey] in s.inodes
    requires oldKey.parent in s.inodes && newKey.parent in s.inodes && id in Relinked(s, oldKey, newKey, now).layouts
    ensures id in s.layouts && Relinked(s, oldKey, newKey, now).layouts[id].chunkSize == s.layouts[id].chunkSize
  {
  }

  lemma RemovalChunkSizes(s: State, c: Command, times: Times, id: u64)
    requires NoDangling(s) && Removes(c) && id in Apply(s, c, times).0.layouts
    ensures id in s.layouts && Apply(s, c, times).0.layouts[id].chunkSize == s.layouts[id].chunkSize
  {
    var key := DentryKey(c.parent, c.name);
    if !Apply(s, c, times).1.ErrorReply? {
      RemovalIff(s, c, times);
      if c.UnlinkCommand? {
        assert key.parent != s.dentries[key];
      } else {
        assert key.parent != s.dentries[key];
      }
      hide WithoutNode, Leaf, HoldsNothing;
      RemovedChunkSize(s, key, times.removal, id);
    } else {
      ErrorsChangeOnlyRejectedLayouts(s, c, times);
    }
  }

  lemma RenameChunkSizes(s: State, c: Command, times: Times, id: u64)
    requires NoDangling(s) && c.RenameCommand? && id in Apply(s, c, times).0.layouts
    ensures id in s.layouts && Apply(s, c, times).0.layouts[id].chunkSize == s.layouts[id].chunkSize
  {
    var oldKey, newKey := DentryKey(c.parent, c.name), DentryKey(c.newParent, c.newName);
    hide WithoutNode, Relinked, NoDangling, Rename, PartlyMerged;
    if Apply(s, c, times).1.ErrorReply? {
      ErrorsChangeOnlyRejectedLayouts(s, c, times);
      NotPartlyMerged(s, c);
    } else {
      RenameForms(s, oldKey, newKey, times);
      if newKey !in s.dentries {
        RelinkedChunkSize(s, oldKey, newKey, times.final, id);
      } else if s.dentries[newKey] != s.dentries[oldKey] {
        RelinkedChunkSize(WithoutNode(s, newKey, times.removal), oldKey, newKey, times.final, id);
        RemovedChunkSize(s, newKey, times.removal, id);
      }
    }
  }

  lemma NotPartlyMerged(s: State, c: Command)
    requires c.RenameCommand?
    ensures !PartlyMerged(s, c)
  {
  }

  // ---------- attributes and times ----------

  /** The inodes whose contents a command changes: directories that gain or lose an entry, and files
      that are written or cut. */
  function Touched(s: State, c: Command): set<u64> {
    if Creates(c) || Removes(c) then {c.parent}
    else if MovesEntry(s, c) then {c.parent, c.newParent}
    else if Target(c).Some? then {Target(c).value}
    else {}
  }

  /** The clock reading a command leaves. */
  function Reading(c: Command, times: Times): i64 {
    if Removes(c) then times.removal else times.final
  }

  /** How many new versions an inode gets: one for each change of its contents or its own attributes; a
      directory in which a rename replaces an entry changes twice. */
  function Bumps(s: State, c: Command, id: u64): nat {
    (if id in Touched(s, c) then 1 else 0) +
    (if MovesEntry(s, c) && Victim(s, c).Some? && id == c.newParent then 1 else 0) +
    (if MovesEntry(s, c) && id == s.dentries[DentryKey(c.parent, c.name)] then 1 else 0) +
    (if c.SetAttrCommand? && id == c.inodeId then 1 else 0)
  }

  function Given<T>(asked: Option<T>, kept: T): T {
    if asked.Some? then asked.value else kept
  }

  /** What becomes of the attributes of one inode. The access time, the mode and the owners change only
      by setattr; the modification time where contents change, or by setattr; the change time wherever
      the version does. */
  predicate AttrsAre(s: State, c: Command, times: Times, id: u64, a: InodeAttrs, b: InodeAttrs) {
    var asked := if c.SetAttrCommand? && id == c.inodeId then c.args else SetAttrArgs(None, None, None, None, None);
    && b.inodeId == a.inodeId && b.kind == a.kind && b.chunkSize == a.chunkSize
    && b.mode == Given(asked.mode, a.mode) && b.uid == Given(asked.uid, a.uid) && b.gid == Given(asked.gid, a.gid)
    && b.atimeNs == Given(asked.atimeNs, a.atimeNs)
    && b.mtimeNs == (if id in Touched(s, c) then Reading(c, times) else Given(asked.mtimeNs, a.mtimeNs))
    && b.ctimeNs == (if 0 < Bumps(s, c, id) then Reading(c, times) else a.ctimeNs)
    && b.version == (a.version + Bumps(s, c, id)) % TWO_64
  }

  /** The attributes of every inode that was there before a successful command and still is. What the
      two sizes and link counts are is said by ApplyContents and by the invariant. */
  lemma ApplyAttrs(s: State, c: Command, times: Times, id: u64)
    requires Valid(s) && NoDangling(s) && !Apply(s, c, times).1.ErrorReply?
    requires id in s.inodes && id in Apply(s, c, times).0.inodes
    ensures AttrsAre(s, c, times, id, s.inodes[id], Apply(s, c, times).0.inodes[id])
  {
    hide Apply, Valid, NoDangling, AttrsAre;
    if Creates(c) {
      CreateAttrs(s, c, times, id);
    } else if Removes(c) {
      RemovalAttrs(s, c, times, id);
    } else if c.RenameCommand? {
      RenameAttrs(s, c, times, id);
    } else {
      FileAttrs(s, c, times, id);
    }
  }

  lemma CreatedAttrs(s: State, key: DentryKey, attrs: InodeAttrs, now: i64, id: u64)
    requires key.parent in s.inodes && attrs.inodeId !in s.inodes && id in s.inodes
    ensures id in WithNode(s, key, attrs, now).inodes
    ensures var a, b := s.inodes[id], WithNode(s, key, attrs, now).inodes[id];
            b == if id == key.parent
                 then a.(mtimeNs := now, ctimeNs := now, version := Add64(a.version, 1), nlink := b.nlink) else a
  {
  }

  lemma CreateAttrs(s: State, c: Command, times: Times, id: u64)
    requires Valid(s) && NoDangling(s) && Creates(c) && !Apply(s, c, times).1.ErrorReply? && id in s.inodes
    ensures id in Apply(s, c, times).0.inodes
    ensures AttrsAre(s, c, times, id, s.inodes[id], Apply(s, c, times).0.inodes[id])
  {
    hide Valid, NoDangling, WithNode;
    NumberIsFree(s);
    CreatedAttrs(s, DentryKey(c.parent, c.name), Apply(s, c, times).1.attrs, times.final, id);
  }

  lemma RemovedAttrs(s: State, key: DentryKey, now: i64, id: u64)
    requires key in s.dentries && s.dentries[key] in s.inodes && key.parent in s.inodes
    requires key.parent != s.dentries[key] && id in WithoutNode(s, key, now).inodes
    ensures id in s.inodes
    ensures var a, b := s.inodes[id], WithoutNode(s, key, now).inodes[id];
            b == if id == key.parent
                 then a.(mtimeNs := now, ctimeNs := now, version := Add64(a.version, 1), nlink := b.nlink) else a
  {
  }

  lemma RemovalAttrs(s: State, c: Command, times: Times, id: u64)
    requires NoDangling(s) && Removes(c) && !Apply(s, c, times).1.ErrorReply?
    requires id in s.inodes && id in Apply(s, c, times).0.inodes
    ensures AttrsAre(s, c, times, id, s.inodes[id], Apply(s, c, times).0.inodes[id])
  {
    RemovalIsApart(s, c, times);
    hide NoDangling, WithoutNode, Leaf;
    RemovedAttrs(s, DentryKey(c.parent, c.name), times.removal, id);
  }

  lemma RemovalIsApart(s: State, c: Command, times: Times)
    requires NoDangling(s) && Removes(c) && !Apply(s, c, times).1.ErrorReply?
    ensures var key := DentryKey(c.parent, c.name);
            && key in s.dentries && s.dentries[key] in s.inodes && key.parent in s.inodes
            && key.parent != s.dentries[key]
            && Apply(s, c, times).0 == WithoutNode(s, key, times.removal)
  {
    hide WithoutNode;
  }

  lemma FileAttrs(s: State, c: Command, times: Times, id: u64)
    requires NoDangling(s) && !Creates(c) && !Removes(c) && !c.RenameCommand? && !Apply(s, c, times).1.ErrorReply?
    requires id in s.inodes && id in Apply(s, c, times).0.inodes
    ensures AttrsAre(s, c, times, id, s.inodes[id], Apply(s, c, times).0.inodes[id])
  {
    hide NoDangling, MergeAll, MaxEnd, ShiftAll, Accepted, Cut;
  }

  lemma RelinkedAttrs(s: State, oldKey: DentryKey, newKey: DentryKey, now: i64, id: u64)
    requires oldKey in s.dentries && s.dentries[oldKey] in s.inodes && id in s.inodes
    requires oldKey.parent in s.inodes && newKey.parent in s.inodes
    requires s.dentries[oldKey] != oldKey.parent && s.dentries[oldKey] != newKey.parent
    ensures id in Relinked(s, oldKey, newKey, now).inodes
    ensures var a, b := s.inodes[id], Relinked(s, oldKey, newKey, now).inodes[id];
            b == if id == oldKey.parent || id == newKey.parent
                 then a.(mtimeNs := now, ctimeNs := now, version := Add64(a.version, 1), nlink := b.nlink)
                 else if id == s.dentries[oldKey] then a.(ctimeNs := now, version := Add64(a.version, 1))
                 else a
  {
  }

  /** A rename with both its steps, for one inode. */
  lemma RenamedAttrs(s: State, oldKey: DentryKey, newKey: DentryKey, times: Times, id: u64)
    requires NoDangling(s) && Rename(s, oldKey, newKey, times).result.Ok? && oldKey in s.dentries
    requires s.dentries[oldKey] != oldKey.parent && s.dentries[oldKey] != newKey.parent
    requires id in s.inodes && id in Rename(s, oldKey, newKey, times).state.inodes
    requires newKey in s.dentries ==> s.dentries[newKey] != s.dentries[oldKey]
    ensures var a, b, n := s.inodes[id], Rename(s, oldKey, newKey, times).state.inodes[id], times.final;
            b == if id == newKey.parent && newKey in s.dentries
                 then a.(mtimeNs := n, ctimeNs := n, version := Add64(Add64(a.version, 1), 1), nlink := b.nlink)
                 else if id == oldKey.parent || id == newKey.parent
                 then a.(mtimeNs := n, ctimeNs := n, version := Add64(a.version, 1), nlink := b.nlink)
                 else if id == s.dentries[oldKey] then a.(ctimeNs := n, version := Add64(a.version, 1))
                 else a
  {
    hide NoDangling, WithoutNode, Relinked, Rename, Add64;
    RenameForms(s, oldKey, newKey, times);
    if newKey in s.dentries {
      RemovedAttrs(s, newKey, times.removal, id);
      RelinkedAttrs(WithoutNode(s, newKey, times.removal), oldKey, newKey, times.final, id);
    } else {
      RelinkedAttrs(s, oldKey, newKey, times.final, id);
    }
  }

  lemma RenameAttrs(s: State, c: Command, times: Times, id: u64)
    requires Valid(s) && NoDangling(s) && c.RenameCommand? && !Apply(s, c, times).1.ErrorReply?
    requires id in s.inodes && id in Apply(s, c, times).0.inodes
    ensures AttrsAre(s, c, times, id, s.inodes[id], Apply(s, c, times).0.inodes[id])
  {
    hide Valid, NoDangling, Rename, AttrsAre, Relinked, WithoutNode;
    var oldKey, newKey := DentryKey(c.parent, c.name), DentryKey(c.newParent, c.newName);
    MovedIsApart(s, oldKey, newKey, times);
    RenameForms(s, oldKey, newKey, times);
    if newKey in s.dentries && s.dentries[newKey] == s.dentries[oldKey] {
      UnmovedAttrs(s, c, times, id);
    } else {
      RenamedAttrs(s, oldKey, newKey, times, id);
      MovedAttrs(s, c, times, id, Rename(s, oldKey, newKey, times).state.inodes[id]);
    }
  }

  lemma UnmovedAttrs(s: State, c: Command, times: Times, id: u64)
    requires c.RenameCommand? && !MovesEntry(s, c) && id in s.inodes
    ensures AttrsAre(s, c, times, id, s.inodes[id], s.inodes[id])
  {
  }

  lemma MovedAttrs(s: State, c: Command, times: Times, id: u64, b: InodeAttrs)
    requires c.RenameCommand? && MovesEntry(s, c) && id in s.inodes
    requires s.dentries[DentryKey(c.parent, c.name)] != c.parent
    requires s.dentries[DentryKey(c.parent, c.name)] != c.newParent
    requires var a, n := s.inodes[id], times.final;
             b == if id == c.newParent && DentryKey(c.newParent, c.newName) in s.dentries
                  then a.(mtimeNs := n, ctimeNs := n, version := Add64(Add64(a.version, 1), 1), nlink := b.nlink)
                  else if id == c.parent || id == c.newParent
                  then a.(mtimeNs := n, ctimeNs := n, version := Add64(a.version, 1), nlink := b.nlink)
                  else if id == s.dentries[DentryKey(c.parent, c.name)]
                  then a.(ctimeNs := n, version := Add64(a.version, 1)) else a
    ensures AttrsAre(s, c, times, id, s.inodes[id], b)
  {
  }

  lemma MovedIsApart(s: State, oldKey: DentryKey, newKey: DentryKey, times: Times)
    requires Valid(s) && NoDangling(s) && Rename(s, oldKey, newKey, times).result.Ok?
    ensures oldKey in s.dentries
    ensures s.dentries[oldKey] != oldKey.parent && s.dentries[oldKey] != newKey.parent
  {
    hide Valid, WithoutNode, Relinked, Above, ReplaceError;
    GuardKeepsOutside(s, oldKey, newKey.parent);
    NotAmongParents(s, oldKey, newKey.parent);
  }

  // ---------- the laws leave no choice ----------

  /** Everything said about the state after a successful command: entries, inodes and counters, the
      attributes of old and new inodes, sizes and extents, link counts, and layouts. */
  ghost predicate Obeys(s: State, c: Command, times: Times, t: State) {
    && TablesAre(s, c, t) && ContentsAre(s, c, t) && Linked(t) && Cached(t)
    && (forall id :: id in t.inodes && id in s.inodes ==> AttrsAre(s, c, times, id, s.inodes[id], t.inodes[id]))
    && (Creates(c) && s.nextInodeId in t.inodes ==> IsNewNode(s, c, times.final, t.inodes[s.nextInodeId]))
    && (forall id :: id in t.layouts ==>
          t.layouts[id].chunkSize == if id in s.layouts then s.layouts[id].chunkSize else s.defaultChunkSize)
  }

  lemma ApplyObeys(s: State, c: Command, times: Times)
    requires Valid(s) && NoDangling(s) && s.nextInodeId < MAX_64 && !Apply(s, c, times).1.ErrorReply?
    ensures Obeys(s, c, times, Apply(s, c, times).0)
  {
    hide Apply, Valid, NoDangling, TablesAre, ContentsAre, AttrsAre, Linked, Cached, IsNewNode;
    var t := Apply(s, c, times).0;
    ApplyTables(s, c, times);
    ApplyContents(s, c, times);
    ApplyKeepsValid(s, c, times);
    ValidIsLinkedAndCached(t);
    forall id | id in t.inodes && id in s.inodes ensures AttrsAre(s, c, times, id, s.inodes[id], t.inodes[id]) {
      ApplyAttrs(s, c, times, id);
    }
    forall id | id in t.layouts
      ensures t.layouts[id].chunkSize == if id in s.layouts then s.layouts[id].chunkSize else s.defaultChunkSize
    {
      ApplyChunkSizes(s, c, times, id);
    }
    if Creates(c) {
      NumberIsFree(s);
      CreationAnswers(s, c, times);
      CreationMakes(s, c, times);
    }
  }

  lemma ValidIsLinkedAndCached(s: State)
    requires Valid(s)
    ensures Linked(s) && Cached(s)
  {
    hide Linked, Cached, Tree, Numbered;
  }

  lemma CreationAnswers(s: State, c: Command, times: Times)
    requires NoDangling(s) && Creates(c) && !Apply(s, c, times).1.ErrorReply?
    ensures Apply(s, c, times).1.AttrsReply?
  {
    hide NoDangling, CreateNode;
  }

  lemma SameInode(s: State, c: Command, times: Times, t: State, u: State, id: u64)
    requires s.nextInodeId !in s.inodes && Obeys(s, c, times, t) && Obeys(s, c, times, u)
    requires id in t.inodes && id in u.inodes
    ensures t.inodes[id].(nlink := 0) == u.inodes[id].(nlink := 0)
  {
    hide Linked, Cached, EntriesAfter, Victim, Touched, Bumps, Reading;
    assert t.inodes[id].size == SizeAfter(s, c, id) == u.inodes[id].size;
    hide ContentsAre;
    if id in s.inodes {
      SameAttrs(s, c, times, id, t.inodes[id], u.inodes[id]);
    }
  }

  lemma SameAttrs(s: State, c: Command, times: Times, id: u64, a: InodeAttrs, b: InodeAttrs)
    requires id in s.inodes && a.size == b.size
    requires AttrsAre(s, c, times, id, s.inodes[id], a) && AttrsAre(s, c, times, id, s.inodes[id], b)
    ensures a.(nlink := 0) == b.(nlink := 0)
  {
    hide Touched, Bumps, Reading;
  }

  /** Two states that obey the laws of one command are the same state. So the laws, which do not mention
      how a command proceeds, say everything about what it leaves behind. */
  lemma LawsDetermine(s: State, c: Command, times: Times, t: State, u: State)
    requires s.nextInodeId !in s.inodes && Obeys(s, c, times, t) && Obeys(s, c, times, u)
    ensures t == u
  {
    assert t.inodes.Keys == u.inodes.Keys && t.dentries == u.dentries;
    forall id | id in t.inodes ensures t.inodes[id] == u.inodes[id] {
      SameInode(s, c, times, t, u, id);
      SameLinks(s, c, times, t, u, id);
    }
    assert t.inodes == u.inodes;
    SameLayouts(s, c, times, t, u);
    hide Obeys;
  }

  lemma SameLinks(s: State, c: Command, times: Times, t: State, u: State, id: u64)
    requires s.nextInodeId !in s.inodes && Obeys(s, c, times, t) && Obeys(s, c, times, u)
    requires id in t.inodes && t.inodes.Keys == u.inodes.Keys && t.dentries == u.dentries
    ensures t.inodes[id].nlink == u.inodes[id].nlink
  {
    hide Obeys, LinkCount;
    forall x | x in t.inodes ensures t.inodes[x].kind == u.inodes[x].kind {
      SameInode(s, c, times, t, u, x);
    }
    assert KindsOf(t) == KindsOf(u);
    ObeyingIsLinked(s, c, times, t);
    ObeyingIsLinked(s, c, times, u);
  }

  lemma ObeyingIsLinked(s: State, c: Command, times: Times, t: State)
    requires Obeys(s, c, times, t)
    ensures Linked(t)
  {
    hide Linked, Cached, ContentsAre, TablesAre, AttrsAre, IsNewNode;
  }

  lemma SameLayouts(s: State, c: Command, times: Times, t: State, u: State)
    requires Obeys(s, c, times, t) && Obeys(s, c, times, u) && t.inodes == u.inodes
    ensures t.layouts == u.layouts
  {
    assert t.layouts.Keys == u.layouts.Keys;
    forall id | id in t.layouts ensures t.layouts[id] == u.layouts[id] {
      assert t.layouts[id].attrs == u.layouts[id].attrs;
      assert t.layouts[id].extents == ExtentsAfter(s, c, id) == u.layouts[id].extents;
    }
  }

  /** What a new server holds: the root directory, open to be read by all, and nothing else. */
  lemma FreshServer(chunkSize: u64, now: i64)
    ensures var s := InitialState(chunkSize, now);
            && s.inodes.Keys == {1} && s.dentries == map[] && s.layouts == map[]
            && s.nextInodeId == 2 && s.defaultChunkSize == chunkSize
            && var root := s.inodes[1];
               && root.inodeId == 1 && root.kind == Directory && root.mode == 7 * 64 + 5 * 8 + 5
               && root.uid == 0 && root.gid == 0 && root.size == 0 && root.nlink == 2 && root.version == 1
               && root.atimeNs == root.mtimeNs == root.ctimeNs == now && root.chunkSize == 0
  {
  }
}
