/** The replicated state machine as the program has it: three tables updated in place
    (src/meta_state.cc) and the command dispatch of src/meta_service.cc:435-524. Every method is
    proved to compute the function of the same name in MetaSpec. */
module MetaServer {
  import opened Types
  import opened Text
  import opened Extents
  import opened Namespace
  import opened Ancestry
  import opened MapOrder
  import opened MetaSpec
  import opened MetaInvariant
  import opened MetaFiles
  import opened Snapshots
  import KeyLists

  class MetaState {
    var nextInodeId: u64
    var defaultChunkSize: u64
    var inodes: map<u64, InodeAttrs>
    var dentries: Dentries
    var layouts: map<u64, FileLayout>

    ghost function Abstract(): State
      reads this
    {
      State(nextInodeId, defaultChunkSize, inodes, dentries, layouts)
    }

    ghost predicate Invariant()
      reads this
    {
      Valid(Abstract()) && NoDangling(Abstract())
    }

    constructor (chunkSize: u64, now: i64)
      ensures Abstract() == InitialState(chunkSize, now)
      ensures Invariant()
    {
      nextInodeId, defaultChunkSize := ROOT + 1, chunkSize;
      inodes := map[ROOT := InodeAttrs(ROOT, Directory, 493, 0, 0, 0, 2, 1, now, now, now, 0)];
      dentries, layouts := map[], map[];
      new;
      InitialIsValid(chunkSize, now);
      ValidHasNoDangling(Abstract());
    }

    // ---------- walks over the entries ----------

    method IsDirectoryEmpty(id: u64) returns (empty: bool)
      ensures empty == Leaf(dentries, id)
    {
      var rest := dentries.Keys;
      while rest != {}
        invariant rest <= dentries.Keys
        invariant forall k :: k in dentries && k !in rest ==> k.parent != id
      {
        var k :| k in rest;
        if k.parent == id {
          return false;
        }
        rest := rest - {k};
      }
      return true;
    }

    /** The parent in the first entry, in key order, that leads to an inode; the inode itself if it
        is the root or has no entry. */
    method ParentOf(id: u64) returns (parent: u64)
      ensures parent == Up(dentries, id)
    {
      if id == ROOT {
        return ROOT;
      }
      var rest := dentries.Keys;
      while rest != {}
        invariant rest <= dentries.Keys
        invariant forall k :: k in dentries && k !in rest ==> dentries[k] != id
      {
        FirstExists(rest);
        var k :| IsFirst(rest, k);
        if dentries[k] == id {
          FirstIsLeast(dentries, id, rest, k);
          return k.parent;
        }
        rest := rest - {k};
      }
      return id;
    }

    /** Where the walk ends, its answer is whether it met the first inode. On a valid server it always
        ends (TreeWalksEnd), and it meets exactly what lies above (AboveIsReaches). */
    method IsAncestor(ancestor: u64, id: u64) returns (yes: bool)
      requires WalkEnds(dentries, ancestor, id)
      ensures yes == Above(dentries, ancestor, id)
    {
      hide Up;
      ghost var last: nat :| Settled(dentries, ancestor, Climb(dentries, id, last));
      var current := id;
      ghost var steps: nat := 0;
      assert Up(dentries, ROOT) == ROOT by {
        RootStays(dentries);
      }
      while current != ROOT
        invariant steps <= last && current == Climb(dentries, id, steps)
        invariant forall j: nat :: j < steps ==> Climb(dentries, id, j) != ancestor
        decreases last - steps
      {
        if current == ancestor {
          return true;
        }
        var parent := ParentOf(current);
        if parent == current {
          NoLaterAncestor(dentries, ancestor, id, steps);
          return false;
        }
        current := parent;
        steps := steps + 1;
      }
      if ancestor != ROOT {
        NoLaterAncestor(dentries, ancestor, id, steps);
      }
      return ancestor == ROOT;
    }

    // ---------- updates of one inode ----------

    method TouchInode(id: u64, now: i64)
      requires id in inodes
      modifies this
      ensures Abstract() == Touch(old(Abstract()), id, now)
    {
      var attrs := inodes[id].(mtimeNs := now, ctimeNs := now);
      attrs := attrs.(version := Add64(attrs.version, 1));
      inodes := inodes[id := attrs];
      if id in layouts {
        layouts := layouts[id := layouts[id].(attrs := attrs)];
      }
    }

    method RemoveNode(key: DentryKey, now: i64)
      requires key in dentries && dentries[key] in inodes && key.parent in inodes && key.parent != dentries[key]
      modifies this
      ensures Abstract() == WithoutNode(old(Abstract()), key, now)
    {
      var id := dentries[key];
      var kind := inodes[id].kind;
      dentries := dentries - {key};
      layouts := layouts - {id};
      inodes := inodes - {id};
      TouchInode(key.parent, now);
      if kind.Directory? {
        var parent := inodes[key.parent];
        inodes := inodes[key.parent := parent.(nlink := Sub64(parent.nlink, 1))];
      }
    }

    // ---------- the commands ----------

    method CreateNode(parent: u64, name: string, kind: InodeType, mode: u32, uid: u32, gid: u32, now: i64)
      returns (result: Result<InodeAttrs>)
      modifies this
      ensures Outcome(Abstract(), result) == MetaSpec.CreateNode(old(Abstract()), parent, name, kind, mode, uid, gid, now)
    {
      var bad := ParentError(inodes, parent, name);
      if bad.Some? {
        return Err(bad.value);
      }
      var key := DentryKey(parent, name);
      if key in dentries {
        return Err(AlreadyExists(PathFor(parent, name)));
      }
      var id := nextInodeId;
      nextInodeId := Add64(nextInodeId, 1);
      var attrs := NewInode(id, kind, mode, uid, gid, now, defaultChunkSize);
      var dir := inodes[parent].(mtimeNs := now, ctimeNs := now);
      dir := dir.(version := Add64(dir.version, 1));
      if kind.Directory? {
        dir := dir.(nlink := Add64(dir.nlink, 1));
      }
      inodes := inodes[parent := dir];
      dentries := dentries[key := id];
      if id !in inodes {
        inodes := inodes[id := attrs];
      }
      if kind.File? && id !in layouts {
        layouts := layouts[id := FileLayout(attrs, defaultChunkSize, [])];
      }
      return Ok(attrs);
    }

    method SetAttr(id: u64, args: SetAttrArgs, now: i64) returns (result: Result<InodeAttrs>)
      modifies this
      ensures Outcome(Abstract(), result) == MetaSpec.SetAttr(old(Abstract()), id, args, now)
    {
      if id !in inodes {
        return Err(NotFound(Decimal(id)));
      }
      var attrs := inodes[id];
      if args.mode.Some? { attrs := attrs.(mode := args.mode.value); }
      if args.uid.Some? { attrs := attrs.(uid := args.uid.value); }
      if args.gid.Some? { attrs := attrs.(gid := args.gid.value); }
      if args.atimeNs.Some? { attrs := attrs.(atimeNs := args.atimeNs.value); }
      if args.mtimeNs.Some? { attrs := attrs.(mtimeNs := args.mtimeNs.value); }
      attrs := attrs.(ctimeNs := now, version := Add64(attrs.version, 1));
      inodes := inodes[id := attrs];
      if id in layouts {
        layouts := layouts[id := layouts[id].(attrs := attrs)];
      }
      return Ok(attrs);
    }

    method Unlink(parent: u64, name: string, now: i64) returns (result: Result<InodeAttrs>)
      requires NoDangling(Abstract())
      modifies this
      ensures Outcome(Abstract(), result) == MetaSpec.Unlink(old(Abstract()), parent, name, now)
    {
      hide Leaf, WithoutNode;
      var bad := ParentError(inodes, parent, name);
      if bad.Some? {
        return Err(bad.value);
      }
      var key := DentryKey(parent, name);
      if key !in dentries {
        return Err(NotFound(PathFor(parent, name)));
      }
      if inodes[dentries[key]].kind.Directory? {
        return Err(IsDirectory(PathFor(parent, name)));
      }
      RemoveNode(key, now);
      return Ok(inodes[parent]);
    }

    method Rmdir(parent: u64, name: string, now: i64) returns (result: Result<InodeAttrs>)
      requires NoDangling(Abstract())
      modifies this
      ensures Outcome(Abstract(), result) == MetaSpec.Rmdir(old(Abstract()), parent, name, now)
    {
      hide WithoutNode;
      var bad := ParentError(inodes, parent, name);
      if bad.Some? {
        return Err(bad.value);
      }
      var key := DentryKey(parent, name);
      if key !in dentries {
        return Err(NotFound(PathFor(parent, name)));
      }
      if !inodes[dentries[key]].kind.Directory? {
        return Err(NotDirectory(PathFor(parent, name)));
      }
      var empty := IsDirectoryEmpty(dentries[key]);
      if !empty {
        return Err(DirectoryNotEmpty(PathFor(parent, name)));
      }
      RemoveNode(key, now);
      return Ok(inodes[parent]);
    }

    /** The table updates of a rename once the target name is free. */
    method Relink(oldKey: DentryKey, newKey: DentryKey, now: i64)
      requires oldKey in dentries && newKey !in dentries && dentries[oldKey] in inodes
      requires oldKey.parent in inodes && newKey.parent in inodes
      modifies this
      ensures Abstract() == Relinked(old(Abstract()), oldKey, newKey, now)
    {
      var id := dentries[oldKey];
      dentries := dentries - {oldKey};
      dentries := dentries[newKey := id];
      TouchInode(oldKey.parent, now);
      if oldKey.parent != newKey.parent {
        TouchInode(newKey.parent, now);
        if inodes[id].kind.Directory? {
          var oldParent, newParent := inodes[oldKey.parent], inodes[newKey.parent];
          inodes := inodes[oldKey.parent := oldParent.(nlink := Sub64(oldParent.nlink, 1))];
          inodes := inodes[newKey.parent := newParent.(nlink := Add64(newParent.nlink, 1))];
        }
      }
      var moved := inodes[id].(ctimeNs := now);
      moved := moved.(version := Add64(moved.version, 1));
      inodes := inodes[id := moved];
      if id in layouts {
        layouts := layouts[id := layouts[id].(attrs := moved)];
      }
    }

    method Rename(oldKey: DentryKey, newKey: DentryKey, times: Times) returns (result: Result<InodeAttrs>)
      requires NoDangling(Abstract()) && RenameWalkEnds(Abstract(), oldKey, newKey)
      modifies this
      ensures Outcome(Abstract(), result) == MetaSpec.Rename(old(Abstract()), oldKey, newKey, times)
    {
      hide ParentError, WithoutNode, Relinked, Above, WalkEnds, Leaf;
      var badOld := ParentError(inodes, oldKey.parent, oldKey.name);
      if badOld.Some? {
        return Err(badOld.value);
      }
      var badNew := ParentError(inodes, newKey.parent, newKey.name);
      if badNew.Some? {
        return Err(badNew.value);
      }
      if oldKey !in dentries {
        return Err(NotFound(PathFor(oldKey.parent, oldKey.name)));
      }
      NamedParents(inodes, oldKey.parent, oldKey.name);
      NamedParents(inodes, newKey.parent, newKey.name);
      var moved := dentries[oldKey];
      if inodes[moved].kind.Directory? {
        var inside := IsAncestor(moved, newKey.parent);
        if inside {
          return Err(InvalidArgument);
        }
      }
      if newKey in dentries {
        var target := dentries[newKey];
        if target == moved {
          return Ok(inodes[moved]);
        }
        if inodes[moved].kind.Directory? && !inodes[target].kind.Directory? {
          return Err(NotDirectory(PathFor(newKey.parent, newKey.name)));
        }
        if !inodes[moved].kind.Directory? && inodes[target].kind.Directory? {
          return Err(IsDirectory(PathFor(newKey.parent, newKey.name)));
        }
        if inodes[target].kind.Directory? {
          var empty := IsDirectoryEmpty(target);
          if !empty {
            return Err(DirectoryNotEmpty(PathFor(newKey.parent, newKey.name)));
          }
        }
        TargetHoldsNeither(Abstract(), oldKey, newKey);
        RemoveNode(newKey, times.removal);
      }
      Relink(oldKey, newKey, times.final);
      return Ok(inodes[moved]);
    }

    method CommitWrite(id: u64, es: seq<FileExtent>, now: i64) returns (result: Result<InodeAttrs>)
      modifies this
      ensures Outcome(Abstract(), result) == MetaSpec.CommitWrite(old(Abstract()), id, es, now)
    {
      hide Merged, MergeAll;
      var bad := FileError(State(nextInodeId, defaultChunkSize, inodes, dentries, layouts), id);
      if bad.Some? {
        return Err(bad.value);
      }
      ghost var xs := layouts[id].extents;
      MergeAllNone(xs);
      for i := 0 to |es|
        invariant id in inodes && id in layouts
        invariant forall j :: 0 <= j < i ==> Acceptable(es[j])
        invariant Abstract() == PutExtents(old(Abstract()), id, MergeAll(xs, es[..i]))
      {
        if !Acceptable(es[i]) {
          AcceptedIs(es, i);
          return Err(InvalidArgument);
        }
        var merged := MergeExtent(layouts[id].extents, es[i]);
        layouts := layouts[id := layouts[id].(extents := merged)];
        MergeAllNext(xs, es, i);
      }
      AcceptedIs(es, |es|);
      assert es[..|es|] == es;
      var size := inodes[id].size;
      for i := 0 to |es|
        invariant size == MaxEnd(inodes[id].size, es[..i])
      {
        size := Max64(size, ExtentEnd(es[i]));
        assert es[..i + 1][..i] == es[..i];
      }
      Resize(id, size, now);
      return Ok(inodes[id]);
    }

    method Resize(id: u64, size: u64, now: i64)
      requires id in inodes && id in layouts
      modifies this
      ensures Abstract() == Resized(old(Abstract()), id, size, now)
    {
      var attrs := inodes[id].(size := size);
      attrs := attrs.(version := Add64(attrs.version, 1), mtimeNs := now, ctimeNs := now);
      inodes := inodes[id := attrs];
      layouts := layouts[id := layouts[id].(attrs := attrs)];
    }

    method AppendWrite(id: u64, es: seq<FileExtent>, now: i64) returns (result: Result<AppendResult>)
      modifies this
      ensures Outcome(Abstract(), result) == MetaSpec.AppendWrite(old(Abstract()), id, es, now)
    {
      hide Merged, MergeAll, WellFormed, At, ShiftAll, MaxEnd;
      var bad := FileError(State(nextInodeId, defaultChunkSize, inodes, dentries, layouts), id);
      if bad.Some? {
        return Err(bad.value);
      }
      var start := inodes[id].size;
      var length: u64 := 0;
      var committed := [];
      ghost var xs := layouts[id].extents;
      MergeAllNone(xs);
      NothingAppended(start);
      for i := 0 to |es|
        invariant id in inodes && id in layouts
        invariant forall j :: 0 <= j < i ==> Acceptable(es[j])
        invariant committed == ShiftAll(es[..i], start) && length == MaxEnd(0, es[..i])
        invariant Abstract() == PutExtents(old(Abstract()), id, MergeAll(xs, committed))
      {
        if !Acceptable(es[i]) {
          AcceptedIs(es, i);
          return Err(InvalidArgument);
        }
        length := Max64(length, ExtentEnd(es[i]));
        var extent := es[i].(offset := Add64(start, es[i].offset));
        var merged := MergeExtent(layouts[id].extents, extent);
        layouts := layouts[id := layouts[id].(extents := merged)];
        MergeAllSnoc(xs, committed, extent);
        ShiftAllNext(es, start, i);
        committed := committed + [extent];
      }
      AcceptedIs(es, |es|);
      assert es[..|es|] == es;
      Resize(id, Add64(start, length), now);
      return Ok(AppendResult(inodes[id], start, committed));
    }

    method Truncate(id: u64, size: u64, now: i64) returns (result: Result<InodeAttrs>)
      modifies this
      ensures Outcome(Abstract(), result) == MetaSpec.Truncate(old(Abstract()), id, size, now)
    {
      var bad := FileError(State(nextInodeId, defaultChunkSize, inodes, dentries, layouts), id);
      if bad.Some? {
        return Err(bad.value);
      }
      var xs := layouts[id].extents;
      var kept := [];
      for i := 0 to |xs|
        invariant kept == Cut(xs[..i], size)
      {
        var e := xs[i];
        assert xs[..i + 1][..i] == xs[..i];
        if e.offset >= size {
          continue;
        }
        if ExtentEnd(e) > size {
          kept := kept + [SliceExtent(e, e.offset, Sub64(size, e.offset))];
        } else {
          kept := kept + [e];
        }
      }
      assert xs[..|xs|] == xs;
      layouts := layouts[id := layouts[id].(extents := kept)];
      Resize(id, size, now);
      return Ok(inodes[id]);
    }

    /** Dispatch of one parsed command; the invariant holds from command to command. */
    method Apply(c: Command, times: Times) returns (response: Response)
      requires NoDangling(Abstract()) && CommandWalkEnds(Abstract(), c)
      modifies this
      ensures (Abstract(), response) == MetaSpec.Apply(old(Abstract()), c, times)
      ensures old(Invariant()) && old(nextInodeId) < MAX_64 ==> Invariant()
    {
      hide Valid, NoDangling, RenameWalkEnds, MetaSpec.CreateNode, MetaSpec.SetAttr, MetaSpec.CommitWrite;
      hide MetaSpec.AppendWrite;
      hide MetaSpec.Truncate, MetaSpec.Unlink, MetaSpec.Rmdir, MetaSpec.Rename;
      ghost var before := Abstract();
      var result: Result<InodeAttrs> := Err(InvalidArgument);
      var appended: Option<Result<AppendResult>> := None;
      match c {
        case MkdirCommand(parent, name, mode, uid, gid) =>
          result := CreateNode(parent, name, Directory, mode, uid, gid, times.final);
        case CreateFileCommand(parent, name, mode, uid, gid) =>
          result := CreateNode(parent, name, File, mode, uid, gid, times.final);
        case SetAttrCommand(id, args) => result := SetAttr(id, args, times.final);
        case CommitWriteCommand(id, _, es) => result := CommitWrite(id, es, times.final);
        case AppendWriteCommand(id, _, es) =>
          var answer := AppendWrite(id, es, times.final);
          appended := Some(answer);
        case TruncateCommand(id, size) => result := Truncate(id, size, times.final);
        case UnlinkCommand(parent, name) => result := Unlink(parent, name, times.removal);
        case RmdirCommand(parent, name) => result := Rmdir(parent, name, times.removal);
        case RenameCommand(op, on, np, nn) => result := Rename(DentryKey(op, on), DentryKey(np, nn), times);
        case CommandNotSet =>
      }
      if appended.Some? {
        response := match appended.value case Ok(a) => AppendReply(a) case Err(e) => ErrorReply(e);
      } else {
        response := match result case Ok(attrs) => AttrsReply(attrs) case Err(e) => ErrorReply(e);
      }
      if Valid(before) && before.nextInodeId < MAX_64 {
        assert (Abstract(), response) == MetaSpec.Apply(before, c, times);
        ApplyKeepsValid(before, c, times);
        ValidHasNoDangling(Abstract());
      }
    }

    // ---------- queries ----------

    /** The sorted, duplicate-free list of exactly the live object keys. */
    method ListLiveObjects() returns (keys: seq<string>)
      ensures KeyLists.StrictlySorted(keys)
      ensures forall key :: key in keys <==> Live(Abstract(), key)
    {
      var all: seq<string> := [];
      var rest := layouts.Keys;
      while rest != {}
        invariant rest <= layouts.Keys
        invariant forall key :: key in all <==>
                    key != "" && exists id :: id in layouts && id !in rest && key in Keys(layouts[id].extents)
      {
        var id :| id in rest;
        var found := NonEmptyKeys(layouts[id].extents);
        ghost var before := all;
        all := all + found;
        forall key ensures key in all <==>
            key != "" && exists x :: x in layouts && x !in rest - {id} && key in Keys(layouts[x].extents)
        {
          if key != "" && key in Keys(layouts[id].extents) {
            assert id in layouts && id !in rest - {id};
          }
        }
        rest := rest - {id};
      }
      keys := KeyLists.SortUnique(all);
      forall key ensures key in keys <==> Live(Abstract(), key) {
        LiveInKeys(Abstract(), key);
      }
    }

    static method NonEmptyKeys(xs: seq<FileExtent>) returns (keys: seq<string>)
      ensures forall key :: key in keys <==> key != "" && key in Keys(xs)
    {
      keys := [];
      for i := 0 to |xs|
        invariant forall key :: key in keys <==>
                    key != "" && exists j :: 0 <= j < i && xs[j].objectKey == key
      {
        if xs[i].objectKey != "" {
          keys := keys + [xs[i].objectKey];
        }
      }
    }

    method GetLayout(id: u64) returns (result: Result<FileLayout>)
      ensures result == MetaSpec.GetLayout(Abstract(), id)
    {
      var bad := FileError(State(nextInodeId, defaultChunkSize, inodes, dentries, layouts), id);
      if bad.Some? {
        return Err(bad.value);
      }
      return Ok(layouts[id].(attrs := inodes[id]));
    }

    // ---------- snapshots ----------

    method SerializeSnapshot() returns (m: MetaSnapshot)
      ensures IsSnapshotOf(Abstract(), m)
    {
      hide ListsInodes, ListsDentries, ListsLayouts;
      var attrs := ListInodes();
      var entries := ListDentries();
      var files := ListLayouts();
      m := MetaSnapshot(nextInodeId, defaultChunkSize, attrs, entries, files);
    }

    /** The first loop of the snapshot. */
    method ListInodes() returns (xs: seq<InodeAttrs>)
      ensures ListsInodes(inodes, xs)
    {
      xs := [];
      ghost var ids: seq<u64> := [];
      var rest := inodes.Keys;
      while rest != {}
        invariant rest <= inodes.Keys && |xs| == |ids|
        invariant forall i :: 0 <= i < |ids| ==> ids[i] in inodes && xs[i] == inodes[ids[i]]
        invariant forall i, j :: 0 <= i < j < |ids| ==> ids[i] < ids[j]
        invariant forall i, y :: 0 <= i < |ids| && y in rest ==> ids[i] < y
        invariant forall id :: id in inodes ==> id in rest || id in ids
      {
        LeastExists(rest);
        var id :| IsLeast(rest, id);
        xs, ids := xs + [inodes[id]], ids + [id];
        rest := rest - {id};
      }
      assert InOrder(ids, inodes.Keys);
    }

    /** The second loop. */
    method ListDentries() returns (xs: seq<SnapshotDentry>)
      ensures ListsDentries(dentries, xs)
    {
      xs := [];
      var rest := dentries.Keys;
      hide Before;
      while rest != {}
        invariant rest <= dentries.Keys
        invariant forall i :: 0 <= i < |xs| ==> KeyOf(xs[i]) in dentries && dentries[KeyOf(xs[i])] == xs[i].child
        invariant forall i, j :: 0 <= i < j < |xs| ==> Before(KeyOf(xs[i]), KeyOf(xs[j]))
        invariant forall i, l :: 0 <= i < |xs| && l in rest ==> Before(KeyOf(xs[i]), l)
        invariant forall k :: k in dentries && k !in rest ==> SnapshotDentry(k.parent, k.name, dentries[k]) in xs
      {
        FirstExists(rest);
        var k :| IsFirst(rest, k);
        xs := xs + [SnapshotDentry(k.parent, k.name, dentries[k])];
        rest := rest - {k};
      }
    }

    /** The third loop. */
    method ListLayouts() returns (xs: seq<SnapshotLayout>)
      ensures ListsLayouts(layouts, xs)
    {
      xs := [];
      var rest := layouts.Keys;
      while rest != {}
        invariant rest <= layouts.Keys
        invariant forall i :: 0 <= i < |xs| ==> xs[i].inodeId in layouts && layouts[xs[i].inodeId] == xs[i].layout
        invariant forall i, j :: 0 <= i < j < |xs| ==> xs[i].inodeId < xs[j].inodeId
        invariant forall i, y :: 0 <= i < |xs| && y in rest ==> xs[i].inodeId < y
        invariant forall id :: id in layouts && id !in rest ==> SnapshotLayout(id, layouts[id]) in xs
      {
        LeastExists(rest);
        var id :| IsLeast(rest, id);
        xs := xs + [SnapshotLayout(id, layouts[id])];
        rest := rest - {id};
      }
    }

    method RestoreSnapshot(m: MetaSnapshot) returns (result: Result<()>)
      modifies this
      ensures Outcome(Abstract(), result) == Restore(old(Abstract()), m)
    {
      hide EmplaceInodes, EmplaceDentries, EmplaceLayouts, DentriesKnown, LayoutsKnown;
      var attrs := ReadInodes(m.inodes);
      if ROOT !in attrs {
        return Err(InvalidArgument);
      }
      var entries := ReadDentries(m.dentries, attrs);
      if entries.None? {
        return Err(InvalidArgument);
      }
      var files := ReadLayouts(m.layouts, attrs);
      if files.None? {
        return Err(InvalidArgument);
      }
      nextInodeId, defaultChunkSize := m.nextInodeId, m.defaultChunkSize;
      inodes, dentries, layouts := attrs, entries.value, files.value;
      return Ok(());
    }

    /** The first loop of restoring. */
    static method ReadInodes(xs: seq<InodeAttrs>) returns (t: map<u64, InodeAttrs>)
      ensures t == EmplaceInodes(xs)
    {
      t := map[];
      for i := 0 to |xs|
        invariant t == EmplaceInodes(xs[..i])
      {
        assert xs[..i + 1][..i] == xs[..i];
        if xs[i].inodeId !in t {
          t := t[xs[i].inodeId := xs[i]];
        }
      }
      assert xs[..|xs|] == xs;
    }

    /** The second loop, which stops at an entry that joins no two inodes. */
    static method ReadDentries(xs: seq<SnapshotDentry>, inodes: map<u64, InodeAttrs>) returns (t: Option<Dentries>)
      ensures t == if DentriesKnown(inodes, xs) then Some(EmplaceDentries(xs)) else None
    {
      var d: Dentries := map[];
      for i := 0 to |xs|
        invariant d == EmplaceDentries(xs[..i])
        invariant forall j :: 0 <= j < i ==> xs[j].parent in inodes && xs[j].child in inodes
      {
        assert xs[..i + 1][..i] == xs[..i];
        if xs[i].parent !in inodes || xs[i].child !in inodes {
          return None;
        }
        if KeyOf(xs[i]) !in d {
          d := d[KeyOf(xs[i]) := xs[i].child];
        }
      }
      assert xs[..|xs|] == xs;
      return Some(d);
    }

    /** The third loop, which stops at a layout of no inode. */
    static method ReadLayouts(xs: seq<SnapshotLayout>, inodes: map<u64, InodeAttrs>)
      returns (t: Option<map<u64, FileLayout>>)
      ensures t == if LayoutsKnown(inodes, xs) then Some(EmplaceLayouts(xs)) else None
    {
      var files: map<u64, FileLayout> := map[];
      for i := 0 to |xs|
        invariant files == EmplaceLayouts(xs[..i])
        invariant forall j :: 0 <= j < i ==> xs[j].inodeId in inodes
      {
        assert xs[..i + 1][..i] == xs[..i];
        if xs[i].inodeId !in inodes {
          return None;
        }
        if xs[i].inodeId !in files {
          files := files[xs[i].inodeId := xs[i].layout];
        }
      }
      assert xs[..|xs|] == xs;
      return Some(files);
    }
  }

  // ---------- small facts the methods use ----------

  lemma FirstIsLeast(d: Dentries, id: u64, rest: set<DentryKey>, k: DentryKey)
    requires rest <= d.Keys && IsFirst(rest, k) && d[k] == id && id != ROOT
    requires forall l :: l in d && l !in rest ==> d[l] != id
    ensures Up(d, id) == k.parent
  {
    assert k.parent in ParentsIn(d, id);
    assert IsLeast(ParentsIn(d, id), k.parent);
  }

  lemma RootStays(d: Dentries)
    ensures Up(d, ROOT) == ROOT
  {
  }

  lemma NamedParents(inodes: map<u64, InodeAttrs>, parent: u64, name: string)
    requires ParentError(inodes, parent, name).None?
    ensures parent in inodes && inodes[parent].kind.Directory?
  {
  }

  /** A replaced target holds neither the source nor the target entry. */
  lemma TargetHoldsNeither(s: State, oldKey: DentryKey, newKey: DentryKey)
    requires NoDangling(s) && oldKey in s.dentries && newKey in s.dentries
    requires s.inodes[oldKey.parent].kind.Directory? && s.inodes[newKey.parent].kind.Directory?
    requires ReplaceError(s, s.dentries[oldKey], newKey).None?
    ensures oldKey.parent != s.dentries[newKey] && newKey.parent != s.dentries[newKey]
  {
  }

  lemma MergeAllNone(xs: seq<FileExtent>)
    ensures MergeAll(xs, []) == xs
  {
  }

  lemma MergeAllSnoc(xs: seq<FileExtent>, es: seq<FileExtent>, e: FileExtent)
    ensures MergeAll(xs, es + [e]) == Merged(MergeAll(xs, es), e)
  {
    assert (es + [e])[..|es|] == es;
  }

  lemma NothingAppended(start: u64)
    ensures ShiftAll([], start) == [] && MaxEnd(0, []) == 0
  {
  }

  lemma ShiftAllNext(es: seq<FileExtent>, start: u64, i: nat)
    requires i < |es|
    ensures ShiftAll(es[..i + 1], start) == ShiftAll(es[..i], start) + [Shift(es[i], start)]
    ensures MaxEnd(0, es[..i + 1]) == Max64(MaxEnd(0, es[..i]), ExtentEnd(es[i]))
  {
    assert es[..i + 1][..i] == es[..i];
  }

  lemma MergeAllNext(xs: seq<FileExtent>, es: seq<FileExtent>, i: nat)
    requires i < |es|
    ensures MergeAll(xs, es[..i + 1]) == Merged(MergeAll(xs, es[..i]), es[i])
  {
    assert es[..i + 1][..i] == es[..i];
  }
}
