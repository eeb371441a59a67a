/** The invariant of the metadata tables, kept by every command and so by every run. */
module MetaInvariant {
  import opened Types
  import opened Extents
  import opened Namespace
  import opened Ancestry
  import opened MetaSpec

  function KindsOf(s: State): Kinds {
    map id | id in s.inodes :: s.inodes[id].kind
  }

  /** Ids are the map keys and were handed out; only files and directories; only valid names. */
  ghost predicate Numbered(s: State) {
    && ROOT < s.nextInodeId
    && (forall id :: id in s.inodes ==>
                       s.inodes[id].inodeId == id && 1 <= id < s.nextInodeId && !s.inodes[id].kind.UnspecifiedType?)
    && (forall k :: k in s.dentries ==> ValidName(k.name))
  }

  ghost function LinkCount(kinds: Kinds, d: Dentries, id: u64): nat
    requires id in kinds
  {
    if kinds[id].Directory? then 2 + |ChildDirs(kinds, d, id)| else 1
  }

  /** A directory's link count is 2 plus its child directories, a file's is 1. */
  ghost predicate Linked(s: State) {
    forall id :: id in s.inodes ==> s.inodes[id].nlink == LinkCount(KindsOf(s), s.dentries, id)
  }

  /** Exactly the files have layouts, and each layout carries its inode's attributes. */
  ghost predicate Cached(s: State) {
    && (forall id :: id in s.layouts <==> id in s.inodes && s.inodes[id].kind.File?)
    && (forall id :: id in s.layouts ==> s.layouts[id].attrs == s.inodes[id])
  }

  ghost predicate Valid(s: State) {
    Tree(KindsOf(s), s.dentries) && Numbered(s) && Linked(s) && Cached(s)
  }

  lemma ValidHasNoDangling(s: State)
    requires Valid(s)
    ensures NoDangling(s)
  {
    assert forall id :: id in KindsOf(s) <==> id in s.inodes;
  }

  lemma InitialIsValid(chunkSize: u64, now: i64)
    ensures Valid(InitialState(chunkSize, now))
  {
    var s := InitialState(chunkSize, now);
    assert ChildDirs(KindsOf(s), s.dentries, ROOT) == {};
    ReachesSelf(s.dentries, ROOT);
  }

  /** Ids bound the link counts of any valid namespace. */
  lemma LinkCountBound(s: State, id: u64)
    requires Valid(s) && id in s.inodes
    ensures LinkCount(KindsOf(s), s.dentries, id) <= s.nextInodeId
  {
    ChildDirsBound(KindsOf(s), s.dentries, id, s.nextInodeId);
  }

  /** s' differs from s only in attributes other than id, type and link count, and in extent lists. */
  ghost predicate SameShape(s: State, s': State) {
    && s'.dentries == s.dentries && s'.nextInodeId == s.nextInodeId && s'.inodes.Keys == s.inodes.Keys
    && (forall id :: id in s.inodes ==>
                       && s'.inodes[id].inodeId == s.inodes[id].inodeId
                       && s'.inodes[id].kind == s.inodes[id].kind
                       && s'.inodes[id].nlink == s.inodes[id].nlink)
    && s'.layouts.Keys == s.layouts.Keys
    && (forall id :: id in s'.layouts ==> id in s'.inodes && s'.layouts[id].attrs == s'.inodes[id])
  }

  lemma SameShapeKeeps(s: State, s': State)
    requires Valid(s) && SameShape(s, s')
    ensures Valid(s')
  {
    assert KindsOf(s') == KindsOf(s);
  }

  // ---------- creating ----------

  /** The tables after a creation, entry by entry. */
  lemma WithNodeShape(s: State, key: DentryKey, attrs: InodeAttrs, now: i64)
    requires key.parent in s.inodes && attrs.inodeId !in s.inodes && attrs.inodeId !in s.layouts
    ensures var s', id := WithNode(s, key, attrs, now), attrs.inodeId;
            && s'.inodes.Keys == s.inodes.Keys + {id} && s'.inodes[id] == attrs
            && s'.dentries == s.dentries[key := id] && s'.nextInodeId == Add64(s.nextInodeId, 1)
            && (forall x :: x in s.inodes ==>
                  && s'.inodes[x].inodeId == s.inodes[x].inodeId && s'.inodes[x].kind == s.inodes[x].kind
                  && s'.inodes[x].nlink == (if x == key.parent && attrs.kind.Directory?
                                            then Add64(s.inodes[x].nlink, 1) else s.inodes[x].nlink)
                  && (x != key.parent ==> s'.inodes[x] == s.inodes[x]))
            && s'.layouts == (if attrs.kind.File?
                              then s.layouts[id := FileLayout(attrs, s.defaultChunkSize, [])] else s.layouts)
            && KindsOf(s') == KindsOf(s)[id := attrs.kind]
  {
    hide WithNode;
    WithNodeTables(s, key, attrs, now);
    forall x | x in s.inodes ensures WithNode(s, key, attrs, now).inodes[x].kind == s.inodes[x].kind {
      WithNodeAt(s, key, attrs, now, x);
    }
    forall x | x in s.inodes {
      WithNodeAt(s, key, attrs, now, x);
    }
  }

  lemma WithNodeTables(s: State, key: DentryKey, attrs: InodeAttrs, now: i64)
    requires key.parent in s.inodes && attrs.inodeId !in s.inodes && attrs.inodeId !in s.layouts
    ensures var s', id := WithNode(s, key, attrs, now), attrs.inodeId;
            && s'.inodes.Keys == s.inodes.Keys + {id} && s'.inodes[id] == attrs
            && s'.dentries == s.dentries[key := id] && s'.nextInodeId == Add64(s.nextInodeId, 1)
            && s'.layouts == (if attrs.kind.File?
                              then s.layouts[id := FileLayout(attrs, s.defaultChunkSize, [])] else s.layouts)
  {
  }

  lemma WithNodeAt(s: State, key: DentryKey, attrs: InodeAttrs, now: i64, x: u64)
    requires key.parent in s.inodes && attrs.inodeId !in s.inodes && x in s.inodes
    ensures var s' := WithNode(s, key, attrs, now);
            && x in s'.inodes
            && s'.inodes[x].inodeId == s.inodes[x].inodeId && s'.inodes[x].kind == s.inodes[x].kind
            && s'.inodes[x].nlink == (if x == key.parent && attrs.kind.Directory?
                                      then Add64(s.inodes[x].nlink, 1) else s.inodes[x].nlink)
            && (x != key.parent ==> s'.inodes[x] == s.inodes[x])
  {
  }

  lemma WithNodeLinkedAt(s: State, key: DentryKey, attrs: InodeAttrs, now: i64, x: u64)
    requires Wired(KindsOf(s), s.dentries) && key !in s.dentries && key.parent in s.inodes
    requires attrs.inodeId == s.nextInodeId && s.nextInodeId < MAX_64 && attrs.inodeId !in s.inodes
    requires attrs.inodeId !in s.layouts && attrs.nlink == if attrs.kind.Directory? then 2 else 1
    requires x in s.inodes && x != attrs.inodeId
    requires s.inodes[key.parent].kind.Directory?
    requires s.inodes[x].nlink == LinkCount(KindsOf(s), s.dentries, x) <= s.nextInodeId
    ensures var s' := WithNode(s, key, attrs, now);
            x in s'.inodes && x in KindsOf(s') && s'.inodes[x].nlink == LinkCount(KindsOf(s'), s'.dentries, x)
  {
    var s', id, kinds := WithNode(s, key, attrs, now), attrs.inodeId, KindsOf(s);
    WithNodeShape(s, key, attrs, now);
    AddCountsChild(kinds, s.dentries, key, id, attrs.kind, x);
    assert KindsOf(s')[x] == kinds[x];
  }

  lemma WithNodeLinkedNew(s: State, key: DentryKey, attrs: InodeAttrs, now: i64)
    requires Valid(s) && key !in s.dentries && key.parent in s.inodes
    requires attrs.inodeId !in s.inodes && attrs.inodeId !in s.layouts
    requires attrs.nlink == if attrs.kind.Directory? then 2 else 1
    ensures var s', id := WithNode(s, key, attrs, now), attrs.inodeId;
            id in s'.inodes && id in KindsOf(s') && s'.inodes[id].nlink == LinkCount(KindsOf(s'), s'.dentries, id)
  {
    var id := attrs.inodeId;
    WithNodeShape(s, key, attrs, now);
    AddCountsChild(KindsOf(s), s.dentries, key, id, attrs.kind, id);
    FreshIsChildless(s, id);
  }

  lemma FreshIsChildless(s: State, id: u64)
    requires Valid(s) && id !in s.inodes
    ensures ChildDirs(KindsOf(s), s.dentries, id) == {}
  {
    ValidHasNoDangling(s);
  }

  lemma WithNodeNumbered(s: State, key: DentryKey, attrs: InodeAttrs, now: i64)
    requires Numbered(s) && Cached(s) && ValidName(key.name)
    requires key.parent in s.inodes && s.inodes[key.parent].kind.Directory?
    requires attrs.inodeId == s.nextInodeId && s.nextInodeId < MAX_64 && !attrs.kind.UnspecifiedType?
    ensures Numbered(WithNode(s, key, attrs, now)) && Cached(WithNode(s, key, attrs, now))
  {
    WithNodeShape(s, key, attrs, now);
  }

  lemma WithNodeKeeps(s: State, key: DentryKey, attrs: InodeAttrs, now: i64)
    requires Valid(s) && key !in s.dentries && ValidName(key.name)
    requires key.parent in s.inodes && s.inodes[key.parent].kind.Directory?
    requires attrs.inodeId == s.nextInodeId && s.nextInodeId < MAX_64
    requires !attrs.kind.UnspecifiedType? && attrs.nlink == if attrs.kind.Directory? then 2 else 1
    ensures Valid(WithNode(s, key, attrs, now))
  {
    var s', id := WithNode(s, key, attrs, now), attrs.inodeId;
    assert id !in s.inodes && id !in s.layouts;
    assert Wired(KindsOf(s), s.dentries);
    hide WithNode, Tree, Wired, Numbered, Cached, KindsOf, ChildDirs;
    WithNodeNumbered(s, key, attrs, now);
    WithNodeTree(s, key, attrs, now);
    forall x | x in s'.inodes
      ensures x in KindsOf(s') && s'.inodes[x].nlink == LinkCount(KindsOf(s'), s'.dentries, x)
    {
      WithNodeLinkedAny(s, key, attrs, now, x);
    }
  }

  lemma WithNodeLinkedAny(s: State, key: DentryKey, attrs: InodeAttrs, now: i64, x: u64)
    requires Valid(s) && key !in s.dentries && key.parent in s.inodes && s.inodes[key.parent].kind.Directory?
    requires attrs.inodeId == s.nextInodeId && s.nextInodeId < MAX_64
    requires attrs.inodeId !in s.inodes && attrs.inodeId !in s.layouts
    requires attrs.nlink == if attrs.kind.Directory? then 2 else 1
    requires x in WithNode(s, key, attrs, now).inodes
    ensures var s' := WithNode(s, key, attrs, now);
            x in KindsOf(s') && s'.inodes[x].nlink == LinkCount(KindsOf(s'), s'.dentries, x)
  {
    if x == attrs.inodeId {
      WithNodeLinkedNew(s, key, attrs, now);
    } else {
      WithNodeShape(s, key, attrs, now);
      LinkCountBound(s, x);
      hide WithNode;
      WithNodeLinkedAt(s, key, attrs, now, x);
    }
  }

  lemma WithNodeTree(s: State, key: DentryKey, attrs: InodeAttrs, now: i64)
    requires Tree(KindsOf(s), s.dentries) && key !in s.dentries
    requires key.parent in s.inodes && s.inodes[key.parent].kind.Directory?
    requires attrs.inodeId !in s.inodes && attrs.inodeId !in s.layouts
    ensures Tree(KindsOf(WithNode(s, key, attrs, now)), WithNode(s, key, attrs, now).dentries)
  {
    WithNodeShape(s, key, attrs, now);
    AddKeepsTree(KindsOf(s), s.dentries, key, attrs.inodeId, attrs.kind);
  }

  // ---------- removing ----------

  /** The tables after a removal, entry by entry. */
  lemma WithoutNodeShape(s: State, key: DentryKey, now: i64)
    requires key in s.dentries && s.dentries[key] in s.inodes
    requires key.parent in s.inodes && key.parent != s.dentries[key]
    requires key.parent !in s.layouts
    ensures var s', id := WithoutNode(s, key, now), s.dentries[key];
            && s'.inodes.Keys == s.inodes.Keys - {id}
            && s'.dentries == s.dentries - {key} && s'.nextInodeId == s.nextInodeId
            && (forall x :: x in s'.inodes ==>
                  && s'.inodes[x].inodeId == s.inodes[x].inodeId && s'.inodes[x].kind == s.inodes[x].kind
                  && s'.inodes[x].nlink == (if x == key.parent && s.inodes[id].kind.Directory?
                                            then Sub64(s.inodes[x].nlink, 1) else s.inodes[x].nlink)
                  && (x != key.parent ==> s'.inodes[x] == s.inodes[x]))
            && s'.layouts == s.layouts - {id}
            && KindsOf(s') == KindsOf(s) - {id}
  {
  }

  lemma WithoutNodeLinked(s: State, key: DentryKey, now: i64)
    requires Valid(s) && key in s.dentries && s.dentries[key] in s.inodes
    requires key.parent in s.inodes && key.parent != s.dentries[key] && key.parent !in s.layouts
    ensures Linked(WithoutNode(s, key, now))
  {
    var s' := WithoutNode(s, key, now);
    WithoutNodeShape(s, key, now);
    forall x | x in s'.inodes ensures s'.inodes[x].nlink == LinkCount(KindsOf(s'), s'.dentries, x) {
      RemoveCountsChild(KindsOf(s), s.dentries, key, x);
      assert s.inodes[x].nlink == LinkCount(KindsOf(s), s.dentries, x);
    }
  }

  lemma ParentsAreDirectories(s: State, key: DentryKey)
    requires Valid(s) && key in s.dentries
    ensures key.parent in s.inodes && s.inodes[key.parent].kind.Directory? && key.parent !in s.layouts
    ensures s.dentries[key] in s.inodes
  {
    assert key.parent in KindsOf(s) && s.dentries[key] in KindsOf(s);
  }

  lemma WithoutNodeKeeps(s: State, key: DentryKey, now: i64)
    requires Valid(s) && key in s.dentries && Leaf(s.dentries, s.dentries[key])
    requires key.parent in s.inodes && s.dentries[key] in s.inodes && key.parent != s.dentries[key]
    ensures Valid(WithoutNode(s, key, now))
  {
    ParentsAreDirectories(s, key);
    WithoutNodeShape(s, key, now);
    RemoveKeepsTree(KindsOf(s), s.dentries, key);
    WithoutNodeLinked(s, key, now);
    assert Numbered(WithoutNode(s, key, now));
    assert Cached(WithoutNode(s, key, now));
  }

  /** A file holds no entries. */
  lemma FilesAreLeaves(s: State, id: u64)
    requires Valid(s) && id in s.inodes && !s.inodes[id].kind.Directory?
    ensures Leaf(s.dentries, id)
  {
    forall k | k in s.dentries ensures k.parent != id {
      assert k.parent in KindsOf(s);
    }
  }

  // ---------- renaming ----------

  /** The link count of one inode after the bookkeeping of a rename. */
  function RelinkedLinks(s: State, oldKey: DentryKey, newKey: DentryKey, x: u64): u64
    requires x in s.inodes && oldKey in s.dentries && s.dentries[oldKey] in s.inodes
  {
    var n := s.inodes[x].nlink;
    if oldKey.parent == newKey.parent || !s.inodes[s.dentries[oldKey]].kind.Directory? then n
    else if x == oldKey.parent then Sub64(n, 1)
    else if x == newKey.parent then Add64(n, 1)
    else n
  }

  /** The tables after a rename to a free name, entry by entry. */
  lemma RelinkedShape(s: State, oldKey: DentryKey, newKey: DentryKey, now: i64)
    requires oldKey in s.dentries && s.dentries[oldKey] in s.inodes
    requires oldKey.parent in s.inodes && newKey.parent in s.inodes
    requires oldKey.parent !in s.layouts && newKey.parent !in s.layouts
    ensures var s', id := Relinked(s, oldKey, newKey, now), s.dentries[oldKey];
            && s'.inodes.Keys == s.inodes.Keys
            && s'.dentries == Moved(s.dentries, oldKey, newKey) && s'.nextInodeId == s.nextInodeId
            && s'.layouts == (if id in s.layouts
                              then s.layouts[id := s.layouts[id].(attrs := s'.inodes[id])] else s.layouts)
  {
  }

  lemma RelinkedAt(s: State, oldKey: DentryKey, newKey: DentryKey, now: i64, x: u64)
    requires oldKey in s.dentries && s.dentries[oldKey] in s.inodes && x in s.inodes
    requires oldKey.parent in s.inodes && newKey.parent in s.inodes
    ensures var s', id := Relinked(s, oldKey, newKey, now), s.dentries[oldKey];
            && x in s'.inodes
            && s'.inodes[x].inodeId == s.inodes[x].inodeId && s'.inodes[x].kind == s.inodes[x].kind
            && s'.inodes[x].nlink == RelinkedLinks(s, oldKey, newKey, x) && s'.inodes[x].size == s.inodes[x].size
            && (x != id && x != oldKey.parent && x != newKey.parent ==> s'.inodes[x] == s.inodes[x])
  {
  }

  lemma RelinkedKinds(s: State, oldKey: DentryKey, newKey: DentryKey, now: i64)
    requires oldKey in s.dentries && s.dentries[oldKey] in s.inodes
    requires oldKey.parent in s.inodes && newKey.parent in s.inodes
    requires oldKey.parent !in s.layouts && newKey.parent !in s.layouts
    ensures KindsOf(Relinked(s, oldKey, newKey, now)) == KindsOf(s)
  {
    RelinkedShape(s, oldKey, newKey, now);
    forall x | x in s.inodes ensures Relinked(s, oldKey, newKey, now).inodes[x].kind == s.inodes[x].kind {
      RelinkedAt(s, oldKey, newKey, now, x);
    }
  }

  lemma RelinkedLinkedAt(s: State, oldKey: DentryKey, newKey: DentryKey, now: i64, x: u64)
    requires Valid(s) && oldKey in s.dentries && newKey !in s.dentries && s.dentries[oldKey] in s.inodes
    requires oldKey.parent in s.inodes && newKey.parent in s.inodes && x in s.inodes
    requires s.inodes[oldKey.parent].kind.Directory? && s.inodes[newKey.parent].kind.Directory?
    requires oldKey.parent !in s.layouts && newKey.parent !in s.layouts
    ensures var s' := Relinked(s, oldKey, newKey, now);
            x in s'.inodes && x in KindsOf(s) && s'.inodes[x].nlink == LinkCount(KindsOf(s), s'.dentries, x)
  {
    var kinds := KindsOf(s);
    RelinkedShape(s, oldKey, newKey, now);
    RelinkedAt(s, oldKey, newKey, now, x);
    MoveCountsChild(kinds, s.dentries, oldKey, newKey, x);
    MovedStaysInjective(s, oldKey, newKey);
    ChildDirsBound(kinds, Moved(s.dentries, oldKey, newKey), x, s.nextInodeId);
    assert s.inodes[x].nlink == LinkCount(kinds, s.dentries, x);
  }

  lemma RelinkedNumbered(s: State, oldKey: DentryKey, newKey: DentryKey, now: i64)
    requires Numbered(s) && Cached(s) && oldKey in s.dentries && ValidName(newKey.name)
    requires s.dentries[oldKey] in s.inodes && oldKey.parent in s.inodes && newKey.parent in s.inodes
    requires s.inodes[oldKey.parent].kind.Directory? && s.inodes[newKey.parent].kind.Directory?
    ensures Numbered(Relinked(s, oldKey, newKey, now)) && Cached(Relinked(s, oldKey, newKey, now))
  {
    var s' := Relinked(s, oldKey, newKey, now);
    RelinkedShape(s, oldKey, newKey, now);
    forall x | x in s.inodes
      ensures s'.inodes[x].inodeId == s.inodes[x].inodeId && s'.inodes[x].kind == s.inodes[x].kind
      ensures x in s.layouts && x != s.dentries[oldKey] ==> s'.inodes[x] == s.inodes[x]
    {
      RelinkedAt(s, oldKey, newKey, now, x);
    }
  }

  lemma MovedStaysInjective(s: State, oldKey: DentryKey, newKey: DentryKey)
    requires Valid(s) && oldKey in s.dentries && newKey !in s.dentries
    ensures var d := Moved(s.dentries, oldKey, newKey);
            Injective(d) && forall k :: k in d ==> 1 <= d[k] < s.nextInodeId
  {
    forall k | k in s.dentries ensures 1 <= s.dentries[k] < s.nextInodeId {
      ParentsAreDirectories(s, k);
    }
  }

  lemma RelinkedKeeps(s: State, oldKey: DentryKey, newKey: DentryKey, now: i64)
    requires Valid(s) && oldKey in s.dentries && newKey !in s.dentries && ValidName(newKey.name)
    requires s.dentries[oldKey] in s.inodes && oldKey.parent in s.inodes
    requires newKey.parent in s.inodes && s.inodes[newKey.parent].kind.Directory?
    requires !Reaches(s.dentries, s.dentries[oldKey], newKey.parent)
    ensures Valid(Relinked(s, oldKey, newKey, now))
  {
    var s' := Relinked(s, oldKey, newKey, now);
    ParentsAreDirectories(s, oldKey);
    RelinkedNumbered(s, oldKey, newKey, now);
    RelinkedShape(s, oldKey, newKey, now);
    RelinkedKinds(s, oldKey, newKey, now);
    assert Tree(KindsOf(s'), s'.dentries) by {
      MoveKeepsTree(KindsOf(s), s.dentries, oldKey, newKey);
    }
    forall x | x in s'.inodes ensures s'.inodes[x].nlink == LinkCount(KindsOf(s'), s'.dentries, x) {
      RelinkedLinkedAt(s, oldKey, newKey, now, x);
    }
  }

  // ---------- every command ----------

  /** On a valid server every walk ends. */
  lemma ValidWalksEnd(s: State, c: Command)
    requires Valid(s)
    ensures CommandWalkEnds(s, c)
  {
    if c.RenameCommand? && c.newParent in s.inodes && DentryKey(c.parent, c.name) in s.dentries {
      assert c.newParent in KindsOf(s);
      TreeWalksEnd(KindsOf(s), s.dentries, s.dentries[DentryKey(c.parent, c.name)], c.newParent);
    }
  }

  /** A file moved or a directory the target is not below: the target is outside the subtree. */
  lemma GuardKeepsOutside(s: State, oldKey: DentryKey, newParent: u64)
    requires Valid(s) && oldKey in s.dentries && s.dentries[oldKey] in s.inodes
    requires newParent in s.inodes && s.inodes[newParent].kind.Directory?
    requires s.inodes[s.dentries[oldKey]].kind.Directory? ==> !Above(s.dentries, s.dentries[oldKey], newParent)
    ensures !Reaches(s.dentries, s.dentries[oldKey], newParent)
  {
    var moved := s.dentries[oldKey];
    AboveIsReaches(s.dentries, moved, newParent);
    if !s.inodes[moved].kind.Directory? {
      FilesAreLeaves(s, moved);
      if p :| Resolve(s.dentries, moved, p) == Some(newParent) {
        LeafReaches(s.dentries, moved, p);
      }
    }
  }

  lemma RenameKeepsValid(s: State, oldKey: DentryKey, newKey: DentryKey, times: Times)
    requires Valid(s) && NoDangling(s)
    ensures Valid(Rename(s, oldKey, newKey, times).state)
  {
    if Rename(s, oldKey, newKey, times).result.Ok? && !(newKey in s.dentries && s.dentries[newKey] == s.dentries[oldKey]) {
      GuardKeepsOutside(s, oldKey, newKey.parent);
      if newKey !in s.dentries {
        RelinkedKeeps(s, oldKey, newKey, times.final);
      } else {
        TargetIsLeaf(s, s.dentries[oldKey], newKey);
        ReplaceKeepsValid(s, oldKey, newKey, times);
      }
    }
  }

  lemma ReplaceKeepsValid(s: State, oldKey: DentryKey, newKey: DentryKey, times: Times)
    requires Valid(s) && oldKey in s.dentries && newKey in s.dentries && s.dentries[oldKey] in s.inodes
    requires s.dentries[oldKey] != s.dentries[newKey] && ValidName(newKey.name)
    requires Leaf(s.dentries, s.dentries[newKey]) && newKey.parent != s.dentries[newKey]
    requires s.dentries[newKey] in s.inodes && newKey.parent in s.inodes && oldKey.parent in s.inodes
    requires s.inodes[newKey.parent].kind.Directory?
    requires !Reaches(s.dentries, s.dentries[oldKey], newKey.parent)
    ensures var s1 := WithoutNode(s, newKey, times.removal);
            && oldKey in s1.dentries && s1.dentries[oldKey] in s1.inodes
            && oldKey.parent in s1.inodes && newKey.parent in s1.inodes
            && Valid(Relinked(s1, oldKey, newKey, times.final))
  {
    TargetRemoved(s, oldKey, newKey, times.removal);
    WithoutNodeKeeps(s, newKey, times.removal);
    RelinkedKeeps(WithoutNode(s, newKey, times.removal), oldKey, newKey, times.final);
  }

  lemma TargetIsLeaf(s: State, moved: u64, newKey: DentryKey)
    requires Valid(s) && newKey in s.dentries && s.dentries[newKey] in s.inodes && moved in s.inodes
    requires ReplaceError(s, moved, newKey).None?
    ensures Leaf(s.dentries, s.dentries[newKey]) && newKey.parent != s.dentries[newKey]
  {
    if !s.inodes[s.dentries[newKey]].kind.Directory? {
      FilesAreLeaves(s, s.dentries[newKey]);
    }
  }

  /** Removing the replaced target of a rename leaves source, directories and ancestry in place. */
  lemma TargetRemoved(s: State, oldKey: DentryKey, newKey: DentryKey, now: i64)
    requires Valid(s) && oldKey in s.dentries && newKey in s.dentries
    requires s.dentries[oldKey] != s.dentries[newKey]
    requires Leaf(s.dentries, s.dentries[newKey]) && newKey.parent != s.dentries[newKey]
    requires s.dentries[newKey] in s.inodes && newKey.parent in s.inodes
    requires !Reaches(s.dentries, s.dentries[oldKey], newKey.parent)
    ensures oldKey.parent != s.dentries[newKey]
    ensures var s1 := WithoutNode(s, newKey, now);
            && newKey !in s1.dentries
            && oldKey in s1.dentries && s1.dentries[oldKey] == s.dentries[oldKey]
            && s1.inodes.Keys == s.inodes.Keys - {s.dentries[newKey]}
            && (forall id :: id in s1.inodes ==> s1.inodes[id].kind == s.inodes[id].kind)
            && !Reaches(s1.dentries, s.dentries[oldKey], newKey.parent)
  {
    hide Valid, WithoutNode, Reaches;
    ParentsAreDirectories(s, newKey);
    WithoutNodeShape(s, newKey, now);
    FewerEntriesReachLess(s.dentries, newKey, s.dentries[oldKey], newKey.parent);
  }

  lemma FewerEntriesReachLess(d: Dentries, k: DentryKey, a: u64, x: u64)
    ensures Reaches(d - {k}, a, x) ==> Reaches(d, a, x)
  {
    if p :| Resolve(d - {k}, a, p) == Some(x) {
      FewerEntriesResolveLess(d, k, a, p);
    }
  }

  lemma {:induction false} FewerEntriesResolveLess(d: Dentries, k: DentryKey, a: u64, p: Path)
    ensures Resolve(d - {k}, a, p).Some? ==> Resolve(d, a, p) == Resolve(d - {k}, a, p)
  {
    if p != [] {
      FewerEntriesResolveLess(d, k, a, p[..|p| - 1]);
    }
  }

  lemma RemovalKeepsValid(s: State, parent: u64, name: string, now: i64)
    requires Valid(s) && NoDangling(s)
    ensures Valid(Unlink(s, parent, name, now).state)
    ensures Valid(Rmdir(s, parent, name, now).state)
  {
    var key := DentryKey(parent, name);
    if Unlink(s, parent, name, now).result.Ok? {
      FilesAreLeaves(s, s.dentries[key]);
      WithoutNodeKeeps(s, key, now);
    }
    if Rmdir(s, parent, name, now).result.Ok? {
      WithoutNodeKeeps(s, key, now);
    }
  }

  lemma PutExtentsKeepsValid(s: State, id: u64, xs: seq<FileExtent>)
    requires Valid(s) && id in s.layouts
    ensures Valid(PutExtents(s, id, xs))
  {
    SameShapeKeeps(s, PutExtents(s, id, xs));
  }

  lemma ResizedKeepsValid(s: State, id: u64, size: u64, now: i64)
    requires Valid(s) && id in s.inodes
    ensures Valid(Resized(s, id, size, now))
  {
    PutBothSameShape(s, id, Stamped(s.inodes[id], now).(size := size));
    SameShapeKeeps(s, Resized(s, id, size, now));
  }

  lemma CommitKeepsValid(s: State, id: u64, es: seq<FileExtent>, now: i64)
    requires Valid(s)
    ensures Valid(CommitWrite(s, id, es, now).state)
  {
    hide Valid, MergeAll, Cut, ShiftAll, MaxEnd, Accepted, Resized;
    if FileError(s, id).None? {
      PutExtentsKeepsValid(s, id, MergeAll(s.layouts[id].extents, es[..Accepted(es)]));
      ResizedKeepsValid(PutExtents(s, id, MergeAll(s.layouts[id].extents, es[..Accepted(es)])), id,
                        MaxEnd(s.inodes[id].size, es), now);
    }
  }

  lemma AppendKeepsValid(s: State, id: u64, es: seq<FileExtent>, now: i64)
    requires Valid(s)
    ensures Valid(AppendWrite(s, id, es, now).state)
  {
    hide Valid, MergeAll, Cut, ShiftAll, MaxEnd, Accepted, Resized;
    if FileError(s, id).None? {
      var start := s.inodes[id].size;
      var xs := MergeAll(s.layouts[id].extents, ShiftAll(es[..Accepted(es)], start));
      PutExtentsKeepsValid(s, id, xs);
      ResizedKeepsValid(PutExtents(s, id, xs), id, Add64(start, MaxEnd(0, es)), now);
    }
  }

  lemma TruncateKeepsValid(s: State, id: u64, size: u64, now: i64)
    requires Valid(s)
    ensures Valid(Truncate(s, id, size, now).state)
  {
    hide Valid, MergeAll, Cut, ShiftAll, MaxEnd, Accepted, Resized;
    if FileError(s, id).None? {
      PutExtentsKeepsValid(s, id, Cut(s.layouts[id].extents, size));
      ResizedKeepsValid(PutExtents(s, id, Cut(s.layouts[id].extents, size)), id, size, now);
    }
  }

  lemma PutBothSameShape(s: State, id: u64, attrs: InodeAttrs)
    requires Cached(s) && id in s.inodes && attrs.inodeId == s.inodes[id].inodeId
    requires attrs.kind == s.inodes[id].kind && attrs.nlink == s.inodes[id].nlink
    ensures SameShape(s, PutBoth(s, id, attrs))
  {
  }

  lemma SetAttrKeepsValid(s: State, id: u64, args: SetAttrArgs, now: i64)
    requires Valid(s)
    ensures Valid(SetAttr(s, id, args, now).state)
  {
    if id in s.inodes {
      PutBothSameShape(s, id, SetAttr(s, id, args, now).result.value);
      SameShapeKeeps(s, SetAttr(s, id, args, now).state);
    }
  }

  lemma CreateKeepsValid(
      s: State, parent: u64, name: string, kind: InodeType, mode: u32, uid: u32, gid: u32, now: i64)
    requires Valid(s) && s.nextInodeId < MAX_64 && !kind.UnspecifiedType?
    ensures Valid(CreateNode(s, parent, name, kind, mode, uid, gid, now).state)
  {
    if CreateNode(s, parent, name, kind, mode, uid, gid, now).result.Ok? {
      WithNodeKeeps(s, DentryKey(parent, name),
                    NewInode(s.nextInodeId, kind, mode, uid, gid, now, s.defaultChunkSize), now);
    }
  }

  /** Every command keeps the invariant, as long as an inode number is left to hand out. */
  lemma ApplyKeepsValid(s: State, c: Command, times: Times)
    requires Valid(s) && NoDangling(s) && s.nextInodeId < MAX_64
    ensures Valid(Apply(s, c, times).0)
  {
    hide Valid, NoDangling, Apply;
    if c.CommitWriteCommand? || c.AppendWriteCommand? || c.TruncateCommand? || c.SetAttrCommand? {
      FileCommandKeepsValid(s, c, times);
    } else {
      NamespaceCommandKeepsValid(s, c, times);
    }
  }

  lemma FileCommandKeepsValid(s: State, c: Command, times: Times)
    requires Valid(s) && NoDangling(s)
    requires c.CommitWriteCommand? || c.AppendWriteCommand? || c.TruncateCommand? || c.SetAttrCommand?
    ensures Valid(Apply(s, c, times).0)
  {
    hide Valid, NoDangling, CommitWrite, AppendWrite, Truncate, SetAttr;
    match c {
      case SetAttrCommand(id, args) => SetAttrKeepsValid(s, id, args, times.final);
      case CommitWriteCommand(id, _, es) => CommitKeepsValid(s, id, es, times.final);
      case AppendWriteCommand(id, _, es) => AppendKeepsValid(s, id, es, times.final);
      case TruncateCommand(id, size) => TruncateKeepsValid(s, id, size, times.final);
    }
  }

  lemma NamespaceCommandKeepsValid(s: State, c: Command, times: Times)
    requires Valid(s) && NoDangling(s) && s.nextInodeId < MAX_64
    requires !(c.CommitWriteCommand? || c.AppendWriteCommand? || c.TruncateCommand? || c.SetAttrCommand?)
    ensures Valid(Apply(s, c, times).0)
  {
    hide Valid, NoDangling, CreateNode, Unlink, Rmdir, Rename;
    match c {
      case MkdirCommand(parent, name, mode, uid, gid) =>
        CreateKeepsValid(s, parent, name, Directory, mode, uid, gid, times.final);
      case CreateFileCommand(parent, name, mode, uid, gid) =>
        CreateKeepsValid(s, parent, name, File, mode, uid, gid, times.final);
      case UnlinkCommand(parent, name) => RemovalKeepsValid(s, parent, name, times.removal);
      case RmdirCommand(parent, name) => RemovalKeepsValid(s, parent, name, times.removal);
      case RenameCommand(op, on, np, nn) => RenameKeepsValid(s, DentryKey(op, on), DentryKey(np, nn), times);
      case CommandNotSet =>
    }
  }

  /** A command hands out at most one inode number. */
  lemma ApplyNumbers(s: State, c: Command, times: Times)
    requires NoDangling(s) && s.nextInodeId < MAX_64
    ensures s.nextInodeId <= Apply(s, c, times).0.nextInodeId <= s.nextInodeId + 1
    ensures Apply(s, c, times).0.defaultChunkSize == s.defaultChunkSize
  {
    hide Above, Leaf, MergeAll, ShiftAll, MaxEnd, Cut, Accepted, ParentError, FileError, Moved, WithoutNode;
    hide Relinked, ReplaceError;
  }
}
