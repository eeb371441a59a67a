/** The snapshot message of the metadata tables (src/meta_state.cc:477-544). */
module Snapshots {
  import opened Types
  import opened Namespace
  import opened Ancestry
  import opened MapOrder
  import opened MetaSpec
  import opened MetaInvariant

  datatype SnapshotDentry = SnapshotDentry(parent: u64, name: string, child: u64)

  datatype SnapshotLayout = SnapshotLayout(inodeId: u64, layout: FileLayout)

  datatype MetaSnapshot = MetaSnapshot(
    nextInodeId: u64,
    defaultChunkSize: u64,
    inodes: seq<InodeAttrs>,
    dentries: seq<SnapshotDentry>,
    layouts: seq<SnapshotLayout>)

  function KeyOf(x: SnapshotDentry): DentryKey {
    DentryKey(x.parent, x.name)
  }

  /** The message lists the three tables, each entry once, in the order of the keys. */
  ghost predicate IsSnapshotOf(s: State, m: MetaSnapshot) {
    && m.nextInodeId == s.nextInodeId && m.defaultChunkSize == s.defaultChunkSize
    && ListsInodes(s.inodes, m.inodes) && ListsDentries(s.dentries, m.dentries) && ListsLayouts(s.layouts, m.layouts)
  }

  ghost predicate InOrder(ids: seq<u64>, keys: set<u64>) {
    && (forall i :: 0 <= i < |ids| ==> ids[i] in keys)
    && (forall i, j :: 0 <= i < j < |ids| ==> ids[i] < ids[j])
    && (forall id :: id in keys ==> id in ids)
  }

  ghost predicate ListsInodes(t: map<u64, InodeAttrs>, xs: seq<InodeAttrs>) {
    exists ids :: InOrder(ids, t.Keys) && |xs| == |ids| && forall i :: 0 <= i < |xs| ==> xs[i] == t[ids[i]]
  }

  ghost predicate ListsDentries(t: Dentries, xs: seq<SnapshotDentry>) {
    && (forall i, j :: 0 <= i < j < |xs| ==> Before(KeyOf(xs[i]), KeyOf(xs[j])))
    && (forall k :: k in t ==> SnapshotDentry(k.parent, k.name, t[k]) in xs)
    && (forall x :: x in xs ==> KeyOf(x) in t && t[KeyOf(x)] == x.child)
  }

  ghost predicate ListsLayouts(t: map<u64, FileLayout>, xs: seq<SnapshotLayout>) {
    && (forall i, j :: 0 <= i < j < |xs| ==> xs[i].inodeId < xs[j].inodeId)
    && (forall id :: id in t ==> SnapshotLayout(id, t[id]) in xs)
    && (forall x :: x in xs ==> x.inodeId in t && t[x.inodeId] == x.layout)
  }

  lemma ListedInodes(t: map<u64, InodeAttrs>, xs: seq<InodeAttrs>)
    requires ListsInodes(t, xs)
    ensures forall id :: id in t ==> t[id] in xs
    ensures forall x :: x in xs ==> x in t.Values
  {
    var ids :| InOrder(ids, t.Keys) && |xs| == |ids| && forall i :: 0 <= i < |xs| ==> xs[i] == t[ids[i]];
    forall id | id in t ensures t[id] in xs {
      var i :| 0 <= i < |ids| && ids[i] == id;
      assert xs[i] == t[id];
    }
  }

  // ---------- restoring ----------

  /** Like std::map::emplace, the first entry with a key stays. */
  function EmplaceInodes(xs: seq<InodeAttrs>): map<u64, InodeAttrs> {
    if xs == [] then map[] else
    var t, x := EmplaceInodes(xs[..|xs| - 1]), xs[|xs| - 1];
    if x.inodeId in t then t else t[x.inodeId := x]
  }

  function EmplaceDentries(xs: seq<SnapshotDentry>): Dentries {
    if xs == [] then map[] else
    var t, x := EmplaceDentries(xs[..|xs| - 1]), xs[|xs| - 1];
    if KeyOf(x) in t then t else t[KeyOf(x) := x.child]
  }

  function EmplaceLayouts(xs: seq<SnapshotLayout>): map<u64, FileLayout> {
    if xs == [] then map[] else
    var t, x := EmplaceLayouts(xs[..|xs| - 1]), xs[|xs| - 1];
    if x.inodeId in t then t else t[x.inodeId := x.layout]
  }

  predicate DentriesKnown(inodes: map<u64, InodeAttrs>, xs: seq<SnapshotDentry>) {
    forall i :: 0 <= i < |xs| ==> xs[i].parent in inodes && xs[i].child in inodes
  }

  predicate LayoutsKnown(inodes: map<u64, InodeAttrs>, xs: seq<SnapshotLayout>) {
    forall i :: 0 <= i < |xs| ==> xs[i].inodeId in inodes
  }

  /** The only checks made: a root inode, and no reference to a missing inode. */
  predicate Accepts(m: MetaSnapshot) {
    var inodes := EmplaceInodes(m.inodes);
    ROOT in inodes && DentriesKnown(inodes, m.dentries) && LayoutsKnown(inodes, m.layouts)
  }

  /** The tables a message describes. */
  function Tables(m: MetaSnapshot): State {
    State(m.nextInodeId, m.defaultChunkSize, EmplaceInodes(m.inodes), EmplaceDentries(m.dentries),
          EmplaceLayouts(m.layouts))
  }

  function Restore(s: State, m: MetaSnapshot): Outcome<()> {
    if Accepts(m) then Outcome(Tables(m), Ok(())) else Outcome(s, Err(InvalidArgument))
  }

  // ---------- round trip ----------

  lemma {:induction false} InodesRoundTrip(t: map<u64, InodeAttrs>, xs: seq<InodeAttrs>)
    requires forall id :: id in t ==> t[id].inodeId == id
    requires forall x :: x in xs ==> x in t.Values
    ensures forall id :: id in EmplaceInodes(xs) ==> id in t && EmplaceInodes(xs)[id] == t[id]
    ensures forall x :: x in xs ==> x.inodeId in EmplaceInodes(xs)
  {
    if xs != [] {
      var init, last := xs[..|xs| - 1], xs[|xs| - 1];
      assert last in t.Values;
      assert forall x :: x in xs ==> x in init || x == last;
      InodesRoundTrip(t, init);
    }
  }

  lemma {:induction false} DentriesRoundTrip(t: Dentries, xs: seq<SnapshotDentry>)
    requires forall x :: x in xs ==> KeyOf(x) in t && t[KeyOf(x)] == x.child
    ensures forall k :: k in EmplaceDentries(xs) ==> k in t && EmplaceDentries(xs)[k] == t[k]
    ensures forall x :: x in xs ==> KeyOf(x) in EmplaceDentries(xs)
  {
    if xs != [] {
      var init, last := xs[..|xs| - 1], xs[|xs| - 1];
      assert forall x :: x in xs ==> x in init || x == last;
      DentriesRoundTrip(t, init);
    }
  }

  lemma {:induction false} LayoutsRoundTrip(t: map<u64, FileLayout>, xs: seq<SnapshotLayout>)
    requires forall x :: x in xs ==> x.inodeId in t && t[x.inodeId] == x.layout
    ensures forall id :: id in EmplaceLayouts(xs) ==> id in t && EmplaceLayouts(xs)[id] == t[id]
    ensures forall x :: x in xs ==> x.inodeId in EmplaceLayouts(xs)
  {
    if xs != [] {
      var init, last := xs[..|xs| - 1], xs[|xs| - 1];
      assert forall x :: x in xs ==> x in init || x == last;
      LayoutsRoundTrip(t, init);
    }
  }

  lemma InodesRestored(t: map<u64, InodeAttrs>, xs: seq<InodeAttrs>)
    requires (forall id :: id in t ==> t[id].inodeId == id) && ListsInodes(t, xs)
    ensures EmplaceInodes(xs) == t
  {
    ListedInodes(t, xs);
    InodesRoundTrip(t, xs);
    hide EmplaceInodes, ListsInodes;
  }

  lemma DentriesRestored(t: Dentries, xs: seq<SnapshotDentry>)
    requires ListsDentries(t, xs)
    ensures EmplaceDentries(xs) == t
  {
    hide EmplaceDentries, Before;
    DentriesRoundTrip(t, xs);
    forall k | k in t ensures k in EmplaceDentries(xs) {
      assert KeyOf(SnapshotDentry(k.parent, k.name, t[k])) == k;
    }
  }

  lemma LayoutsRestored(t: map<u64, FileLayout>, xs: seq<SnapshotLayout>)
    requires ListsLayouts(t, xs)
    ensures EmplaceLayouts(xs) == t
  {
    hide EmplaceLayouts;
    LayoutsRoundTrip(t, xs);
    forall id | id in t ensures id in EmplaceLayouts(xs) {
      assert SnapshotLayout(id, t[id]).inodeId == id;
    }
  }

  /** A listing of a valid state passes the checks. */
  lemma ListingPasses(s: State, m: MetaSnapshot)
    requires Valid(s) && ListsDentries(s.dentries, m.dentries) && ListsLayouts(s.layouts, m.layouts)
    ensures ROOT in s.inodes && DentriesKnown(s.inodes, m.dentries) && LayoutsKnown(s.inodes, m.layouts)
  {
    ValidHasNoDangling(s);
    RootIsInode(s);
    hide Valid, Before;
    forall i | 0 <= i < |m.dentries| ensures m.dentries[i].parent in s.inodes && m.dentries[i].child in s.inodes {
      assert m.dentries[i] in m.dentries;
    }
    forall i | 0 <= i < |m.layouts| ensures m.layouts[i].inodeId in s.inodes {
      assert m.layouts[i] in m.layouts;
      FilesAreInodes(s, m.layouts[i].inodeId);
    }
  }

  lemma RootIsInode(s: State)
    requires Valid(s)
    ensures ROOT in s.inodes && forall id :: id in s.inodes ==> s.inodes[id].inodeId == id
  {
    assert ROOT in KindsOf(s);
  }

  /** Restoring the snapshot of any valid state succeeds and gives back exactly that state. */
  lemma SnapshotRoundTrip(s: State, m: MetaSnapshot, before: State)
    requires Valid(s) && IsSnapshotOf(s, m)
    ensures Restore(before, m) == Outcome(s, Ok(()))
  {
    hide EmplaceInodes, EmplaceDentries, EmplaceLayouts, Valid, ListsInodes, ListsDentries, ListsLayouts;
    hide DentriesKnown, LayoutsKnown;
    RootIsInode(s);
    InodesRestored(s.inodes, m.inodes);
    DentriesRestored(s.dentries, m.dentries);
    LayoutsRestored(s.layouts, m.layouts);
    ListingPasses(s, m);
  }

  lemma FilesAreInodes(s: State, id: u64)
    requires Valid(s) && id in s.layouts
    ensures id in s.inodes
  {
  }

  /** Restoring replaces every table or none, and what is accepted refers to no missing inode. */
  lemma RestoreIsAllOrNothing(before: State, m: MetaSnapshot)
    ensures Restore(before, m).result.Err? ==> Restore(before, m).state == before
    ensures Restore(before, m).result.Ok? ==> NoDangling(Restore(before, m).state)
  {
    if Accepts(m) {
      EmplacedDentriesListed(m.dentries);
    }
  }

  lemma {:induction false} EmplacedDentriesListed(xs: seq<SnapshotDentry>)
    ensures forall k :: k in EmplaceDentries(xs) ==>
              exists i :: 0 <= i < |xs| && xs[i] == SnapshotDentry(k.parent, k.name, EmplaceDentries(xs)[k])
  {
    if xs != [] {
      var init := xs[..|xs| - 1];
      EmplacedDentriesListed(init);
      forall k | k in EmplaceDentries(xs)
        ensures exists i :: 0 <= i < |xs| && xs[i] == SnapshotDentry(k.parent, k.name, EmplaceDentries(xs)[k])
      {
        if k in EmplaceDentries(init) {
          var i :| 0 <= i < |init| && init[i] == SnapshotDentry(k.parent, k.name, EmplaceDentries(init)[k]);
          assert xs[i] == init[i];
        }
      }
    }
  }

  // ---------- which messages are accepted, and what they restore ----------

  /** The numbers of the inodes a message lists. */
  function ListedNumbers(m: MetaSnapshot): set<u64> {
    set i | 0 <= i < |m.inodes| :: m.inodes[i].inodeId
  }

  lemma {:induction false} EmplacedInodeKeys(xs: seq<InodeAttrs>)
    ensures EmplaceInodes(xs).Keys == set i | 0 <= i < |xs| :: xs[i].inodeId
  {
    if xs != [] {
      var init := xs[..|xs| - 1];
      EmplacedInodeKeys(init);
      assert (set i | 0 <= i < |xs| :: xs[i].inodeId) ==
             (set i | 0 <= i < |init| :: init[i].inodeId) + {xs[|xs| - 1].inodeId};
    }
  }

  /** A message is accepted if and only if it lists an inode 1, and only entries and layouts of inodes it
      lists, in whatever order and shape. */
  lemma AcceptedIff(before: State, m: MetaSnapshot)
    ensures Restore(before, m).result.Ok? <==>
              && 1 in ListedNumbers(m)
              && (forall x :: x in m.dentries ==> x.parent in ListedNumbers(m) && x.child in ListedNumbers(m))
              && (forall x :: x in m.layouts ==> x.inodeId in ListedNumbers(m))
    ensures Restore(before, m).result.Err? ==> Restore(before, m) == Outcome(before, Err(InvalidArgument))
  {
    EmplacedInodeKeys(m.inodes);
    hide EmplaceInodes, EmplaceDentries, EmplaceLayouts;
  }

  /** No earlier item of the list has the key of item i. */
  predicate IsInodeFirst(xs: seq<InodeAttrs>, i: int) {
    0 <= i < |xs| && forall j :: 0 <= j < i ==> xs[j].inodeId != xs[i].inodeId
  }

  lemma {:induction false} FirstInodeStays(xs: seq<InodeAttrs>, i: nat)
    requires IsInodeFirst(xs, i)
    ensures xs[i].inodeId in EmplaceInodes(xs) && EmplaceInodes(xs)[xs[i].inodeId] == xs[i]
  {
    if i < |xs| - 1 {
      FirstInodeStays(xs[..|xs| - 1], i);
    } else {
      EmplacedInodeKeys(xs[..|xs| - 1]);
    }
  }

  /** No earlier item of the list has the key of item i. */
  predicate IsDentryFirst(xs: seq<SnapshotDentry>, i: int) {
    0 <= i < |xs| && forall j :: 0 <= j < i ==> KeyOf(xs[j]) != KeyOf(xs[i])
  }

  lemma {:induction false} FirstDentryStays(xs: seq<SnapshotDentry>, i: nat)
    requires IsDentryFirst(xs, i)
    ensures KeyOf(xs[i]) in EmplaceDentries(xs) && EmplaceDentries(xs)[KeyOf(xs[i])] == xs[i].child
  {
    if i < |xs| - 1 {
      FirstDentryStays(xs[..|xs| - 1], i);
    } else {
      EmplacedDentriesListed(xs[..|xs| - 1]);
    }
  }

  /** No earlier item of the list has the key of item i. */
  predicate IsLayoutFirst(xs: seq<SnapshotLayout>, i: int) {
    0 <= i < |xs| && forall j :: 0 <= j < i ==> xs[j].inodeId != xs[i].inodeId
  }

  lemma {:induction false} FirstLayoutStays(xs: seq<SnapshotLayout>, i: nat)
    requires IsLayoutFirst(xs, i)
    ensures xs[i].inodeId in EmplaceLayouts(xs) && EmplaceLayouts(xs)[xs[i].inodeId] == xs[i].layout
  {
    if i < |xs| - 1 {
      FirstLayoutStays(xs[..|xs| - 1], i);
    } else {
      EmplacedLayoutsListed(xs[..|xs| - 1]);
    }
  }

  /** An accepted message restores its counters and, of several items with one key, the first. */
  lemma RestoresFirsts(before: State, m: MetaSnapshot)
    requires Restore(before, m).result.Ok?
    ensures var s := Restore(before, m).state;
            && s.nextInodeId == m.nextInodeId && s.defaultChunkSize == m.defaultChunkSize
            && (forall i :: IsInodeFirst(m.inodes, i) ==>
                  m.inodes[i].inodeId in s.inodes && s.inodes[m.inodes[i].inodeId] == m.inodes[i])
            && (forall i :: IsDentryFirst(m.dentries, i) ==>
                  KeyOf(m.dentries[i]) in s.dentries && s.dentries[KeyOf(m.dentries[i])] == m.dentries[i].child)
            && (forall i :: IsLayoutFirst(m.layouts, i) ==>
                  m.layouts[i].inodeId in s.layouts && s.layouts[m.layouts[i].inodeId] == m.layouts[i].layout)
            && s.inodes.Keys == ListedNumbers(m)
            && (forall k :: k in s.dentries ==> exists i :: 0 <= i < |m.dentries| && KeyOf(m.dentries[i]) == k)
            && (forall id :: id in s.layouts ==> exists i :: 0 <= i < |m.layouts| && m.layouts[i].inodeId == id)
  {
    hide EmplaceInodes, EmplaceDentries, EmplaceLayouts, Accepts;
    EmplacedInodeKeys(m.inodes);
    EmplacedDentriesListed(m.dentries);
    EmplacedLayoutsListed(m.layouts);
    forall i | IsInodeFirst(m.inodes, i)
      ensures m.inodes[i].inodeId in EmplaceInodes(m.inodes) &&
              EmplaceInodes(m.inodes)[m.inodes[i].inodeId] == m.inodes[i]
    {
      FirstInodeStays(m.inodes, i);
    }
    forall i | IsDentryFirst(m.dentries, i)
      ensures KeyOf(m.dentries[i]) in EmplaceDentries(m.dentries) &&
              EmplaceDentries(m.dentries)[KeyOf(m.dentries[i])] == m.dentries[i].child
    {
      FirstDentryStays(m.dentries, i);
    }
    forall i | IsLayoutFirst(m.layouts, i)
      ensures m.layouts[i].inodeId in EmplaceLayouts(m.layouts) &&
              EmplaceLayouts(m.layouts)[m.layouts[i].inodeId] == m.layouts[i].layout
    {
      FirstLayoutStays(m.layouts, i);
    }
  }

  // ---------- what an accepted message may be ----------

  /** What the entries of a message must be like beyond what is checked: directories with entries are
      directories, nothing leads to the root, every other inode has exactly one entry, and none lies
      below itself. */
  ghost predicate TreeShaped(m: MetaSnapshot) {
    var inodes, d := EmplaceInodes(m.inodes), EmplaceDentries(m.dentries);
    && (ROOT in inodes ==> inodes[ROOT].kind.Directory?)
    && (forall k :: k in d && k.parent in inodes ==> inodes[k.parent].kind.Directory? && d[k] != ROOT)
    && (forall id :: id in inodes && id != ROOT ==> OneEntry(d, id))
    && Acyclic(d)
  }

  /** What the rest of a message must be like: numbers below the counter, known types, valid names,
      link counts that count child directories, and layouts with the inodes' attributes exactly for
      the files. */
  ghost predicate Consistent(m: MetaSnapshot) {
    var inodes, d, layouts := EmplaceInodes(m.inodes), EmplaceDentries(m.dentries), EmplaceLayouts(m.layouts);
    && ROOT < m.nextInodeId
    && (forall id :: id in inodes ==> 1 <= id < m.nextInodeId && !inodes[id].kind.UnspecifiedType?)
    && (forall k :: k in d ==> ValidName(k.name))
    && (forall id :: id in inodes ==>
          inodes[id].nlink ==
          if inodes[id].kind.Directory? then 2 + |Subdirectories(inodes, d, id)| else 1)
    && (forall id :: id in inodes ==> (id in layouts <==> inodes[id].kind.File?))
    && (forall id :: id in layouts && id in inodes ==> layouts[id].attrs == inodes[id])
  }

  ghost function Subdirectories(inodes: map<u64, InodeAttrs>, d: Dentries, id: u64): set<DentryKey> {
    set k | k in d && k.parent == id && d[k] in inodes && inodes[d[k]].kind.Directory?
  }

  lemma {:induction false} EmplacedByNumber(xs: seq<InodeAttrs>)
    ensures forall id :: id in EmplaceInodes(xs) ==> EmplaceInodes(xs)[id].inodeId == id
  {
    if xs != [] {
      EmplacedByNumber(xs[..|xs| - 1]);
    }
  }

  lemma {:induction false} EmplacedLayoutsListed(xs: seq<SnapshotLayout>)
    ensures forall id :: id in EmplaceLayouts(xs) ==> exists i :: 0 <= i < |xs| && xs[i].inodeId == id
  {
    if xs != [] {
      var init := xs[..|xs| - 1];
      EmplacedLayoutsListed(init);
      forall id | id in EmplaceLayouts(xs) ensures exists i :: 0 <= i < |xs| && xs[i].inodeId == id {
        if id in EmplaceLayouts(init) {
          var i :| 0 <= i < |init| && init[i].inodeId == id;
          assert xs[i] == init[i];
        }
      }
    }
  }

  /** What acceptance says about the tables. */
  lemma AcceptedTables(m: MetaSnapshot)
    requires Accepts(m)
    ensures var s := Tables(m);
            && ROOT in s.inodes && NoDangling(s)
            && (forall id :: id in s.inodes ==> s.inodes[id].inodeId == id)
            && (forall id :: id in s.layouts ==> id in s.inodes)
  {
    RestoreIsAllOrNothing(Tables(m), m);
    EmplacedByNumber(m.inodes);
    EmplacedLayoutsListed(m.layouts);
  }

  /** An accepted snapshot holds a tree if and only if its entries are tree-shaped. */
  lemma AcceptedIsTreeIff(m: MetaSnapshot)
    requires Accepts(m)
    ensures Tree(KindsOf(Tables(m)), Tables(m).dentries) <==> TreeShaped(m)
  {
    var s := Tables(m);
    AcceptedTables(m);
    TreeIffClimbable(KindsOf(s), s.dentries);
    assert forall id :: id in s.inodes <==> id in KindsOf(s);
    hide EmplaceInodes, EmplaceDentries, EmplaceLayouts, Tree, Acyclic, OneEntry, Accepts;
  }

  /** Link counts, on tables whose entries join existing inodes. */
  lemma LinkedIff(s: State)
    ensures Linked(s) <==>
            forall id :: id in s.inodes ==>
              s.inodes[id].nlink ==
              if s.inodes[id].kind.Directory? then 2 + |Subdirectories(s.inodes, s.dentries, id)| else 1
  {
    forall id | id in s.inodes
      ensures LinkCount(KindsOf(s), s.dentries, id) ==
              if s.inodes[id].kind.Directory? then 2 + |Subdirectories(s.inodes, s.dentries, id)| else 1
    {
      assert ChildDirs(KindsOf(s), s.dentries, id) == Subdirectories(s.inodes, s.dentries, id);
    }
    hide LinkCount, Subdirectories;
  }

  lemma CachedIff(s: State)
    requires forall id :: id in s.layouts ==> id in s.inodes
    ensures Cached(s) <==>
            && (forall id :: id in s.inodes ==> (id in s.layouts <==> s.inodes[id].kind.File?))
            && (forall id :: id in s.layouts && id in s.inodes ==> s.layouts[id].attrs == s.inodes[id])
  {
  }

  lemma AcceptedIsConsistentIff(m: MetaSnapshot)
    requires Accepts(m)
    ensures Numbered(Tables(m)) && Linked(Tables(m)) && Cached(Tables(m)) <==> Consistent(m)
  {
    hide EmplaceInodes, EmplaceDentries, EmplaceLayouts, Accepts, Linked, Cached, Subdirectories, ValidName;
    AcceptedTables(m);
    LinkedIff(Tables(m));
    CachedIff(Tables(m));
  }

  /** Restoring succeeds and leaves a valid server if and only if the message passes the checks and
      is tree-shaped and consistent; an accepted message that is not leaves an invalid server. */
  lemma RestoredIsValidIff(before: State, m: MetaSnapshot)
    ensures Restore(before, m).result.Ok? && Valid(Restore(before, m).state) <==>
            Accepts(m) && TreeShaped(m) && Consistent(m)
  {
    if Accepts(m) {
      AcceptedIsTreeIff(m);
      AcceptedIsConsistentIff(m);
    }
    hide Tree, Numbered, Linked, Cached, TreeShaped, Consistent, Accepts, Tables;
  }

  /** The checks do not look for cycles: two directories that hold each other are accepted, and then
      the ancestor walk of a rename into one of them never ends. */
  lemma AcceptedSnapshotMayHoldACycle(before: State) returns (m: MetaSnapshot, c: Command)
    ensures Restore(before, m).result.Ok? && !Valid(Restore(before, m).state)
    ensures !CommandWalkEnds(Restore(before, m).state, c)
  {
    var root := InodeAttrs(ROOT, Directory, 493, 0, 0, 0, 3, 1, 0, 0, 0, 0);
    var x, y, z := root.(inodeId := 2), root.(inodeId := 3), root.(inodeId := 4, nlink := 2);
    var xy, yx, rz := SnapshotDentry(2, "b", 3), SnapshotDentry(3, "a", 2), SnapshotDentry(1, "c", 4);
    m := MetaSnapshot(5, 0, [root, x, y, z], [xy, yx, rz], []);
    c := RenameCommand(1, "c", 2, "d");
    FourInodes(root, x, y, z);
    ThreeEntries(xy, yx, rz);
    var d: Dentries := map[DentryKey(2, "b") := 3, DentryKey(3, "a") := 2, DentryKey(1, "c") := 4];
    assert EmplaceDentries(m.dentries) == d;
    hide EmplaceInodes, EmplaceDentries, Valid;
    var s := Restore(before, m).state;
    TrappedWalk(d);
    hide WalkEnds;
    assert !RenameWalkEnds(s, DentryKey(1, "c"), DentryKey(2, "d"));
    if Valid(s) {
      ValidWalksEnd(s, c);
    }
  }

  lemma TrappedWalk(d: Dentries)
    requires d == map[DentryKey(2, "b") := 3, DentryKey(3, "a") := 2, DentryKey(1, "c") := 4]
    ensures !WalkEnds(d, 4, 2)
  {
    UpIsParent(d, DentryKey(2, "b"));
    UpIsParent(d, DentryKey(3, "a"));
    assert Climb(d, 2, 0) == 2 && Climb(d, 2, 1) == 3 && Climb(d, 2, 2) == 2;
    assert Loops(d, 2, 2);
    LoopTrapsWalk(d, 4, 2, 2);
    AboveIsReaches(d, 4, 2);
    if p :| Resolve(d, 4, p) == Some(2) {
      LeafReaches(d, 4, p);
    }
  }

  lemma FourInodes(a: InodeAttrs, b: InodeAttrs, c: InodeAttrs, e: InodeAttrs)
    requires a.inodeId == 1 && b.inodeId == 2 && c.inodeId == 3 && e.inodeId == 4
    ensures EmplaceInodes([a, b, c, e]) == map[1 := a, 2 := b, 3 := c, 4 := e]
  {
    assert [a, b, c, e][..3] == [a, b, c] && [a, b, c][..2] == [a, b] && [a, b][..1] == [a] && [a][..0] == [];
    assert EmplaceInodes([a]) == map[1 := a];
    assert EmplaceInodes([a, b]) == map[1 := a, 2 := b];
    assert EmplaceInodes([a, b, c]) == map[1 := a, 2 := b, 3 := c];
  }

  lemma ThreeEntries(a: SnapshotDentry, b: SnapshotDentry, c: SnapshotDentry)
    requires KeyOf(a) != KeyOf(b) && KeyOf(a) != KeyOf(c) && KeyOf(b) != KeyOf(c)
    ensures EmplaceDentries([a, b, c]) == map[KeyOf(a) := a.child, KeyOf(b) := b.child, KeyOf(c) := c.child]
  {
    assert [a, b, c][..2] == [a, b] && [a, b][..1] == [a] && [a][..0] == [];
    assert EmplaceDentries([a]) == map[KeyOf(a) := a.child];
    assert EmplaceDentries([a, b]) == map[KeyOf(a) := a.child, KeyOf(b) := b.child];
  }
}
