/** Directory entries as a tree: path resolution, ancestry, and what adding, removing and
    moving an entry does to every path (the namespace side of src/meta_state.cc). */
module Namespace {
  import opened Types

  type Kinds = map<u64, InodeType>
  type Path = seq<string>

  /** One lookup. */
  function Step(d: Dentries, at: Option<u64>, name: string): Option<u64> {
    if at.Some? && DentryKey(at.value, name) in d then Some(d[DentryKey(at.value, name)]) else None
  }

  /** The inode a path leads to, or None. */
  function Resolve(d: Dentries, from: u64, path: Path): Option<u64> {
    if path == [] then Some(from) else Step(d, Resolve(d, from, path[..|path| - 1]), path[|path| - 1])
  }

  ghost predicate Reaches(d: Dentries, a: u64, x: u64) {
    exists path :: Resolve(d, a, path) == Some(x)
  }

  /** No entry leads to the root, and no inode has two entries. */
  ghost predicate Injective(d: Dentries) {
    && (forall k :: k in d ==> d[k] != ROOT)
    && (forall k, l :: k in d && l in d && d[k] == d[l] ==> k == l)
  }

  /** Every entry joins an existing directory to an existing inode. */
  ghost predicate Wired(kinds: Kinds, d: Dentries) {
    && ROOT in kinds && kinds[ROOT].Directory?
    && (forall k :: k in d ==> k.parent in kinds && kinds[k.parent].Directory? && d[k] in kinds)
  }

  ghost predicate AllReached(kinds: Kinds, d: Dentries) {
    forall id :: id in kinds ==> Reaches(d, ROOT, id)
  }

  /** The namespace is a tree rooted at the root directory. */
  ghost predicate Tree(kinds: Kinds, d: Dentries) {
    Wired(kinds, d) && Injective(d) && AllReached(kinds, d)
  }

  /** No entry lies inside the inode: a file, or an empty directory. */
  ghost predicate Leaf(d: Dentries, id: u64) {
    forall k :: k in d ==> k.parent != id
  }

  // ---------- resolution ----------

  lemma {:induction false} ResolveConcat(d: Dentries, from: u64, p: Path, q: Path)
    ensures Resolve(d, from, p + q) ==
            match Resolve(d, from, p) case None => None case Some(x) => Resolve(d, x, q)
  {
    if q == [] {
      assert p + q == p;
    } else {
      assert (p + q)[..|p + q| - 1] == p + q[..|q| - 1];
      ResolveConcat(d, from, p, q[..|q| - 1]);
    }
  }

  lemma ResolveSnoc(d: Dentries, from: u64, p: Path, name: string)
    ensures Resolve(d, from, p + [name]) == Step(d, Resolve(d, from, p), name)
  {
    assert (p + [name])[..|p|] == p;
  }

  /** In a namespace without double entries, an inode is reached by one path only. */
  lemma {:induction false} PathsUnique(d: Dentries, p: Path, q: Path)
    requires Injective(d)
    requires Resolve(d, ROOT, p).Some? && Resolve(d, ROOT, p) == Resolve(d, ROOT, q)
    ensures p == q
  {
    if p != [] && q != [] {
      var p', q' := p[..|p| - 1], q[..|q| - 1];
      assert p == p' + [p[|p| - 1]] && q == q' + [q[|q| - 1]];
      ResolveSnoc(d, ROOT, p', p[|p| - 1]);
      ResolveSnoc(d, ROOT, q', q[|q| - 1]);
      hide Resolve;
      var y, z := Resolve(d, ROOT, p').value, Resolve(d, ROOT, q').value;
      assert DentryKey(y, p[|p| - 1]) == DentryKey(z, q[|q| - 1]);
      PathsUnique(d, p', q');
    }
  }

  lemma PrefixSnoc(a: Path, p: Path, n: string)
    ensures a <= p + [n] <==> a <= p || a == p + [n]
  {
    if a <= p + [n] && |a| <= |p| {
      assert a == (p + [n])[..|a|] == p[..|a|];
    }
  }

  /** The path from the root to a reached inode. */
  ghost function PathTo(d: Dentries, id: u64): (path: Path)
    requires Reaches(d, ROOT, id)
    ensures Resolve(d, ROOT, path) == Some(id)
  {
    var path :| Resolve(d, ROOT, path) == Some(id); path
  }

  /** Going to the parent shortens the path: the measure of the ancestor walk. */
  lemma ParentIsShallower(d: Dentries, k: DentryKey)
    requires Injective(d) && k in d && Reaches(d, ROOT, k.parent)
    ensures Reaches(d, ROOT, d[k])
    ensures PathTo(d, d[k]) == PathTo(d, k.parent) + [k.name]
  {
    var p := PathTo(d, k.parent);
    ResolveSnoc(d, ROOT, p, k.name);
    PathsUnique(d, PathTo(d, d[k]), p + [k.name]);
  }

  lemma ReachesSelf(d: Dentries, x: u64)
    ensures Reaches(d, x, x)
  {
    assert Resolve(d, x, []) == Some(x);
  }

  /** Nothing above the root. */
  lemma ReachesRoot(d: Dentries, a: u64)
    requires Injective(d)
    ensures Reaches(d, a, ROOT) <==> a == ROOT
  {
    if p :| Resolve(d, a, p) == Some(ROOT) {
      assert p == [];
    }
    ReachesSelf(d, ROOT);
  }

  /** A different inode lies above x exactly when it lies above the parent of x. */
  lemma AncestorStep(d: Dentries, a: u64, k: DentryKey)
    requires Injective(d) && k in d && a != d[k]
    ensures Reaches(d, a, d[k]) <==> Reaches(d, a, k.parent)
  {
    if p :| Resolve(d, a, p) == Some(d[k]) {
      var p' := p[..|p| - 1];
      assert DentryKey(Resolve(d, a, p').value, p[|p| - 1]) == k;
      assert Resolve(d, a, p') == Some(k.parent);
    }
    if q :| Resolve(d, a, q) == Some(k.parent) {
      ResolveSnoc(d, a, q, k.name);
    }
  }

  /** Nothing is reached from inside a leaf but the leaf itself. */
  lemma {:induction false} LeafReaches(d: Dentries, leaf: u64, p: Path)
    requires Leaf(d, leaf)
    ensures p != [] ==> Resolve(d, leaf, p) == None
  {
    if p != [] {
      LeafReaches(d, leaf, p[..|p| - 1]);
    }
  }

  // ---------- adding an entry ----------

  /** The paths after a new entry: one path more. */
  function AddedView(d: Dentries, newPath: Path, id: u64, p: Path): Option<u64> {
    if p == newPath then Some(id) else Resolve(d, ROOT, p)
  }

  /** A new entry for an unused inode adds exactly one path. */
  lemma {:induction false} AddedPath(d: Dentries, k: DentryKey, id: u64, above: Path, p: Path)
    requires Injective(d) && Resolve(d, ROOT, above) == Some(k.parent)
    requires k !in d && id != ROOT && Leaf(d, id) && k.parent != id
    ensures Resolve(d[k := id], ROOT, p) == AddedView(d, above + [k.name], id, p)
  {
    if p != [] {
      AddedPath(d, k, id, above, p[..|p| - 1]);
      AddedStep(d, k, id, above, p[..|p| - 1], p[|p| - 1]);
      assert p == p[..|p| - 1] + [p[|p| - 1]];
    }
  }

  lemma AddedStep(d: Dentries, k: DentryKey, id: u64, above: Path, p: Path, n: string)
    requires Injective(d) && Resolve(d, ROOT, above) == Some(k.parent)
    requires k !in d && Leaf(d, id) && k.parent != id
    ensures Step(d[k := id], AddedView(d, above + [k.name], id, p), n) == AddedView(d, above + [k.name], id, p + [n])
  {
    ResolveSnoc(d, ROOT, p, n);
    ResolveSnoc(d, ROOT, above, k.name);
    hide Resolve, Injective;
    if Resolve(d, ROOT, p) == Some(k.parent) {
      PathsUnique(d, p, above);
    }
    if p + [n] == above + [k.name] {
      assert p == (p + [n])[..|p|] == above && n == (p + [n])[|p|];
    }
  }

  lemma AddedReached(d: Dentries, k: DentryKey, id: u64, x: u64)
    requires Injective(d) && Reaches(d, ROOT, k.parent) && (x == id || Reaches(d, ROOT, x))
    requires k !in d && id != ROOT && Leaf(d, id) && k.parent != id
    ensures Reaches(d[k := id], ROOT, x)
  {
    hide Injective, Leaf, Resolve;
    var above := PathTo(d, k.parent);
    var p := if x == id then above + [k.name] else PathTo(d, x);
    AddedPath(d, k, id, above, p);
    ResolveSnoc(d, ROOT, above, k.name);
  }

  lemma AddKeepsTree(kinds: Kinds, d: Dentries, k: DentryKey, id: u64, kind: InodeType)
    requires Tree(kinds, d) && k !in d && k.parent in kinds && kinds[k.parent].Directory?
    requires id !in kinds
    ensures Tree(kinds[id := kind], d[k := id])
  {
    hide Reaches;
    assert Wired(kinds[id := kind], d[k := id]) && Injective(d[k := id]);
    forall x | x == id || x in kinds ensures Reaches(d[k := id], ROOT, x) {
      AddedReached(d, k, id, x);
    }
  }

  // ---------- removing an entry ----------

  /** The paths after a removal: one path less. */
  function RemovedView(d: Dentries, oldPath: Path, p: Path): Option<u64> {
    if p == oldPath then None else Resolve(d, ROOT, p)
  }

  /** Removing the entry of a leaf removes exactly one path. */
  lemma {:induction false} RemovedPath(d: Dentries, k: DentryKey, above: Path, p: Path)
    requires Injective(d) && Resolve(d, ROOT, above) == Some(k.parent)
    requires k in d && Leaf(d, d[k])
    ensures Resolve(d - {k}, ROOT, p) == RemovedView(d, above + [k.name], p)
  {
    if p != [] {
      RemovedPath(d, k, above, p[..|p| - 1]);
      RemovedStep(d, k, above, p[..|p| - 1], p[|p| - 1]);
      assert p == p[..|p| - 1] + [p[|p| - 1]];
    }
  }

  lemma RemovedStep(d: Dentries, k: DentryKey, above: Path, p: Path, n: string)
    requires Injective(d) && Resolve(d, ROOT, above) == Some(k.parent)
    requires k in d && Leaf(d, d[k])
    ensures Step(d - {k}, RemovedView(d, above + [k.name], p), n) == RemovedView(d, above + [k.name], p + [n])
  {
    ResolveSnoc(d, ROOT, p, n);
    ResolveSnoc(d, ROOT, above, k.name);
    hide Resolve, Injective;
    if Resolve(d, ROOT, p) == Some(k.parent) {
      PathsUnique(d, p, above);
    }
    if p + [n] == above + [k.name] {
      assert p == (p + [n])[..|p|] == above && n == (p + [n])[|p|];
    }
  }

  lemma RemoveKeepsTree(kinds: Kinds, d: Dentries, k: DentryKey)
    requires Tree(kinds, d) && k in d && Leaf(d, d[k])
    ensures Tree(kinds - {d[k]}, d - {k})
  {
    var above := PathTo(d, k.parent);
    forall x | x in kinds - {d[k]} ensures Reaches(d - {k}, ROOT, x) {
      var p := PathTo(d, x);
      RemovedPath(d, k, above, p);
      ResolveSnoc(d, ROOT, above, k.name);
    }
  }

  // ---------- moving an entry ----------

  /** The entries after a move to a free name. */
  function Moved(d: Dentries, oldKey: DentryKey, newKey: DentryKey): Dentries
    requires oldKey in d
  {
    (d - {oldKey})[newKey := d[oldKey]]
  }

  /** What the paths should say after the move: below the new path what was below the old one,
      nothing below the old one, everything else as before. */
  function MovedView(d: Dentries, oldPath: Path, newPath: Path, p: Path): Option<u64> {
    if newPath <= p then Resolve(d, ROOT, oldPath + p[|newPath|..])
    else if oldPath <= p then None
    else Resolve(d, ROOT, p)
  }

  /** A path that passes through the moved inode ends at or below it. */
  lemma BelowMoved(d: Dentries, k: DentryKey, above: Path, q: Path)
    requires k in d && Resolve(d, ROOT, above) == Some(k.parent)
    ensures Resolve(d, ROOT, above + [k.name]) == Some(d[k])
    ensures Resolve(d, ROOT, above + [k.name] + q) == Resolve(d, d[k], q)
  {
    ResolveSnoc(d, ROOT, above, k.name);
    ResolveConcat(d, ROOT, above + [k.name], q);
  }

  lemma NotThroughMoved(d: Dentries, k: DentryKey, above: Path, x: u64, p: Path)
    requires k in d && Resolve(d, ROOT, above) == Some(k.parent)
    requires Resolve(d, ROOT, p) == Some(x) && !Reaches(d, d[k], x)
    ensures !(above + [k.name] <= p)
  {
    if above + [k.name] <= p {
      var q := p[|above| + 1..];
      assert p == above + [k.name] + q;
      BelowMoved(d, k, above, q);
    }
  }

  /** Moving an entry to a free name outside its own subtree moves exactly that subtree:
      the effect on every path. */
  lemma {:induction false} MovedPath(
      d: Dentries, oldKey: DentryKey, newKey: DentryKey, oldAbove: Path, newAbove: Path, p: Path)
    requires Injective(d) && oldKey in d && newKey !in d
    requires Resolve(d, ROOT, oldAbove) == Some(oldKey.parent)
    requires Resolve(d, ROOT, newAbove) == Some(newKey.parent)
    requires !Reaches(d, d[oldKey], newKey.parent)
    ensures Resolve(Moved(d, oldKey, newKey), ROOT, p) ==
            MovedView(d, oldAbove + [oldKey.name], newAbove + [newKey.name], p)
  {
    if p == [] {
      assert MovedView(d, oldAbove + [oldKey.name], newAbove + [newKey.name], p) == Some(ROOT);
    } else {
      MovedPath(d, oldKey, newKey, oldAbove, newAbove, p[..|p| - 1]);
      MovedStep(d, oldKey, newKey, oldAbove, newAbove, p[..|p| - 1], p[|p| - 1]);
      assert p == p[..|p| - 1] + [p[|p| - 1]];
    }
  }

  lemma MovedStep(
      d: Dentries, oldKey: DentryKey, newKey: DentryKey, oldAbove: Path, newAbove: Path, p: Path, n: string)
    requires Injective(d) && oldKey in d && newKey !in d
    requires Resolve(d, ROOT, oldAbove) == Some(oldKey.parent)
    requires Resolve(d, ROOT, newAbove) == Some(newKey.parent)
    requires !Reaches(d, d[oldKey], newKey.parent)
    ensures Step(Moved(d, oldKey, newKey),
                 MovedView(d, oldAbove + [oldKey.name], newAbove + [newKey.name], p), n) ==
            MovedView(d, oldAbove + [oldKey.name], newAbove + [newKey.name], p + [n])
  {
    hide Resolve, Injective, Reaches;
    if newAbove + [newKey.name] <= p {
      MovedPathInside(d, oldKey, newKey, oldAbove, newAbove, p, n);
    } else if newAbove + [newKey.name] <= p + [n] {
      MovedPathOnto(d, oldKey, newKey, oldAbove, newAbove, p, n);
    } else {
      MovedPathOutside(d, oldKey, newKey, oldAbove, newAbove, p, n);
    }
  }

  /** The step onto the new path: it finds the moved inode. */
  lemma MovedPathOnto(
      d: Dentries, oldKey: DentryKey, newKey: DentryKey, oldAbove: Path, newAbove: Path, p: Path, n: string)
    requires oldKey in d
    requires Resolve(d, ROOT, oldAbove) == Some(oldKey.parent)
    requires Resolve(d, ROOT, newAbove) == Some(newKey.parent)
    requires !Reaches(d, d[oldKey], newKey.parent)
    requires !(newAbove + [newKey.name] <= p) && newAbove + [newKey.name] <= p + [n]
    ensures Step(Moved(d, oldKey, newKey),
                 MovedView(d, oldAbove + [oldKey.name], newAbove + [newKey.name], p), n) ==
            MovedView(d, oldAbove + [oldKey.name], newAbove + [newKey.name], p + [n])
  {
    var oldPath, newPath := oldAbove + [oldKey.name], newAbove + [newKey.name];
    PrefixSnoc(newPath, p, n);
    assert p == (p + [n])[..|p|] == newAbove && n == (p + [n])[|p|] == newKey.name;
    NotThroughMoved(d, oldKey, oldAbove, newKey.parent, newAbove);
    BelowMoved(d, oldKey, oldAbove, []);
    assert (p + [n])[|newPath|..] == [] && oldPath + [] == oldPath;
  }

  /** The step below the new path: there the moved subtree is walked as it was. */
  lemma MovedPathInside(
      d: Dentries, oldKey: DentryKey, newKey: DentryKey, oldAbove: Path, newAbove: Path, p: Path, n: string)
    requires Injective(d) && oldKey in d && newKey !in d
    requires Resolve(d, ROOT, oldAbove) == Some(oldKey.parent)
    requires !Reaches(d, d[oldKey], newKey.parent)
    requires newAbove + [newKey.name] <= p
    ensures Step(Moved(d, oldKey, newKey),
                 MovedView(d, oldAbove + [oldKey.name], newAbove + [newKey.name], p), n) ==
            MovedView(d, oldAbove + [oldKey.name], newAbove + [newKey.name], p + [n])
  {
    var oldPath, newPath := oldAbove + [oldKey.name], newAbove + [newKey.name];
    var rest := p[|newPath|..];
    BelowMoved(d, oldKey, oldAbove, rest);
    assert (p + [n])[|newPath|..] == rest + [n];
    assert newPath <= p + [n];
    assert oldPath + (rest + [n]) == oldPath + rest + [n];
    ResolveSnoc(d, ROOT, oldPath + rest, n);
    var y := Resolve(d, ROOT, oldPath + rest);
    if y.Some? {
      if y.value == oldKey.parent {
        PathsUnique(d, oldPath + rest, oldAbove);
        assert false;
      }
      assert Reaches(d, d[oldKey], y.value);
    }
  }

  /** The step outside the new path: the old entry is gone, every other one is as it was. */
  lemma MovedPathOutside(
      d: Dentries, oldKey: DentryKey, newKey: DentryKey, oldAbove: Path, newAbove: Path, p: Path, n: string)
    requires Injective(d) && oldKey in d && newKey !in d
    requires Resolve(d, ROOT, oldAbove) == Some(oldKey.parent)
    requires Resolve(d, ROOT, newAbove) == Some(newKey.parent)
    requires !(newAbove + [newKey.name] <= p + [n])
    ensures Step(Moved(d, oldKey, newKey),
                 MovedView(d, oldAbove + [oldKey.name], newAbove + [newKey.name], p), n) ==
            MovedView(d, oldAbove + [oldKey.name], newAbove + [newKey.name], p + [n])
  {
    var oldPath, newPath := oldAbove + [oldKey.name], newAbove + [newKey.name];
    assert p <= p + [n];
    assert !(newPath <= p);
    var y := Resolve(d, ROOT, p);
    ResolveSnoc(d, ROOT, p, n);
    if oldPath <= p {
      assert oldPath <= p + [n];
    } else if oldPath == p + [n] {
      assert p == oldAbove;
    } else {
      assert !(oldPath <= p + [n]);
      if y.Some? && DentryKey(y.value, n) == oldKey {
        PathsUnique(d, p, oldAbove);
        assert false;
      }
      if y.Some? && DentryKey(y.value, n) == newKey {
        PathsUnique(d, p, newAbove);
        assert false;
      }
    }
  }

  lemma MoveKeepsTree(kinds: Kinds, d: Dentries, oldKey: DentryKey, newKey: DentryKey)
    requires Tree(kinds, d) && oldKey in d && newKey !in d
    requires newKey.parent in kinds && kinds[newKey.parent].Directory?
    requires !Reaches(d, d[oldKey], newKey.parent)
    ensures Tree(kinds, Moved(d, oldKey, newKey))
  {
    var d' := Moved(d, oldKey, newKey);
    hide Reaches;
    assert Wired(kinds, d') && Injective(d');
    forall x | x in kinds ensures Reaches(d', ROOT, x) {
      MovedReached(d, oldKey, newKey, x);
    }
  }

  lemma MovedReached(d: Dentries, oldKey: DentryKey, newKey: DentryKey, x: u64)
    requires Injective(d) && oldKey in d && newKey !in d
    requires Reaches(d, ROOT, oldKey.parent) && Reaches(d, ROOT, newKey.parent) && Reaches(d, ROOT, x)
    requires !Reaches(d, d[oldKey], newKey.parent)
    ensures Reaches(Moved(d, oldKey, newKey), ROOT, x)
  {
    var oldAbove, newAbove := PathTo(d, oldKey.parent), PathTo(d, newKey.parent);
    var oldPath, newPath := oldAbove + [oldKey.name], newAbove + [newKey.name];
    var p := PathTo(d, x);
    var q := if oldPath <= p then newPath + p[|oldPath|..] else p;
    MovedPath(d, oldKey, newKey, oldAbove, newAbove, q);
    hide Resolve;
    if oldPath <= p {
      assert q[|newPath|..] == p[|oldPath|..];
      assert p == oldPath + p[|oldPath|..];
    } else if newPath <= p {
      FreeNameHidesNothing(d, newKey, newAbove, p);
      assert false;
    }
  }

  lemma FreeNameHidesNothing(d: Dentries, k: DentryKey, above: Path, p: Path)
    requires k !in d && Resolve(d, ROOT, above) == Some(k.parent) && above + [k.name] <= p
    ensures Resolve(d, ROOT, p) == None
  {
    var q := p[|above| + 1..];
    assert p == above + [k.name] + q;
    ResolveSnoc(d, ROOT, above, k.name);
    ResolveConcat(d, ROOT, above + [k.name], q);
  }

  /** Once a directory is moved below itself, the root reaches nothing of its subtree. */
  lemma {:induction false} MovedBelowItself(d: Dentries, oldKey: DentryKey, newKey: DentryKey, p: Path)
    requires Injective(d) && oldKey in d && newKey !in d
    requires Reaches(d, d[oldKey], newKey.parent)
    ensures Resolve(Moved(d, oldKey, newKey), ROOT, p).Some? ==>
              !Reaches(d, d[oldKey], Resolve(Moved(d, oldKey, newKey), ROOT, p).value)
  {
    var d' := Moved(d, oldKey, newKey);
    if p == [] {
      ReachesRoot(d, d[oldKey]);
    } else if Resolve(d', ROOT, p).Some? {
      var p', n := p[..|p| - 1], p[|p| - 1];
      MovedBelowItself(d, oldKey, newKey, p');
      var k := DentryKey(Resolve(d', ROOT, p').value, n);
      if k != newKey {
        assert k in d && d'[k] == d[k] && k != oldKey;
        AncestorStep(d, d[oldKey], k);
      }
    }
  }

  /** The guard of Rename is exact: moving an entry to a free name in a directory keeps the
      namespace a tree if and only if that directory is not inside the moved subtree. */
  lemma MoveKeepsTreeIff(kinds: Kinds, d: Dentries, oldKey: DentryKey, newKey: DentryKey)
    requires Tree(kinds, d) && oldKey in d && newKey !in d
    requires newKey.parent in kinds && kinds[newKey.parent].Directory?
    ensures Tree(kinds, Moved(d, oldKey, newKey)) <==> !Reaches(d, d[oldKey], newKey.parent)
  {
    if !Reaches(d, d[oldKey], newKey.parent) {
      MoveKeepsTree(kinds, d, oldKey, newKey);
    } else if Tree(kinds, Moved(d, oldKey, newKey)) {
      assert Reaches(Moved(d, oldKey, newKey), ROOT, d[oldKey]);
      MovedBelowItself(d, oldKey, newKey, PathTo(Moved(d, oldKey, newKey), d[oldKey]));
      ReachesSelf(d, d[oldKey]);
      assert false;
    }
  }

  // ---------- link counts ----------

  /** The entries of a directory that lead to directories. */
  ghost function ChildDirs(kinds: Kinds, d: Dentries, id: u64): set<DentryKey> {
    set k | k in d && k.parent == id && d[k] in kinds && kinds[d[k]].Directory?
  }

  lemma AddCountsChild(kinds: Kinds, d: Dentries, k: DentryKey, id: u64, kind: InodeType, x: u64)
    requires Wired(kinds, d) && k !in d && id !in kinds
    ensures |ChildDirs(kinds[id := kind], d[k := id], x)| ==
            |ChildDirs(kinds, d, x)| + if x == k.parent && kind.Directory? then 1 else 0
  {
    var before, after := ChildDirs(kinds, d, x), ChildDirs(kinds[id := kind], d[k := id], x);
    assert after == if x == k.parent && kind.Directory? then before + {k} else before;
  }

  lemma RemoveCountsChild(kinds: Kinds, d: Dentries, k: DentryKey, x: u64)
    requires Wired(kinds, d) && Injective(d) && k in d
    ensures |ChildDirs(kinds, d, x)| ==
            |ChildDirs(kinds - {d[k]}, d - {k}, x)| + if x == k.parent && kinds[d[k]].Directory? then 1 else 0
  {
    var before, after := ChildDirs(kinds, d, x), ChildDirs(kinds - {d[k]}, d - {k}, x);
    assert before == if x == k.parent && kinds[d[k]].Directory? then after + {k} else after;
  }

  lemma MoveCountsChild(kinds: Kinds, d: Dentries, oldKey: DentryKey, newKey: DentryKey, x: u64)
    requires Wired(kinds, d) && oldKey in d && newKey !in d
    ensures |ChildDirs(kinds, Moved(d, oldKey, newKey), x)| +
            (if x == oldKey.parent && kinds[d[oldKey]].Directory? then 1 else 0) ==
            |ChildDirs(kinds, d, x)| + (if x == newKey.parent && kinds[d[oldKey]].Directory? then 1 else 0)
  {
    var before, after := ChildDirs(kinds, d, x), ChildDirs(kinds, Moved(d, oldKey, newKey), x);
    var without := before - {oldKey};
    assert oldKey in before <==> x == oldKey.parent && kinds[d[oldKey]].Directory?;
    assert newKey in after <==> x == newKey.parent && kinds[d[oldKey]].Directory?;
    assert newKey !in before;
    if newKey in after {
      assert after == without + {newKey};
    } else {
      assert after == without;
    }
  }

  /** Ids below `next` bound the number of children, so no link count can overflow. */
  lemma ChildDirsBound(kinds: Kinds, d: Dentries, id: u64, next: u64)
    requires Injective(d) && ROOT < next
    requires forall k :: k in d ==> 1 <= d[k] < next
    ensures |ChildDirs(kinds, d, id)| <= next - 2
  {
    InjectionBound(d, ChildDirs(kinds, d, id), Ids(next));
  }

  /** The ids handed out after the root and before `next`. */
  ghost function Ids(next: int): (ids: set<int>)
    requires 2 <= next
    ensures |ids| == next - 2 && forall x :: x in ids <==> 2 <= x < next
  {
    if next == 2 then {} else Ids(next - 1) + {next - 1}
  }

  lemma {:induction false} InjectionBound(d: Dentries, keys: set<DentryKey>, range: set<int>)
    requires Injective(d)
    requires forall k :: k in keys ==> k in d && d[k] in range
    ensures |keys| <= |range|
  {
    if keys != {} {
      var k :| k in keys;
      InjectionBound(d, keys - {k}, range - {d[k]});
    }
  }
}
