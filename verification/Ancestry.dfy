/** Walking up from an inode on any tables, tree or not (src/meta_state.cc:653-678): where the
    walk goes, when it ends, and what it answers. */
module Ancestry {
  import opened Types
  import opened Namespace
  import opened MapOrder

  // ---------- the walk ----------

  function ParentsIn(d: Dentries, id: u64): set<u64> {
    set k | k in d && d[k] == id :: k.parent
  }

  /** The parent the program finds: that of the first entry in key order which leads to the inode. */
  ghost function Up(d: Dentries, id: u64): (parent: u64)
    ensures parent != id && id != ROOT ==> exists k :: k in d && d[k] == id && k.parent == parent
  {
    if id == ROOT || ParentsIn(d, id) == {} then id
    else
      LeastExists(ParentsIn(d, id));
      var parent :| IsLeast(ParentsIn(d, id), parent);
      parent
  }

  /** Where the walk is after some steps. */
  ghost function Climb(d: Dentries, id: u64, steps: nat): u64 {
    if steps == 0 then id else Up(d, Climb(d, id, steps - 1))
  }

  /** The walk looks no further: at the root, at an inode without a parent, or at the one sought. */
  ghost predicate Settled(d: Dentries, ancestor: u64, at: u64) {
    at == ancestor || Up(d, at) == at
  }

  ghost predicate WalkEnds(d: Dentries, ancestor: u64, id: u64) {
    exists n: nat :: Settled(d, ancestor, Climb(d, id, n))
  }

  /** What a walk that ends answers. */
  ghost predicate Above(d: Dentries, ancestor: u64, id: u64) {
    exists n: nat :: Climb(d, id, n) == ancestor
  }

  lemma {:induction false} ClimbSum(d: Dentries, id: u64, m: nat, n: nat)
    ensures Climb(d, id, m + n) == Climb(d, Climb(d, id, m), n)
  {
    if n != 0 {
      ClimbSum(d, id, m, n - 1);
    }
  }

  /** A walk that looks no further stays where it is. */
  lemma {:induction false} StaysPut(d: Dentries, id: u64, n: nat)
    requires Up(d, id) == id
    ensures Climb(d, id, n) == id
  {
    if n != 0 {
      StaysPut(d, id, n - 1);
    }
  }

  /** Steps after the last one change no answer. */
  lemma NoLaterAncestor(d: Dentries, ancestor: u64, id: u64, i: nat)
    requires Up(d, Climb(d, id, i)) == Climb(d, id, i)
    requires forall j: nat :: j <= i ==> Climb(d, id, j) != ancestor
    ensures !Above(d, ancestor, id)
  {
    forall n: nat ensures Climb(d, id, n) != ancestor {
      if i < n {
        ClimbSum(d, id, i, n - i);
        StaysPut(d, Climb(d, id, i), n - i);
      }
    }
  }

  // ---------- on a tree ----------

  lemma UpIsParent(d: Dentries, k: DentryKey)
    requires Injective(d) && k in d
    ensures Up(d, d[k]) == k.parent
  {
    assert k.parent in ParentsIn(d, d[k]);
  }

  /** The walk climbs exactly the paths. */
  lemma {:induction false} PathIsClimbed(d: Dentries, a: u64, p: Path)
    requires Injective(d) && Resolve(d, a, p).Some?
    ensures Climb(d, Resolve(d, a, p).value, |p|) == a
  {
    if p != [] {
      var init, id := p[..|p| - 1], Resolve(d, a, p).value;
      var k := DentryKey(Resolve(d, a, init).value, p[|p| - 1]);
      UpIsParent(d, k);
      PathIsClimbed(d, a, init);
      ClimbSum(d, id, 1, |p| - 1);
      assert Climb(d, id, 1) == Up(d, Climb(d, id, 0));
    }
  }

  lemma {:induction false} ClimbedIsPath(d: Dentries, id: u64, n: nat)
    ensures Reaches(d, Climb(d, id, n), id)
  {
    if n == 0 {
      ReachesSelf(d, id);
    } else {
      ClimbedIsPath(d, id, n - 1);
      var low, high := Climb(d, id, n - 1), Climb(d, id, n);
      if high != low && low != ROOT {
        var k :| k in d && d[k] == low && k.parent == high;
        var p :| Resolve(d, low, p) == Some(id);
        EntryThenPath(d, k, p);
      }
    }
  }

  /** Where no inode has two entries, the walk answers whether a path leads from one to the other. */
  lemma AboveIsReaches(d: Dentries, a: u64, id: u64)
    requires Injective(d)
    ensures Above(d, a, id) <==> Reaches(d, a, id)
  {
    if p :| Resolve(d, a, p) == Some(id) {
      PathIsClimbed(d, a, p);
    }
    if n: nat :| Climb(d, id, n) == a {
      ClimbedIsPath(d, id, n);
    }
  }

  /** On a tree every walk ends: at the root at the latest. */
  lemma TreeWalksEnd(kinds: Kinds, d: Dentries, ancestor: u64, id: u64)
    requires Tree(kinds, d) && id in kinds
    ensures WalkEnds(d, ancestor, id)
  {
    PathIsClimbed(d, ROOT, PathTo(d, id));
    assert Settled(d, ancestor, Climb(d, id, |PathTo(d, id)|));
  }

  // ---------- on any tables ----------

  /** A loop of parents: going up leads back, and never stands still on the way. */
  ghost predicate Loops(d: Dentries, id: u64, n: nat) {
    0 < n && Climb(d, id, n) == id && Up(d, id) != id
  }

  lemma LoopNeverSettles(d: Dentries, id: u64, n: nat, m: nat)
    requires Loops(d, id, n)
    ensures Up(d, Climb(d, id, m)) != Climb(d, id, m)
  {
    if Up(d, Climb(d, id, m)) == Climb(d, id, m) {
      ClimbTimes(d, id, n, m + 1);
      var k := n * (m + 1) - m;
      assert k >= 0 by {
        MoreTurns(n, m);
      }
      ClimbSum(d, id, m, k);
      StaysPut(d, Climb(d, id, m), k);
      assert false;
    }
  }

  lemma MoreTurns(n: nat, m: nat)
    requires 0 < n
    ensures m <= n * (m + 1)
  {
  }

  /** Any number of turns leads back. */
  lemma {:induction false} ClimbTimes(d: Dentries, id: u64, n: nat, turns: nat)
    requires Climb(d, id, n) == id
    ensures n * turns >= 0 && Climb(d, id, n * turns) == id
  {
    if turns != 0 {
      ClimbTimes(d, id, n, turns - 1);
      assert n * turns == n * (turns - 1) + n;
      ClimbSum(d, id, n * (turns - 1), n);
    }
  }

  /** On a loop the walk does not end, unless what it looks for lies on the loop. */
  lemma LoopTrapsWalk(d: Dentries, ancestor: u64, id: u64, n: nat)
    requires Loops(d, id, n)
    ensures WalkEnds(d, ancestor, id) <==> Above(d, ancestor, id)
  {
    if m: nat :| Settled(d, ancestor, Climb(d, id, m)) {
      LoopNeverSettles(d, id, n, m);
    }
    if m: nat :| Climb(d, id, m) == ancestor {
      assert Settled(d, ancestor, Climb(d, id, m));
    }
  }

  /** The inodes a walk has passed. */
  ghost function Passed(d: Dentries, id: u64, n: nat): set<u64> {
    set i | 0 <= i < n :: Climb(d, id, i)
  }

  lemma HasEntry(d: Dentries, id: u64)
    requires Up(d, id) != id
    ensures id in d.Values
  {
    var k :| k in d && d[k] == id;
  }

  /** A walk that goes on for n steps and meets no inode twice passes n inodes with entries. */
  lemma {:induction false} PassedHaveEntries(d: Dentries, id: u64, n: nat)
    requires forall i: nat :: i < n ==> Up(d, Climb(d, id, i)) != Climb(d, id, i)
    requires forall i: nat, j: nat :: i < j < n ==> Climb(d, id, i) != Climb(d, id, j)
    ensures |Passed(d, id, n)| == n && Passed(d, id, n) <= d.Values
  {
    hide Climb, Up;
    if n != 0 {
      PassedHaveEntries(d, id, n - 1);
      var x := Climb(d, id, n - 1);
      HasEntry(d, x);
      assert x !in Passed(d, id, n - 1);
      assert Passed(d, id, n) == Passed(d, id, n - 1) + {x};
    }
  }

  /** A walk that goes on for more steps than there are inodes with entries is in a loop. */
  lemma LongWalkLoops(d: Dentries, id: u64) returns (i: nat, n: nat)
    requires forall j: nat :: j <= |d.Values| ==> Up(d, Climb(d, id, j)) != Climb(d, id, j)
    ensures Loops(d, Climb(d, id, i), n)
  {
    var long := |d.Values| + 1;
    if forall i: nat, j: nat :: i < j < long ==> Climb(d, id, i) != Climb(d, id, j) {
      PassedHaveEntries(d, id, long);
      SubsetSize(Passed(d, id, long), d.Values);
      assert false;
    }
    var a: nat, b: nat :| a < b < long && Climb(d, id, a) == Climb(d, id, b);
    i, n := a, b - a;
    ClimbSum(d, id, a, n);
  }

  lemma SubsetSize(a: set<u64>, b: set<u64>)
    requires a <= b
    ensures |a| <= |b|
  {
    assert b == a + (b - a);
  }

  /** The ancestor walk of the program ends for every pair of inodes if and only if no inode lies on
      a loop of parents. */
  lemma WalksEndIffNoLoops(d: Dentries)
    ensures (forall ancestor, id :: WalkEnds(d, ancestor, id)) <==> (forall id, n: nat :: !Loops(d, id, n))
  {
    if id, n: nat :| Loops(d, id, n) {
      LoopMissesRoot(d, id, n);
      LoopTrapsWalk(d, ROOT, id, n);
      assert !WalkEnds(d, ROOT, id);
    }
    forall ancestor, id | !WalkEnds(d, ancestor, id) ensures exists x, n: nat :: Loops(d, x, n) {
      forall j: nat ensures Up(d, Climb(d, id, j)) != Climb(d, id, j) {
        assert !Settled(d, ancestor, Climb(d, id, j));
      }
      var i, n := LongWalkLoops(d, id);
    }
  }

  lemma LoopMissesRoot(d: Dentries, id: u64, n: nat)
    requires Loops(d, id, n)
    ensures !Above(d, ROOT, id)
  {
    if m: nat :| Climb(d, id, m) == ROOT {
      LoopNeverSettles(d, id, n, m);
    }
  }

  /** A loop of parents is an inode that lies below itself. */
  lemma LoopIsCycle(d: Dentries, id: u64, n: nat) returns (p: Path)
    requires Loops(d, id, n)
    ensures p != [] && Resolve(d, id, p) == Some(id)
  {
    var low := Climb(d, id, n - 1);
    LoopNeverSettles(d, id, n, n - 1);
    var k :| k in d && d[k] == low && k.parent == id;
    ClimbedIsPath(d, id, n - 1);
    var q :| Resolve(d, low, q) == Some(id);
    EntryThenPath(d, k, q);
    p := [k.name] + q;
  }

  /** Where no inode has two entries: the ancestor walk ends for every pair of inodes if and only if
      no inode lies below itself, except as its own entry. */
  lemma WalksEndIffNothingBelowItself(d: Dentries)
    requires Injective(d)
    ensures (forall ancestor, id :: WalkEnds(d, ancestor, id)) <==>
            (forall id: u64, p :: Resolve(d, id, p) == Some(id) ==> p == [] || Up(d, id) == id)
  {
    WalksEndIffNoLoops(d);
    hide WalkEnds, Injective;
    if id: u64, p :| Resolve(d, id, p) == Some(id) && p != [] && Up(d, id) != id {
      PathIsClimbed(d, id, p);
      assert Loops(d, id, |p|);
    }
    if id: u64, n: nat :| Loops(d, id, n) {
      var p := LoopIsCycle(d, id, n);
    }
  }

  // ---------- which tables are trees ----------

  /** No inode lies below itself. */
  ghost predicate Acyclic(d: Dentries) {
    forall id: u64, p :: Resolve(d, id, p) == Some(id) ==> p == []
  }

  /** What can be seen without following any path from the root: every entry lies in an existing
      directory and leads to an existing inode other than the root, every inode but the root has
      exactly one entry, and no inode lies below itself. */
  ghost predicate Climbable(kinds: Kinds, d: Dentries) {
    && Wired(kinds, d)
    && (forall k :: k in d ==> d[k] != ROOT)
    && (forall id :: id in kinds && id != ROOT ==> OneEntry(d, id))
    && Acyclic(d)
  }

  ghost predicate OneEntry(d: Dentries, id: u64) {
    exists k :: k in d && d[k] == id && forall l :: l in d && d[l] == id ==> l == k
  }

  lemma EntryAbove(kinds: Kinds, d: Dentries, id: u64) returns (k: DentryKey)
    requires Climbable(kinds, d) && id in kinds && id != ROOT
    ensures k in d && d[k] == id && k.parent in kinds && Acyclic(d)
  {
    assert OneEntry(d, id);
    k :| k in d && d[k] == id;
  }

  /** Climbing from any inode reaches the root, since no inode is met twice. */
  lemma {:induction false} RootIsReached(kinds: Kinds, d: Dentries, id: u64, below: set<u64>)
    requires Climbable(kinds, d) && id in kinds && below <= kinds.Keys
    requires forall x :: x in below ==> x != id && Reaches(d, id, x)
    ensures Reaches(d, ROOT, id)
    decreases |kinds.Keys - below|
  {
    ReachesSelf(d, id);
    if id != ROOT {
      hide Climbable, Reaches, Acyclic;
      var k := EntryAbove(kinds, d, id);
      forall x | x in below + {id} ensures x != k.parent && Reaches(d, k.parent, x) {
        ParentReaches(d, k, x);
      }
      assert id in kinds.Keys - below;
      SubsetIsSmaller(kinds.Keys - (below + {id}), kinds.Keys - below);
      RootIsReached(kinds, d, k.parent, below + {id});
      ChildIsReached(d, k);
    }
  }

  lemma ChildIsReached(d: Dentries, k: DentryKey)
    requires k in d && Reaches(d, ROOT, k.parent)
    ensures Reaches(d, ROOT, d[k])
  {
    var p :| Resolve(d, ROOT, p) == Some(k.parent);
    ResolveSnoc(d, ROOT, p, k.name);
  }

  lemma SubsetIsSmaller(a: set<u64>, b: set<u64>)
    requires a < b
    ensures |a| < |b|
  {
    assert b == a + (b - a) && b - a != {};
  }

  /** What an inode reaches its parent reaches, by a path that is not empty. */
  lemma ParentReaches(d: Dentries, k: DentryKey, x: u64)
    requires Acyclic(d) && k in d && Reaches(d, d[k], x)
    ensures Reaches(d, k.parent, x) && x != k.parent
  {
    var p :| Resolve(d, d[k], p) == Some(x);
    EntryThenPath(d, k, p);
    hide Resolve;
    assert [k.name] + p != [];
  }

  lemma EntryThenPath(d: Dentries, k: DentryKey, p: Path)
    requires k in d
    ensures Resolve(d, k.parent, [k.name] + p) == Resolve(d, d[k], p)
  {
    ResolveSnoc(d, k.parent, [], k.name);
    assert [] + [k.name] == [k.name];
    ResolveConcat(d, k.parent, [k.name], p);
  }

  lemma TreeIsAcyclic(kinds: Kinds, d: Dentries, id: u64, p: Path)
    requires Tree(kinds, d) && Resolve(d, id, p) == Some(id)
    ensures p == []
  {
    if p != [] {
      var k := DentryKey(Resolve(d, id, p[..|p| - 1]).value, p[|p| - 1]);
      assert k in d && id in kinds;
      var q := PathTo(d, id);
      ResolveConcat(d, ROOT, q, p);
      PathsUnique(d, q, q + p);
    }
  }

  lemma ReachedHasEntry(d: Dentries, id: u64)
    requires Injective(d) && Reaches(d, ROOT, id) && id != ROOT
    ensures OneEntry(d, id)
  {
    var p := PathTo(d, id);
    assert p != [];
    var k := DentryKey(Resolve(d, ROOT, p[..|p| - 1]).value, p[|p| - 1]);
    assert k in d && d[k] == id;
  }

  /** Tables are a tree if and only if they are climbable. */
  lemma TreeIffClimbable(kinds: Kinds, d: Dentries)
    ensures Tree(kinds, d) <==> Climbable(kinds, d)
  {
    if Tree(kinds, d) {
      forall id | id in kinds && id != ROOT ensures OneEntry(d, id) {
        ReachedHasEntry(d, id);
      }
      forall id: u64, p | Resolve(d, id, p) == Some(id) ensures p == [] {
        TreeIsAcyclic(kinds, d, id, p);
      }
    }
    if Climbable(kinds, d) {
      forall k, l | k in d && l in d && d[k] == d[l] ensures k == l {
        assert OneEntry(d, d[k]);
      }
      forall id | id in kinds ensures Reaches(d, ROOT, id) {
        RootIsReached(kinds, d, id, {});
      }
    }
  }
}
