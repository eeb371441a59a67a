/** The order in which the program walks its ordered maps: numbers by size, directory entries by
    parent and then by name (src/meta_state.h:61-84). */
module MapOrder {
  import opened Types
  import opened Text

  // ---------- numbers ----------

  predicate IsLeast(ids: set<u64>, x: u64) {
    x in ids && forall y :: y in ids ==> x <= y
  }

  lemma {:induction false} LeastExists(ids: set<u64>)
    requires ids != {}
    ensures exists x :: IsLeast(ids, x)
  {
    var x :| x in ids;
    if ids == {x} {
      assert IsLeast(ids, x);
    } else {
      LeastExists(ids - {x});
      var z :| IsLeast(ids - {x}, z);
      var least := if x < z then x else z;
      forall y | y in ids ensures least <= y {
        assert y == x || y in ids - {x};
      }
      assert IsLeast(ids, least);
    }
  }

  // ---------- directory entries ----------

  predicate Before(k: DentryKey, l: DentryKey) {
    k.parent < l.parent || (k.parent == l.parent && Less(k.name, l.name))
  }

  lemma BeforeIsTotal(k: DentryKey, l: DentryKey)
    ensures Before(k, l) || k == l || Before(l, k)
    ensures !(Before(k, l) && Before(l, k)) && !Before(k, k)
  {
    LessTotal(k.name, l.name);
  }

  lemma BeforeIsTransitive(k: DentryKey, l: DentryKey, m: DentryKey)
    requires Before(k, l) && Before(l, m)
    ensures Before(k, m)
  {
    if k.parent == l.parent == m.parent {
      LessTransitive(k.name, l.name, m.name);
    }
  }

  predicate IsFirst(keys: set<DentryKey>, k: DentryKey) {
    k in keys && forall l :: l in keys && l != k ==> Before(k, l)
  }

  lemma {:induction false} FirstExists(keys: set<DentryKey>)
    requires keys != {}
    ensures exists k :: IsFirst(keys, k)
  {
    hide Before;
    var k :| k in keys;
    if keys == {k} {
      assert IsFirst(keys, k);
    } else {
      FirstExists(keys - {k});
      var m :| IsFirst(keys - {k}, m);
      BeforeIsTotal(k, m);
      var first := if Before(k, m) then k else m;
      forall l | l in keys && l != first ensures Before(first, l) {
        if l != k && l != m {
          assert l in keys - {k};
          if first == k {
            BeforeIsTransitive(k, m, l);
          }
        }
      }
      assert IsFirst(keys, first);
    }
  }
}
