/** Sorting object keys and dropping duplicates, as ListLiveObjects does (src/meta_state.cc:343-344). */
module KeyLists {
  import opened Text

  /** No later key is smaller than an earlier one. */
  predicate Sorted(xs: seq<string>) {
    forall i, j :: 0 <= i < j < |xs| ==> !Less(xs[j], xs[i])
  }

  predicate StrictlySorted(xs: seq<string>) {
    forall i, j :: 0 <= i < j < |xs| ==> Less(xs[i], xs[j])
  }

  function InsertKey(xs: seq<string>, key: string): seq<string> {
    if xs == [] then [key]
    else if !Less(key, xs[|xs| - 1]) then xs + [key]
    else InsertKey(xs[..|xs| - 1], key) + [xs[|xs| - 1]]
  }

  /** The library sort. */
  function SortKeys(xs: seq<string>): seq<string> {
    if xs == [] then [] else InsertKey(SortKeys(xs[..|xs| - 1]), xs[|xs| - 1])
  }

  lemma {:induction false} InsertKeyMembers(xs: seq<string>, key: string, x: string)
    ensures x in InsertKey(xs, key) <==> x in xs || x == key
  {
    if xs != [] {
      assert x in xs <==> x in xs[..|xs| - 1] || x == xs[|xs| - 1];
      InsertKeyMembers(xs[..|xs| - 1], key, x);
    }
  }

  lemma NotLessTransitive(a: string, b: string, c: string)
    requires !Less(b, a) && !Less(c, b)
    ensures !Less(c, a)
  {
    LessTotal(a, b);
    LessTotal(b, c);
    LessTotal(a, c);
    if Less(c, a) && Less(a, b) {
      LessTransitive(c, a, b);
    }
  }

  lemma {:induction false} InsertKeySorted(xs: seq<string>, key: string)
    requires Sorted(xs)
    ensures Sorted(InsertKey(xs, key))
  {
    if xs != [] {
      var init, last := xs[..|xs| - 1], xs[|xs| - 1];
      if Less(key, last) {
        InsertKeySorted(init, key);
        var r := InsertKey(init, key);
        forall i | 0 <= i < |r| ensures !Less(last, r[i]) {
          InsertKeyMembers(init, key, r[i]);
          LessTotal(key, last);
          if r[i] != key {
            var j :| 0 <= j < |init| && init[j] == r[i];
            assert xs[j] == r[i];
          }
        }
      } else {
        forall i | 0 <= i < |xs| ensures !Less(key, xs[i]) {
          if i < |init| {
            NotLessTransitive(xs[i], last, key);
          }
        }
      }
    }
  }

  lemma {:induction false} SortKeysSorts(xs: seq<string>)
    ensures Sorted(SortKeys(xs))
    ensures forall x :: x in SortKeys(xs) <==> x in xs
  {
    if xs != [] {
      var init, last := xs[..|xs| - 1], xs[|xs| - 1];
      SortKeysSorts(init);
      InsertKeySorted(SortKeys(init), last);
      forall x ensures x in SortKeys(xs) <==> x in xs {
        InsertKeyMembers(SortKeys(init), last, x);
        assert x in xs <==> x in init || x == last;
      }
    }
  }

  /** std::sort followed by erasing adjacent duplicates. */
  method SortUnique(xs: seq<string>) returns (r: seq<string>)
    ensures StrictlySorted(r)
    ensures forall x :: x in r <==> x in xs
  {
    var sorted := SortKeys(xs);
    SortKeysSorts(xs);
    r := [];
    for i := 0 to |sorted|
      invariant StrictlySorted(r)
      invariant forall x :: x in r <==> x in sorted[..i]
      invariant r == [] <==> i == 0
      invariant i > 0 ==> r[|r| - 1] == sorted[i - 1]
    {
      assert forall x :: x in sorted[..i + 1] <==> x in sorted[..i] || x == sorted[i];
      if r == [] || r[|r| - 1] != sorted[i] {
        if r != [] {
          LessTotal(r[|r| - 1], sorted[i]);
          forall j | 0 <= j < |r| ensures Less(r[j], sorted[i]) {
            if j < |r| - 1 {
              LessTransitive(r[j], r[|r| - 1], sorted[i]);
            }
          }
        }
        r := r + [sorted[i]];
      }
    }
    assert sorted[..|sorted|] == sorted;
  }
}
