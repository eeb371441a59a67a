/** The extent algebra of a file layout (src/meta_state.cc:9-57): what a list of extents says
    about every byte position, and how merging, appending and truncating change that. */
module Extents {
  import opened Types

  function ExtentEnd(e: FileExtent): u64 {
    Add64(e.offset, e.length)
  }

  predicate Overlaps(a: FileExtent, b: FileExtent) {
    a.offset < ExtentEnd(b) && b.offset < ExtentEnd(a)
  }

  function SliceExtent(e: FileExtent, offset: u64, length: u64): FileExtent {
    e.(offset := offset, length := length, objectOffset := Add64(e.objectOffset, Sub64(offset, e.offset)))
  }

  /** The end of the extent is representable: the unchecked addition does not wrap. */
  predicate Fits(e: FileExtent) {
    e.offset + e.length < TWO_64
  }

  predicate AllFit(xs: seq<FileExtent>) {
    forall i :: 0 <= i < |xs| ==> Fits(xs[i])
  }

  /** Sorted by offset, pairwise disjoint, no empty extent, no wrapped end. */
  predicate WellFormed(xs: seq<FileExtent>) {
    && (forall i :: 0 <= i < |xs| ==> 0 < xs[i].length && Fits(xs[i]))
    && (forall i, j :: 0 <= i < j < |xs| ==> xs[i].offset + xs[i].length <= xs[j].offset)
  }

  /** Every extent ends at or before `size`. */
  predicate Bounded(xs: seq<FileExtent>, size: int) {
    forall i :: 0 <= i < |xs| ==> xs[i].offset + xs[i].length <= size
  }

  lemma AppendOne(xs: seq<FileExtent>, x: FileExtent)
    requires WellFormed(xs) && 0 < x.length && Fits(x) && Bounded(xs, x.offset)
    ensures WellFormed(xs + [x]) && Bounded(xs + [x], x.offset + x.length)
  {
  }

  /** No extent of one list overlaps one of the other. */
  predicate Apart(xs: seq<FileExtent>, ys: seq<FileExtent>) {
    forall i, j :: 0 <= i < |xs| && 0 <= j < |ys| ==> !Overlaps(xs[i], ys[j])
  }

  /** Every extent's object range lies inside its object. */
  predicate InsideObjects(xs: seq<FileExtent>) {
    forall i :: 0 <= i < |xs| ==> xs[i].objectOffset + xs[i].length <= xs[i].objectSize
  }

  /** Splitting off the last element, also behind a common front. */
  lemma SplitLast<T>(xs: seq<T>, ys: seq<T>)
    requires ys != []
    ensures ys == ys[..|ys| - 1] + [ys[|ys| - 1]]
    ensures xs + ys == xs + ys[..|ys| - 1] + [ys[|ys| - 1]]
  {
  }

  // ---------- what a list of extents means ----------

  /** A byte of an object. */
  datatype Location = Location(key: string, position: u64)

  predicate Covers(e: FileExtent, p: u64) {
    e.offset <= p < e.offset + e.length
  }

  function Locate(e: FileExtent, p: u64): Location
    requires Covers(e, p)
  {
    Location(e.objectKey, Add64(e.objectOffset, p - e.offset))
  }

  /** The object byte behind position p, or None for a hole; a later extent hides an earlier one. */
  function At(xs: seq<FileExtent>, p: u64): Option<Location> {
    if xs == [] then None
    else if Covers(xs[|xs| - 1], p) then Some(Locate(xs[|xs| - 1], p))
    else At(xs[..|xs| - 1], p)
  }

  lemma {:induction false} AtConcat(xs: seq<FileExtent>, ys: seq<FileExtent>, p: u64)
    ensures At(xs + ys, p) == if At(ys, p).Some? then At(ys, p) else At(xs, p)
  {
    if ys == [] {
      assert xs + ys == xs;
    } else {
      assert (xs + ys)[..|xs + ys| - 1] == xs + ys[..|ys| - 1];
      AtConcat(xs, ys[..|ys| - 1], p);
    }
  }

  /** A position is backed exactly when some extent covers it. */
  lemma {:induction false} AtSomeIffCovered(xs: seq<FileExtent>, p: u64)
    ensures At(xs, p).Some? <==> exists i :: 0 <= i < |xs| && Covers(xs[i], p)
  {
    if xs != [] {
      var init := xs[..|xs| - 1];
      AtSomeIffCovered(init, p);
      if At(xs, p).Some? && !Covers(xs[|xs| - 1], p) {
        var i :| 0 <= i < |init| && Covers(init[i], p);
        assert Covers(xs[i], p);
      }
      if i :| 0 <= i < |xs| && Covers(xs[i], p) && i < |init| {
        assert Covers(init[i], p);
      }
    }
  }

  // ---------- MergeExtent ----------

  /** What MergeExtent keeps of one stored extent when `e` is written over it. */
  function Remainders(x: FileExtent, e: FileExtent): seq<FileExtent> {
    if !Overlaps(x, e) then [x] else
    (if x.offset < e.offset then [SliceExtent(x, x.offset, Sub64(e.offset, x.offset))] else []) +
    (if ExtentEnd(e) < ExtentEnd(x)
     then [SliceExtent(x, ExtentEnd(e), Sub64(ExtentEnd(x), ExtentEnd(e)))] else [])
  }

  function Kept(xs: seq<FileExtent>, e: FileExtent): seq<FileExtent> {
    if xs == [] then [] else Kept(xs[..|xs| - 1], e) + Remainders(xs[|xs| - 1], e)
  }

  function InsertByOffset(xs: seq<FileExtent>, e: FileExtent): (r: seq<FileExtent>)
    ensures |r| == |xs| + 1
  {
    if xs == [] then [e]
    else if xs[|xs| - 1].offset <= e.offset then xs + [e]
    else InsertByOffset(xs[..|xs| - 1], e) + [xs[|xs| - 1]]
  }

  predicate SortedByOffset(xs: seq<FileExtent>) {
    forall i, j :: 0 <= i < j < |xs| ==> xs[i].offset <= xs[j].offset
  }

  /** The library sort MergeExtent calls, as a stable sort. */
  function SortByOffset(xs: seq<FileExtent>): (r: seq<FileExtent>)
    ensures |r| == |xs|
  {
    if xs == [] then []
    else InsertByOffset(SortByOffset(xs[..|xs| - 1]), xs[|xs| - 1])
  }

  /** The stored list after MergeExtent. */
  function Merged(xs: seq<FileExtent>, e: FileExtent): seq<FileExtent> {
    SortByOffset(Kept(xs, e) + [e])
  }

  lemma {:induction false} InsertPermutes(xs: seq<FileExtent>, e: FileExtent)
    ensures multiset(InsertByOffset(xs, e)) == multiset(xs) + multiset{e}
  {
    if xs != [] && e.offset < xs[|xs| - 1].offset {
      InsertPermutes(xs[..|xs| - 1], e);
      assert xs == xs[..|xs| - 1] + [xs[|xs| - 1]];
    }
  }

  lemma SortStep(xs: seq<FileExtent>)
    requires xs != []
    ensures SortByOffset(xs) == InsertByOffset(SortByOffset(xs[..|xs| - 1]), xs[|xs| - 1])
  {
  }

  lemma {:induction false} SortPermutes(xs: seq<FileExtent>)
    ensures multiset(SortByOffset(xs)) == multiset(xs)
  {
    if xs != [] {
      hide SortByOffset, InsertByOffset;
      var init, last := xs[..|xs| - 1], xs[|xs| - 1];
      SortStep(xs);
      SortPermutes(init);
      InsertPermutes(SortByOffset(init), last);
      assert xs == init + [last];
      assert multiset(xs) == multiset(init) + multiset{last};
    }
  }

  lemma InsertMembers(xs: seq<FileExtent>, e: FileExtent, x: FileExtent)
    ensures x in InsertByOffset(xs, e) <==> x in xs || x == e
  {
    InsertPermutes(xs, e);
    assert x in InsertByOffset(xs, e) <==> x in multiset(InsertByOffset(xs, e));
    assert x in xs <==> x in multiset(xs);
  }

  lemma {:induction false} InsertSorted(xs: seq<FileExtent>, e: FileExtent)
    requires SortedByOffset(xs)
    ensures SortedByOffset(InsertByOffset(xs, e))
  {
    if xs != [] && e.offset < xs[|xs| - 1].offset {
      var init, last := xs[..|xs| - 1], xs[|xs| - 1];
      InsertSorted(init, e);
      var r := InsertByOffset(init, e);
      forall i | 0 <= i < |r| ensures r[i].offset <= last.offset {
        InsertMembers(init, e, r[i]);
        if r[i] != e {
          var j :| 0 <= j < |init| && init[j] == r[i];
          assert xs[j] == init[j];
        }
      }
      assert InsertByOffset(xs, e) == r + [last];
    }
  }

  /** The library sort really sorts. */
  lemma {:induction false} SortSorts(xs: seq<FileExtent>)
    ensures SortedByOffset(SortByOffset(xs))
    ensures multiset(SortByOffset(xs)) == multiset(xs)
  {
    SortPermutes(xs);
    if xs != [] {
      SortSorts(xs[..|xs| - 1]);
      InsertSorted(SortByOffset(xs[..|xs| - 1]), xs[|xs| - 1]);
    }
  }

  lemma {:induction false} SortKeepsSorted(xs: seq<FileExtent>)
    requires SortedByOffset(xs)
    ensures SortByOffset(xs) == xs
  {
    if xs != [] {
      SortKeepsSorted(xs[..|xs| - 1]);
      assert xs == xs[..|xs| - 1] + [xs[|xs| - 1]];
    }
  }

  /** The remainders of x, in plain arithmetic: the parts of x before and behind e. */
  lemma RemaindersShape(x: FileExtent, e: FileExtent)
    requires Fits(x) && 0 < x.length && Fits(e) && 0 < e.length
    ensures WellFormed(Remainders(x, e)) && |Remainders(x, e)| <= 2
    ensures forall y :: y in Remainders(x, e) ==>
                          && x.offset <= y.offset && y.offset + y.length <= x.offset + x.length
                          && !Overlaps(y, e)
    ensures |Remainders(x, e)| == 2 <==> x.offset < e.offset && e.offset + e.length < x.offset + x.length
    ensures x.offset + x.length <= e.offset ==> Remainders(x, e) == [x]
  {
  }

  lemma AppendAll(xs: seq<FileExtent>, ys: seq<FileExtent>, bound: int)
    requires WellFormed(xs) && WellFormed(ys) && Bounded(ys, bound)
    requires forall j :: 0 <= j < |ys| ==> Bounded(xs, ys[j].offset)
    requires Bounded(xs, bound)
    ensures WellFormed(xs + ys) && Bounded(xs + ys, bound)
  {
  }

  lemma {:induction false} KeptWellFormed(xs: seq<FileExtent>, e: FileExtent)
    requires WellFormed(xs) && Fits(e) && 0 < e.length
    ensures WellFormed(Kept(xs, e))
    ensures xs == [] ==> Kept(xs, e) == []
    ensures xs != [] ==> Bounded(Kept(xs, e), xs[|xs| - 1].offset + xs[|xs| - 1].length)
  {
    if xs != [] {
      var init, last := xs[..|xs| - 1], xs[|xs| - 1];
      KeptWellFormed(init, e);
      RemaindersShape(last, e);
      var a, b := Kept(init, e), Remainders(last, e);
      assert Bounded(a, last.offset);
      forall j | 0 <= j < |b|
        ensures Bounded(a, b[j].offset) && b[j].offset + b[j].length <= last.offset + last.length
      {
        assert b[j] in b;
      }
      AppendAll(a, b, last.offset + last.length);
    }
  }

  lemma {:induction false} KeptDisjoint(xs: seq<FileExtent>, e: FileExtent)
    requires WellFormed(xs) && Fits(e) && 0 < e.length
    ensures forall y :: y in Kept(xs, e) ==> !Overlaps(y, e)
  {
    if xs != [] {
      KeptDisjoint(xs[..|xs| - 1], e);
      RemaindersShape(xs[|xs| - 1], e);
    }
  }

  lemma {:induction false} KeptAt(xs: seq<FileExtent>, e: FileExtent, p: u64)
    requires WellFormed(xs) && Fits(e) && 0 < e.length
    ensures At(Kept(xs, e), p) == if Covers(e, p) then None else At(xs, p)
  {
    if xs != [] {
      var init, last := xs[..|xs| - 1], xs[|xs| - 1];
      KeptAt(init, e, p);
      AtConcat(Kept(init, e), Remainders(last, e), p);
      RemaindersAt(last, e, p);
    }
  }

  lemma AtOne(x: FileExtent, p: u64)
    ensures At([x], p) == if Covers(x, p) then Some(Locate(x, p)) else None
  {
    assert [x][..0] == [];
  }

  lemma RemaindersAt(x: FileExtent, e: FileExtent, p: u64)
    requires Fits(x) && 0 < x.length && Fits(e) && 0 < e.length
    ensures At(Remainders(x, e), p) ==
            if Covers(x, p) && !Covers(e, p) then Some(Locate(x, p)) else None
  {
    AtOne(x, p);
    if Overlaps(x, e) {
      var l := SliceExtent(x, x.offset, Sub64(e.offset, x.offset));
      var r := SliceExtent(x, ExtentEnd(e), Sub64(ExtentEnd(x), ExtentEnd(e)));
      var ls := if x.offset < e.offset then [l] else [];
      var rs := if ExtentEnd(e) < ExtentEnd(x) then [r] else [];
      AtOne(l, p);
      AtOne(r, p);
      AtConcat(ls, rs, p);
    }
  }

  lemma {:induction false} InsertWellFormed(xs: seq<FileExtent>, e: FileExtent)
    requires WellFormed(xs) && Fits(e) && 0 < e.length
    requires forall i :: 0 <= i < |xs| ==> !Overlaps(xs[i], e)
    ensures WellFormed(InsertByOffset(xs, e))
    ensures xs != [] ==> Bounded(InsertByOffset(xs, e),
                                 if xs[|xs| - 1].offset <= e.offset then e.offset + e.length
                                 else xs[|xs| - 1].offset + xs[|xs| - 1].length)
  {
    if xs == [] {
    } else if xs[|xs| - 1].offset <= e.offset {
      assert !Overlaps(xs[|xs| - 1], e);
      AppendOne(xs, e);
    } else {
      var init, last := xs[..|xs| - 1], xs[|xs| - 1];
      assert !Overlaps(last, e);
      InsertWellFormed(init, e);
      assert Bounded(init, last.offset);
      AppendOne(InsertByOffset(init, e), last);
    }
  }

  lemma {:induction false} InsertAt(xs: seq<FileExtent>, e: FileExtent, p: u64)
    requires WellFormed(xs) && Fits(e) && 0 < e.length
    requires forall i :: 0 <= i < |xs| ==> !Overlaps(xs[i], e)
    ensures At(InsertByOffset(xs, e), p) == if Covers(e, p) then Some(Locate(e, p)) else At(xs, p)
  {
    AtOne(e, p);
    if xs != [] {
      var init, last := xs[..|xs| - 1], xs[|xs| - 1];
      assert !Overlaps(last, e) && Fits(last) && 0 < last.length;
      AtConcat(xs, [e], p);
      if e.offset < last.offset {
        InsertAt(init, e, p);
        SplitLast([], xs);
        hide At, WellFormed;
        AtOne(last, p);
        AtConcat(init, [last], p);
        AtConcat(InsertByOffset(init, e), [last], p);
      }
    }
  }

  /** Merging writes the extent over whatever was there and keeps every other byte; the list
      stays sorted and disjoint, and grows by at most two entries. */
  lemma MergeOverlays(xs: seq<FileExtent>, e: FileExtent)
    requires WellFormed(xs) && Fits(e) && 0 < e.length
    ensures WellFormed(Merged(xs, e))
    ensures |Merged(xs, e)| <= |xs| + 2
    ensures forall p: u64 :: At(Merged(xs, e), p) ==
                             if Covers(e, p) then Some(Locate(e, p)) else At(xs, p)
  {
    var kept := Kept(xs, e);
    KeptWellFormed(xs, e);
    KeptDisjoint(xs, e);
    assert (kept + [e])[..|kept|] == kept;
    assert SortedByOffset(kept);
    SortKeepsSorted(kept);
    assert Merged(xs, e) == InsertByOffset(kept, e);
    InsertWellFormed(kept, e);
    KeptLength(xs, e);
    forall p: u64 ensures At(Merged(xs, e), p) == if Covers(e, p) then Some(Locate(e, p)) else At(xs, p) {
      KeptAt(xs, e, p);
      InsertAt(kept, e, p);
    }
  }

  /** Extents that do not overlap e are kept as they are. */
  lemma {:induction false} KeptUntouched(xs: seq<FileExtent>, e: FileExtent)
    requires forall i :: 0 <= i < |xs| ==> !Overlaps(xs[i], e)
    ensures Kept(xs, e) == xs
  {
    if xs != [] {
      var init, last := xs[..|xs| - 1], xs[|xs| - 1];
      KeptUntouched(init, e);
      assert Kept(xs, e) == init + [last];
    }
  }

  /** At most one stored extent can be split in two. */
  lemma {:induction false} KeptLength(xs: seq<FileExtent>, e: FileExtent)
    requires WellFormed(xs) && Fits(e) && 0 < e.length
    ensures |Kept(xs, e)| <= |xs| + 1
  {
    if xs != [] {
      var init, last := xs[..|xs| - 1], xs[|xs| - 1];
      KeptLength(init, e);
      RemaindersShape(last, e);
      if last.offset < e.offset {
        assert Bounded(init, e.offset);
        KeptUntouched(init, e);
      }
    }
  }

  /** Merging one extent into a well-formed list keeps it well-formed exactly when the extent
      is not empty and its end does not wrap. */
  lemma MergeWellFormedIff(xs: seq<FileExtent>, e: FileExtent)
    requires WellFormed(xs)
    ensures WellFormed(Merged(xs, e)) <==> 0 < e.length && Fits(e)
  {
    if 0 < e.length && Fits(e) {
      MergeOverlays(xs, e);
    } else {
      var all := Kept(xs, e) + [e];
      assert all[|all| - 1] == e;
      assert e in multiset(all);
      SortPermutes(all);
      assert e in multiset(Merged(xs, e));
      var i :| 0 <= i < |Merged(xs, e)| && Merged(xs, e)[i] == e;
    }
  }

  /** Slicing never leaves the object: sound object ranges stay sound. */
  lemma MergeInsideObjects(xs: seq<FileExtent>, e: FileExtent)
    requires WellFormed(xs) && Fits(e) && 0 < e.length
    requires InsideObjects(xs) && InsideObjects([e])
    ensures InsideObjects(Merged(xs, e))
  {
    KeptInsideObjects(xs, e);
    var all, r := Kept(xs, e) + [e], Merged(xs, e);
    assert [e][0] == e;
    SortPermutes(all);
    forall i | 0 <= i < |r| ensures r[i].objectOffset + r[i].length <= r[i].objectSize {
      assert r[i] in multiset(r);
      assert r[i] in all;
    }
  }

  lemma {:induction false} KeptInsideObjects(xs: seq<FileExtent>, e: FileExtent)
    requires WellFormed(xs) && Fits(e) && 0 < e.length && InsideObjects(xs)
    ensures InsideObjects(Kept(xs, e))
  {
    if xs != [] {
      KeptInsideObjects(xs[..|xs| - 1], e);
    }
  }

  /** The loop of MergeExtent over the stored extents. */
  method KeepRemainders(stored: seq<FileExtent>, extent: FileExtent) returns (merged: seq<FileExtent>)
    ensures merged == Kept(stored, extent)
  {
    merged := [];
    for i := 0 to |stored|
      invariant merged == Kept(stored[..i], extent)
    {
      var existing := stored[i];
      assert stored[..i + 1][..i] == stored[..i];
      if !Overlaps(existing, extent) {
        merged := merged + [existing];
        continue;
      }
      var pieces := [];
      if existing.offset < extent.offset {
        pieces := pieces + [SliceExtent(existing, existing.offset, Sub64(extent.offset, existing.offset))];
      }
      if ExtentEnd(extent) < ExtentEnd(existing) {
        pieces := pieces +
          [SliceExtent(existing, ExtentEnd(extent), Sub64(ExtentEnd(existing), ExtentEnd(extent)))];
      }
      merged := merged + pieces;
    }
    assert stored[..|stored|] == stored;
  }

  /** MergeExtent: collect the remainders, add the extent, sort, and copy back. */
  method MergeExtent(stored: seq<FileExtent>, extent: FileExtent) returns (result: seq<FileExtent>)
    ensures result == Merged(stored, extent)
    ensures WellFormed(stored) && Fits(extent) && 0 < extent.length ==>
              && WellFormed(result)
              && |result| <= |stored| + 2
              && (forall p: u64 :: At(result, p) ==
                                   if Covers(extent, p) then Some(Locate(extent, p)) else At(stored, p))
  {
    var merged := KeepRemainders(stored, extent);
    merged := SortByOffset(merged + [extent]);
    result := [];
    for i := 0 to |merged|
      invariant result == merged[..i]
    {
      result := result + [merged[i]];
    }
    if WellFormed(stored) && Fits(extent) && 0 < extent.length {
      MergeOverlays(stored, extent);
    }
  }

  // ---------- batches ----------

  /** The stored list after merging a batch one extent at a time. */
  function MergeAll(xs: seq<FileExtent>, es: seq<FileExtent>): seq<FileExtent> {
    if es == [] then xs else Merged(MergeAll(xs, es[..|es| - 1]), es[|es| - 1])
  }

  predicate NoneEmpty(es: seq<FileExtent>) {
    forall i :: 0 <= i < |es| ==> 0 < es[i].length
  }

  lemma {:induction false} BatchWellFormed(xs: seq<FileExtent>, es: seq<FileExtent>)
    requires WellFormed(xs) && AllFit(es) && NoneEmpty(es)
    ensures WellFormed(MergeAll(xs, es))
    ensures |MergeAll(xs, es)| <= |xs| + 2 * |es|
  {
    hide WellFormed, At, Merged;
    if es != [] {
      BatchWellFormed(xs, es[..|es| - 1]);
      MergeOverlays(MergeAll(xs, es[..|es| - 1]), es[|es| - 1]);
    }
  }

  lemma {:induction false} BatchAt(xs: seq<FileExtent>, es: seq<FileExtent>, p: u64)
    requires WellFormed(xs) && AllFit(es) && NoneEmpty(es)
    ensures At(MergeAll(xs, es), p) == At(xs + es, p)
  {
    if es == [] {
      assert xs + es == xs;
    } else {
      var init, last := es[..|es| - 1], es[|es| - 1];
      BatchAt(xs, init, p);
      BatchWellFormed(xs, init);
      BatchAtStep(xs, init, last, p);
      SplitLast(xs, es);
      hide WellFormed, Merged, At;
    }
  }

  lemma BatchAtStep(xs: seq<FileExtent>, init: seq<FileExtent>, last: FileExtent, p: u64)
    requires WellFormed(MergeAll(xs, init)) && Fits(last) && 0 < last.length
    requires At(MergeAll(xs, init), p) == At(xs + init, p)
    ensures At(Merged(MergeAll(xs, init), last), p) == At(xs + init + [last], p)
  {
    hide WellFormed, Merged, MergeAll, At;
    MergeOverlays(MergeAll(xs, init), last);
    AtConcat(xs + init, [last], p);
    AtOne(last, p);
  }

  /** A merged batch reads as the old extents with the batch laid over them in order. */
  lemma BatchOverlays(xs: seq<FileExtent>, es: seq<FileExtent>)
    requires WellFormed(xs) && AllFit(es) && NoneEmpty(es)
    ensures WellFormed(MergeAll(xs, es))
    ensures |MergeAll(xs, es)| <= |xs| + 2 * |es|
    ensures forall p: u64 :: At(MergeAll(xs, es), p) == At(xs + es, p)
  {
    hide WellFormed, At, MergeAll;
    BatchWellFormed(xs, es);
    forall p: u64 ensures At(MergeAll(xs, es), p) == At(xs + es, p) {
      BatchAt(xs, es, p);
    }
  }

  /** n extents merged into an empty layout leave at most 2n - 1 entries. */
  lemma {:induction false} FragmentationBound(es: seq<FileExtent>)
    requires es != [] && AllFit(es) && NoneEmpty(es)
    ensures |MergeAll([], es)| <= 2 * |es| - 1
  {
    var init, last := es[..|es| - 1], es[|es| - 1];
    if init == [] {
      assert Kept([], last) + [last] == [last];
    } else {
      FragmentationBound(init);
      BatchWellFormed([], init);
      hide At, WellFormed, Merged;
      MergeOverlays(MergeAll([], init), last);
    }
  }

  lemma {:induction false} BatchInsideObjects(xs: seq<FileExtent>, es: seq<FileExtent>)
    requires WellFormed(xs) && AllFit(es) && NoneEmpty(es)
    requires InsideObjects(xs) && InsideObjects(es)
    ensures InsideObjects(MergeAll(xs, es))
  {
    if es != [] {
      var init, last := es[..|es| - 1], es[|es| - 1];
      BatchInsideObjects(xs, init);
      BatchOverlays(xs, init);
      MergeInsideObjects(MergeAll(xs, init), last);
    }
  }

  /** Replaying a batch changes no byte. */
  lemma BatchReplay(xs: seq<FileExtent>, es: seq<FileExtent>)
    requires WellFormed(xs) && AllFit(es) && NoneEmpty(es)
    ensures WellFormed(MergeAll(MergeAll(xs, es), es))
    ensures forall p: u64 :: At(MergeAll(MergeAll(xs, es), es), p) == At(MergeAll(xs, es), p)
  {
    BatchOverlays(xs, es);
    BatchOverlays(MergeAll(xs, es), es);
    forall p: u64 ensures At(MergeAll(MergeAll(xs, es), es), p) == At(MergeAll(xs, es), p) {
      AtConcat(MergeAll(xs, es), es, p);
      AtConcat(xs, es, p);
    }
  }

  /** Only holes from `size` on. */
  predicate HolesFrom(xs: seq<FileExtent>, size: u64) {
    forall p: u64 :: size <= p ==> At(xs, p) == None
  }

  /** A bound on extent ends is the same as having only holes from there on. */
  lemma BoundedIffHoles(xs: seq<FileExtent>, size: u64)
    requires AllFit(xs) && NoneEmpty(xs)
    ensures Bounded(xs, size) <==> HolesFrom(xs, size)
  {
    if Bounded(xs, size) {
      forall p: u64 | size <= p ensures At(xs, p) == None {
        AtSomeIffCovered(xs, p);
      }
    }
    if i :| 0 <= i < |xs| && size < xs[i].offset + xs[i].length {
      var p: u64 := xs[i].offset + xs[i].length - 1;
      AtSomeIffCovered(xs, p);
      assert Covers(xs[i], p);
      assert size <= p && At(xs, p) != None;
    }
  }

  /** A merged batch stays below `size` exactly when every extent of the batch does. */
  lemma BatchBounded(xs: seq<FileExtent>, es: seq<FileExtent>, size: u64)
    requires WellFormed(xs) && Bounded(xs, size) && AllFit(es) && NoneEmpty(es)
    ensures Bounded(MergeAll(xs, es), size) <==> Bounded(es, size)
  {
    var r := MergeAll(xs, es);
    BatchOverlays(xs, es);
    BoundedIffHoles(xs, size);
    BoundedIffHoles(es, size);
    BoundedIffHoles(r, size);
    forall p: u64 | size <= p ensures At(r, p) == At(es, p) {
      AtConcat(xs, es, p);
    }
  }

  // ---------- Truncate ----------

  /** The extents Truncate keeps. */
  function Cut(xs: seq<FileExtent>, size: u64): (r: seq<FileExtent>)
    ensures |r| <= |xs|
  {
    if xs == [] then [] else
    var last := xs[|xs| - 1];
    Cut(xs[..|xs| - 1], size) +
    (if last.offset >= size then []
     else if ExtentEnd(last) > size then [SliceExtent(last, last.offset, Sub64(size, last.offset))]
     else [last])
  }

  lemma {:induction false} CutWellFormed(xs: seq<FileExtent>, size: u64)
    requires WellFormed(xs)
    ensures WellFormed(Cut(xs, size)) && Bounded(Cut(xs, size), size)
    ensures xs != [] ==> Bounded(Cut(xs, size), xs[|xs| - 1].offset + xs[|xs| - 1].length)
    ensures InsideObjects(xs) ==> InsideObjects(Cut(xs, size))
  {
    if xs != [] {
      var init, last := xs[..|xs| - 1], xs[|xs| - 1];
      CutWellFormed(init, size);
      var c := Cut(init, size);
      assert Bounded(c, last.offset);
      if last.offset < size {
        var piece := if ExtentEnd(last) > size then SliceExtent(last, last.offset, Sub64(size, last.offset)) else last;
        AppendOne(c, piece);
        assert Cut(xs, size) == c + [piece];
      } else {
        assert Cut(xs, size) == c;
      }
    }
  }

  /** Truncation keeps every byte below the new size and leaves holes from there on. */
  lemma {:induction false} CutReads(xs: seq<FileExtent>, size: u64, p: u64)
    requires WellFormed(xs)
    ensures At(Cut(xs, size), p) == if p < size then At(xs, p) else None
  {
    if xs != [] {
      var init, last := xs[..|xs| - 1], xs[|xs| - 1];
      CutReads(init, size, p);
      assert 0 < last.length && Fits(last);
      SplitLast([], xs);
      hide At, WellFormed;
      AtConcat(init, [last], p);
      AtOne(last, p);
      if last.offset < size {
        var piece := if ExtentEnd(last) > size then SliceExtent(last, last.offset, Sub64(size, last.offset)) else last;
        assert Cut(xs, size) == Cut(init, size) + [piece];
        AtOne(piece, p);
        AtConcat(Cut(init, size), [piece], p);
      } else {
        assert Cut(xs, size) == Cut(init, size);
      }
    }
  }

  // ---------- AppendWrite ----------

  function Shift(e: FileExtent, start: u64): FileExtent {
    e.(offset := Add64(start, e.offset))
  }

  /** The extents of an append, moved behind the old end of the file. */
  function ShiftAll(es: seq<FileExtent>, start: u64): (r: seq<FileExtent>)
    ensures |r| == |es|
    ensures forall i :: 0 <= i < |es| ==> r[i] == Shift(es[i], start)
  {
    if es == [] then [] else ShiftAll(es[..|es| - 1], start) + [Shift(es[|es| - 1], start)]
  }

  /** The running maximum of extent ends. */
  function MaxEnd(from: u64, es: seq<FileExtent>): (r: u64)
    ensures from <= r
    ensures AllFit(es) ==> Bounded(es, r)
  {
    if es == [] then from else Max64(MaxEnd(from, es[..|es| - 1]), ExtentEnd(es[|es| - 1]))
  }

  /** The running maximum is the least such bound. */
  lemma {:induction false} MaxEndLeast(from: u64, es: seq<FileExtent>, bound: u64)
    requires from <= bound && AllFit(es) && Bounded(es, bound)
    ensures MaxEnd(from, es) <= bound
  {
    if es != [] {
      MaxEndLeast(from, es[..|es| - 1], bound);
    }
  }

  /** An append that fits touches nothing below the old size and ends at the new one. */
  lemma {:induction false} ShiftedMaxEnd(start: u64, es: seq<FileExtent>)
    requires forall i :: 0 <= i < |es| ==> start + es[i].offset + es[i].length < TWO_64
    ensures AllFit(es) && AllFit(ShiftAll(es, start))
    ensures start + MaxEnd(0, es) < TWO_64
    ensures MaxEnd(start, ShiftAll(es, start)) == start + MaxEnd(0, es)
  {
    if es != [] {
      var init := es[..|es| - 1];
      ShiftedMaxEnd(start, init);
      assert ShiftAll(es, start)[..|es| - 1] == ShiftAll(init, start);
    }
  }

  /** Shifting by the old size moves an extent that fits behind every stored position. */
  lemma ShiftedStartsAt(start: u64, es: seq<FileExtent>, i: nat)
    requires i < |es| && start + es[i].offset + es[i].length < TWO_64
    ensures ShiftAll(es, start)[i].offset == start + es[i].offset
    ensures ShiftAll(es, start)[i].length == es[i].length
  {
  }

  // ---------- object keys ----------

  function Keys(xs: seq<FileExtent>): set<string> {
    set i | 0 <= i < |xs| :: xs[i].objectKey
  }

  lemma KeysConcat(xs: seq<FileExtent>, ys: seq<FileExtent>)
    ensures Keys(xs + ys) == Keys(xs) + Keys(ys)
  {
    forall key | key in Keys(xs) + Keys(ys) ensures key in Keys(xs + ys) {
      if key in Keys(xs) {
        var i :| 0 <= i < |xs| && xs[i].objectKey == key;
        assert (xs + ys)[i].objectKey == key;
      } else {
        var i :| 0 <= i < |ys| && ys[i].objectKey == key;
        assert (xs + ys)[|xs| + i].objectKey == key;
      }
    }
  }

  lemma {:induction false} KeptKeys(xs: seq<FileExtent>, e: FileExtent)
    ensures Keys(Kept(xs, e)) <= Keys(xs)
  {
    if xs != [] {
      var init, last := xs[..|xs| - 1], xs[|xs| - 1];
      KeptKeys(init, e);
      KeysConcat(Kept(init, e), Remainders(last, e));
      KeysConcat(init, [last]);
      assert xs == init + [last];
      assert [last][0].objectKey in Keys([last]);
    }
  }

  /** Merging brings in the new key and no other. */
  lemma MergedKeys(xs: seq<FileExtent>, e: FileExtent)
    ensures e.objectKey in Keys(Merged(xs, e)) && Keys(Merged(xs, e)) <= Keys(xs) + {e.objectKey}
  {
    var all, r := Kept(xs, e) + [e], Merged(xs, e);
    KeptKeys(xs, e);
    KeysConcat(Kept(xs, e), [e]);
    SortPermutes(all);
    forall key | key in Keys(r) ensures key in Keys(all) {
      var i :| 0 <= i < |r| && r[i].objectKey == key;
      assert r[i] in multiset(r);
      var j :| 0 <= j < |all| && all[j] == r[i];
    }
    assert all[|all| - 1] == e && e in multiset(all) && e in r;
    var k :| 0 <= k < |r| && r[k] == e;
    assert r[k].objectKey in Keys(r);
  }

  lemma {:induction false} BatchKeys(xs: seq<FileExtent>, es: seq<FileExtent>)
    ensures Keys(MergeAll(xs, es)) <= Keys(xs) + Keys(es)
    ensures es != [] ==> es[|es| - 1].objectKey in Keys(MergeAll(xs, es))
  {
    if es != [] {
      var init, last := es[..|es| - 1], es[|es| - 1];
      BatchKeys(xs, init);
      MergedKeys(MergeAll(xs, init), last);
      KeysConcat(init, [last]);
      SplitLast([], es);
      KeysOne(last);
      hide Keys, Merged;
    }
  }

  lemma KeysOne(x: FileExtent)
    ensures Keys([x]) == {x.objectKey}
  {
    assert [x][0].objectKey in Keys([x]);
  }

  lemma {:induction false} CutKeys(xs: seq<FileExtent>, size: u64)
    ensures Keys(Cut(xs, size)) <= Keys(xs)
  {
    if xs != [] {
      var init, last := xs[..|xs| - 1], xs[|xs| - 1];
      CutKeys(init, size);
      KeysConcat(init, [last]);
      SplitLast([], xs);
      KeysOne(last);
      if last.offset < size {
        var piece := Cut(xs, size)[|Cut(init, size)|];
        assert Cut(xs, size) == Cut(init, size) + [piece] && piece.objectKey == last.objectKey;
        KeysConcat(Cut(init, size), [piece]);
        KeysOne(piece);
      } else {
        assert Cut(xs, size) == Cut(init, size);
      }
      hide Keys;
    }
  }

  lemma ShiftedKeys(es: seq<FileExtent>, start: u64)
    ensures Keys(ShiftAll(es, start)) == Keys(es)
  {
    forall i | 0 <= i < |es| ensures es[i].objectKey in Keys(ShiftAll(es, start)) {
      assert ShiftAll(es, start)[i].objectKey == es[i].objectKey;
    }
  }
}
