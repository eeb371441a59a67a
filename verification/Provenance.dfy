/** What extents record about their objects, from the write that stores an object through merging,
    cutting and flushing (src/fuse/fuse_server.cc:459-477, src/meta_state.cc:17-57 and 449-465). */
module Provenance {
  import opened Types
  import opened Extents
  import opened MetaSpec
  import opened MetaInvariant
  import opened MetaFiles
  import opened Objects
  import opened FileIo
  import opened Handles

  // ---------- pieces ----------

  /** One extent shows part of what another shows: the same object with the same tag, checksum and
      recorded size, and a range inside the other's, at the place where the other shows it. */
  predicate PieceOf(x: FileExtent, y: FileExtent) {
    && x.objectKey == y.objectKey && x.etag == y.etag && x.checksum == y.checksum && x.objectSize == y.objectSize
    && y.objectOffset <= x.objectOffset && x.objectOffset + x.length <= y.objectOffset + y.length
    && x.objectOffset - y.objectOffset == x.offset - y.offset
  }

  ghost predicate IsPiece(x: FileExtent, ys: seq<FileExtent>) {
    exists j :: 0 <= j < |ys| && PieceOf(x, ys[j])
  }

  ghost predicate AllPieces(xs: seq<FileExtent>, ys: seq<FileExtent>) {
    forall i :: 0 <= i < |xs| ==> IsPiece(xs[i], ys)
  }

  lemma PiecesSelf(xs: seq<FileExtent>)
    ensures AllPieces(xs, xs)
  {
    forall i | 0 <= i < |xs| ensures IsPiece(xs[i], xs) {
      assert PieceOf(xs[i], xs[i]);
    }
  }

  lemma PiecesTransitive(xs: seq<FileExtent>, ys: seq<FileExtent>, zs: seq<FileExtent>)
    requires AllPieces(xs, ys) && AllPieces(ys, zs)
    ensures AllPieces(xs, zs)
  {
    forall i | 0 <= i < |xs| ensures IsPiece(xs[i], zs) {
      assert IsPiece(xs[i], ys);
      var j :| 0 <= j < |ys| && PieceOf(xs[i], ys[j]);
      assert IsPiece(ys[j], zs);
      var k :| 0 <= k < |zs| && PieceOf(ys[j], zs[k]);
      assert PieceOf(xs[i], zs[k]);
    }
  }

  /** More to choose from. */
  lemma PiecesWiden(xs: seq<FileExtent>, ys: seq<FileExtent>, more: seq<FileExtent>)
    requires AllPieces(xs, ys)
    ensures AllPieces(xs, ys + more)
  {
    forall i | 0 <= i < |xs| ensures IsPiece(xs[i], ys + more) {
      assert IsPiece(xs[i], ys);
      var j :| 0 <= j < |ys| && PieceOf(xs[i], ys[j]);
      assert (ys + more)[j] == ys[j];
    }
  }

  lemma PiecesJoin(xs: seq<FileExtent>, ys: seq<FileExtent>, zs: seq<FileExtent>)
    requires AllPieces(xs, zs) && AllPieces(ys, zs)
    ensures AllPieces(xs + ys, zs)
  {
    forall i | 0 <= i < |xs + ys| ensures IsPiece((xs + ys)[i], zs) {
      if i < |xs| {
        assert IsPiece(xs[i], zs);
      } else {
        assert IsPiece(ys[i - |xs|], zs);
      }
    }
  }

  lemma RemaindersPieces(x: FileExtent, e: FileExtent)
    requires Fits(x) && Fits(e) && x.objectOffset + x.length < TWO_64
    ensures AllPieces(Remainders(x, e), [x])
  {
    forall i | 0 <= i < |Remainders(x, e)| ensures IsPiece(Remainders(x, e)[i], [x]) {
      assert PieceOf(Remainders(x, e)[i], [x][0]);
    }
  }

  lemma {:induction false} KeptPieces(xs: seq<FileExtent>, e: FileExtent)
    requires AllFit(xs) && InsideObjects(xs) && Fits(e)
    ensures AllPieces(Kept(xs, e), xs)
  {
    if xs != [] {
      hide AllPieces, Remainders;
      var init, last := xs[..|xs| - 1], xs[|xs| - 1];
      KeptPieces(init, e);
      RemaindersPieces(last, e);
      assert init + [last] == xs;
      PiecesWiden(Kept(init, e), init, [last]);
      PiecesSelf(xs);
      LastIsPiece(init, last);
      PiecesTransitive(Remainders(last, e), [last], xs);
      PiecesJoin(Kept(init, e), Remainders(last, e), xs);
    } else {
      assert AllPieces([], xs);
    }
  }

  lemma LastIsPiece(init: seq<FileExtent>, last: FileExtent)
    ensures AllPieces([last], init + [last])
  {
    assert PieceOf(last, (init + [last])[|init|]);
  }

  lemma MergedPieces(xs: seq<FileExtent>, e: FileExtent)
    requires AllFit(xs) && InsideObjects(xs) && Fits(e)
    ensures AllPieces(Merged(xs, e), xs + [e])
  {
    var all, r := Kept(xs, e) + [e], Merged(xs, e);
    KeptPieces(xs, e);
    PiecesWiden(Kept(xs, e), xs, [e]);
    LastIsPiece(xs, e);
    PiecesJoin(Kept(xs, e), [e], xs + [e]);
    SortPermutes(all);
    hide IsPiece, Kept;
    forall i | 0 <= i < |r| ensures IsPiece(r[i], xs + [e]) {
      assert r[i] in multiset(r);
      var j :| 0 <= j < |all| && all[j] == r[i];
    }
  }

  /** One more extent merged into pieces. */
  lemma StepPieces(merged: seq<FileExtent>, xs: seq<FileExtent>, last: FileExtent)
    requires AllFit(merged) && InsideObjects(merged) && Fits(last) && AllPieces(merged, xs)
    ensures AllPieces(Merged(merged, last), xs + [last])
  {
    hide AllPieces, Merged, InsideObjects, AllFit;
    MergedPieces(merged, last);
    PiecesWiden(merged, xs, [last]);
    LastIsPiece(xs, last);
    PiecesJoin(merged, [last], xs + [last]);
    PiecesTransitive(Merged(merged, last), merged + [last], xs + [last]);
  }

  lemma FrontIsFine(es: seq<FileExtent>)
    requires AllFit(es) && NoneEmpty(es) && InsideObjects(es) && es != []
    ensures AllFit(es[..|es| - 1]) && NoneEmpty(es[..|es| - 1]) && InsideObjects(es[..|es| - 1])
    ensures Fits(es[|es| - 1])
  {
  }

  /** Whatever a batch leaves is a piece of what was stored or of what was merged. */
  lemma {:induction false} BatchPieces(xs: seq<FileExtent>, es: seq<FileExtent>)
    requires WellFormed(xs) && AllFit(es) && NoneEmpty(es) && InsideObjects(xs) && InsideObjects(es)
    ensures AllPieces(MergeAll(xs, es), xs + es)
  {
    hide AllPieces, WellFormed, InsideObjects, AllFit, NoneEmpty, Merged;
    if es == [] {
      assert xs + es == xs;
      PiecesSelf(xs);
    } else {
      var init, last := es[..|es| - 1], es[|es| - 1];
      FrontIsFine(es);
      BatchPieces(xs, init);
      BatchWellFormed(xs, init);
      BatchInsideObjects(xs, init);
      FitsIfWellFormed(MergeAll(xs, init));
      StepPieces(MergeAll(xs, init), xs + init, last);
      assert (xs + init) + [last] == xs + es;
    }
  }

  lemma {:induction false} CutPieces(xs: seq<FileExtent>, size: u64)
    requires AllFit(xs) && InsideObjects(xs)
    ensures AllPieces(Cut(xs, size), xs)
  {
    if xs != [] {
      var init, last := xs[..|xs| - 1], xs[|xs| - 1];
      CutPieces(init, size);
      assert init + [last] == xs;
      PiecesWiden(Cut(init, size), init, [last]);
      LastIsPiece(init, last);
      var tail := Cut(xs, size)[|Cut(init, size)|..];
      assert Cut(xs, size) == Cut(init, size) + tail;
      forall i | 0 <= i < |tail| ensures IsPiece(tail[i], [last]) {
        assert PieceOf(tail[i], [last][0]);
      }
      hide AllPieces, Cut;
      PiecesTransitive(tail, [last], xs);
      PiecesJoin(Cut(init, size), tail, xs);
    }
  }

  /** After any command every stored extent is a piece of one stored for the same file before, or of one
      the command brought. */
  lemma ApplyPieces(s: State, c: Command, times: Times, id: u64)
    requires Valid(s) && NoDangling(s) && ExtentsOk(s) && RangesOk(s) && Fitting(s, c)
    requires InsideObjects(Batch(s, c)) && id in Apply(s, c, times).0.layouts
    ensures AllPieces(Apply(s, c, times).0.layouts[id].extents,
                      if id in s.layouts then s.layouts[id].extents + Batch(s, c) else [])
  {
    hide Apply, Valid, NoDangling, AllPieces, MergeAll, Cut, Batch, Fitting, WellFormed;
    ApplyContents(s, c, times);
    PiecesSelf([]);
    if id in s.layouts {
      var xs := s.layouts[id].extents;
      BatchFits(s, c);
      FitsIfWellFormed(xs);
      PiecesSelf(xs);
      BatchPieces(xs, Batch(s, c));
      CutPieces(xs, if c.TruncateCommand? then c.size else 0);
      PiecesWiden(Cut(xs, if c.TruncateCommand? then c.size else 0), xs, Batch(s, c));
      PiecesWiden(xs, xs, Batch(s, c));
    }
  }

  lemma FitsIfWellFormed(xs: seq<FileExtent>)
    requires WellFormed(xs)
    ensures AllFit(xs)
  {
  }

  // ---------- what is recorded about objects ----------

  /** The bucket holds the extent's object, of the recorded size and with the recorded tag, and the
      extent's range lies inside it. */
  predicate Records(bucket: Bucket, e: FileExtent) {
    && e.objectKey in bucket && |bucket[e.objectKey].body| == e.objectSize
    && bucket[e.objectKey].etag == e.etag && e.objectOffset + e.length <= e.objectSize
  }

  predicate AllRecorded(bucket: Bucket, xs: seq<FileExtent>) {
    forall i :: 0 <= i < |xs| ==> Records(bucket, xs[i])
  }

  /** What is recorded can be read. */
  lemma RecordedIsBacked(bucket: Bucket, xs: seq<FileExtent>)
    requires AllRecorded(bucket, xs)
    ensures Backed(bucket, xs) && InsideObjects(xs)
  {
  }

  lemma PiecesRecorded(bucket: Bucket, xs: seq<FileExtent>, ys: seq<FileExtent>)
    requires AllPieces(xs, ys) && AllRecorded(bucket, ys)
    ensures AllRecorded(bucket, xs)
  {
    forall i | 0 <= i < |xs| ensures Records(bucket, xs[i]) {
      assert IsPiece(xs[i], ys);
      var j :| 0 <= j < |ys| && PieceOf(xs[i], ys[j]);
      assert Records(bucket, ys[j]);
    }
  }

  lemma PiecesInside(xs: seq<FileExtent>, ys: seq<FileExtent>)
    requires AllPieces(xs, ys) && InsideObjects(ys)
    ensures InsideObjects(xs)
  {
    forall i | 0 <= i < |xs| ensures xs[i].objectOffset + xs[i].length <= xs[i].objectSize {
      assert IsPiece(xs[i], ys);
      var j :| 0 <= j < |ys| && PieceOf(xs[i], ys[j]);
    }
  }

  /** What a write queues is the last of its pending list, and records the object just stored. */
  lemma WriteRecords(bucket: Bucket, h: Handle, w: WriteCall, now: int)
    requires |w.data| < TWO_64
    ensures var list := if h.append then Written(h, w).pendingAppend else Written(h, w).pending;
            && list == (if h.append then h.pendingAppend else h.pending) + [list[|list| - 1]]
            && list[|list| - 1].objectKey == w.key && list[|list| - 1].length == |w.data|
            && Records(Put(bucket, w, now), list[|list| - 1]) && InsideObjects([list[|list| - 1]])
            && Put(bucket, w, now)[w.key].body == w.data
  {
  }

  lemma PutKeepsRecords(bucket: Bucket, w: WriteCall, now: int, xs: seq<FileExtent>)
    requires AllRecorded(bucket, xs) && w.key !in bucket
    ensures AllRecorded(Put(bucket, w, now), xs)
  {
  }

  /** Everything a handle overlays stays recorded through a write. */
  lemma WriteKeepsRecords(bucket: Bucket, h: Handle, w: WriteCall, now: int)
    requires WellBuilt(h) && WriteFits(h, w) && w.key !in bucket && AllRecorded(bucket, Overlay(h))
    ensures AllRecorded(Put(bucket, w, now), Overlay(Written(h, w)))
  {
    hide WellBuilt, Overlay, Written, Records;
    var e := WrittenExtent(h, w).(offset := LandsAt(h, w));
    WriteExtendsOverlay(h, w);
    PutKeepsRecords(bucket, w, now, Overlay(h));
    assert Records(Put(bucket, w, now), e) by {
      NewIsRecorded(bucket, h, w, now);
    }
  }

  lemma NewIsRecorded(bucket: Bucket, h: Handle, w: WriteCall, now: int)
    requires WriteFits(h, w) && w.key !in bucket && 0 <= LandsAt(h, w)
    ensures Records(Put(bucket, w, now), WrittenExtent(h, w).(offset := LandsAt(h, w)))
  {
  }

  lemma {:induction false} WritesKeepRecords(bucket: Bucket, h: Handle, ws: seq<WriteCall>)
    requires WellBuilt(h) && WritesFit(bucket, h, ws) && AllRecorded(bucket, Overlay(h))
    ensures AllRecorded(PutAll(bucket, ws), Overlay(WrittenAll(bucket, h, ws)))
    decreases |ws|
  {
    if ws != [] {
      hide WellBuilt, Overlay, AllRecorded;
      WriteKeepsWellBuilt(h, ws[0]);
      WriteKeepsRecords(bucket, h, ws[0], 0);
      WritesKeepRecords(Put(bucket, ws[0], 0), Written(h, ws[0]), ws[1..]);
    }
  }

  /** A successful flush leaves pieces of the overlay. */
  lemma FlushLeavesPieces(s: State, h: Handle, first: i64, second: i64)
    requires WellBuilt(h) && Fresh(s, h) && InsideObjects(Overlay(h))
    ensures AllPieces(CommitHandle(s, h, PERFECT, first, second).handle.layout.extents, Overlay(h))
  {
    FlushMergesOverlay(s, h, first, second);
    OverlayIsUnflushed(h);
    assert WellFormed(h.layout.extents);
    hide CommitHandle, WellBuilt, Fresh, AllPieces, MergeAll, Overlay, Unflushed, WellFormed, AllFit, NoneEmpty;
    SplitInside(h.layout.extents, Unflushed(h));
    BatchPieces(h.layout.extents, Unflushed(h));
  }

  lemma SplitInside(xs: seq<FileExtent>, es: seq<FileExtent>)
    requires InsideObjects(xs + es)
    ensures InsideObjects(xs) && InsideObjects(es)
  {
    assert forall i :: 0 <= i < |xs| ==> (xs + es)[i] == xs[i];
    assert forall i :: 0 <= i < |es| ==> (xs + es)[|xs| + i] == es[i];
  }

  /** Over a whole session of opening, writing and flushing: if the layout recorded its objects as they
      are, so do the overlay before the flush and the layout after it. */
  lemma SessionKeepsRecords(
      s: State, bucket: Bucket, id: u64, append: bool, ws: seq<WriteCall>, first: i64, second: i64)
    requires ExtentsOk(s) && GetLayout(s, id).Ok? && AllRecorded(bucket, GetLayout(s, id).value.extents)
    requires WritesFit(bucket, Opened(id, append, GetLayout(s, id).value), ws)
    ensures var h := WrittenAll(bucket, Opened(id, append, GetLayout(s, id).value), ws);
            var f := CommitHandle(s, h, PERFECT, first, second);
            && f.result.Ok? && GetLayout(f.state, id) == Ok(f.handle.layout)
            && AllRecorded(PutAll(bucket, ws), Overlay(h)) && InsideObjects(Overlay(h))
            && AllRecorded(PutAll(bucket, ws), f.handle.layout.extents) && InsideObjects(f.handle.layout.extents)
  {
    var layout := GetLayout(s, id).value;
    var h0 := Opened(id, append, layout);
    assert WellFormed(layout.extents) && Fresh(s, h0);
    OpenedIsWellBuilt(id, append, layout);
    OpenedOverlay(h0);
    RecordedIsBacked(bucket, layout.extents);
    hide ExtentsOk, WellFormed, WellBuilt, Backed, Overlay, WritesFit, CommitHandle, GetLayout, AllRecorded, AllPieces;
    hide VisibleSize, MergeAll, Unflushed, PutAll, InsideObjects;
    WritesKeepWellBuilt(bucket, h0, ws);
    WritesKeepRecords(bucket, h0, ws);
    var h := WrittenAll(bucket, h0, ws);
    hide WrittenAll;
    RecordedIsBacked(PutAll(bucket, ws), Overlay(h));
    FlushMergesOverlay(s, h, first, second);
    FlushLeavesPieces(s, h, first, second);
    var after := CommitHandle(s, h, PERFECT, first, second).handle.layout.extents;
    PiecesRecorded(PutAll(bucket, ws), after, Overlay(h));
    RecordedIsBacked(PutAll(bucket, ws), after);
  }

  // ---------- object ranges alone, whatever the bucket holds ----------

  lemma {:induction false} WritesKeepInside(bucket: Bucket, h: Handle, ws: seq<WriteCall>)
    requires WellBuilt(h) && WritesFit(bucket, h, ws) && InsideObjects(Overlay(h))
    ensures WellBuilt(WrittenAll(bucket, h, ws)) && InsideObjects(Overlay(WrittenAll(bucket, h, ws)))
    ensures WrittenAll(bucket, h, ws).layout == h.layout && WrittenAll(bucket, h, ws).inodeId == h.inodeId
    decreases |ws|
  {
    if ws != [] {
      hide WellBuilt, Overlay;
      WriteKeepsWellBuilt(h, ws[0]);
      WriteExtendsOverlay(h, ws[0]);
      WritesKeepInside(Put(bucket, ws[0], 0), Written(h, ws[0]), ws[1..]);
    }
  }

  /** Over a whole session: if the opened layout's ranges lie inside their objects, so do those of the
      overlay and of the layout after the flush. */
  lemma SessionKeepsInside(
      s: State, bucket: Bucket, id: u64, append: bool, ws: seq<WriteCall>, first: i64, second: i64)
    requires ExtentsOk(s) && GetLayout(s, id).Ok? && InsideObjects(GetLayout(s, id).value.extents)
    requires WritesFit(bucket, Opened(id, append, GetLayout(s, id).value), ws)
    ensures var h := WrittenAll(bucket, Opened(id, append, GetLayout(s, id).value), ws);
            var f := CommitHandle(s, h, PERFECT, first, second);
            && f.result.Ok? && InsideObjects(Overlay(h)) && InsideObjects(f.handle.layout.extents)
  {
    var layout := GetLayout(s, id).value;
    var h0 := Opened(id, append, layout);
    assert WellFormed(layout.extents) && Fresh(s, h0);
    OpenedIsWellBuilt(id, append, layout);
    OpenedOverlay(h0);
    hide ExtentsOk, WellFormed, WellBuilt, Overlay, WritesFit, CommitHandle, GetLayout, AllPieces;
    hide VisibleSize, MergeAll, Unflushed, InsideObjects;
    WritesKeepInside(bucket, h0, ws);
    var h := WrittenAll(bucket, h0, ws);
    hide WrittenAll;
    FlushMergesOverlay(s, h, first, second);
    FlushLeavesPieces(s, h, first, second);
    PiecesInside(CommitHandle(s, h, PERFECT, first, second).handle.layout.extents, Overlay(h));
  }
}
