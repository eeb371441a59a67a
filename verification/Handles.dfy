/** Buffered writes and the flush (src/fuse/fuse_server.cc:125-159 and 434-480), and what a reader
    of the same handle sees before and after. */
module Handles {
  import opened Types
  import opened Extents
  import opened MetaSpec
  import opened MetaFiles
  import opened Objects
  import opened FileIo

  // ---------- writing ----------

  /** One call of the write callback, with the key and the etag its object gets. */
  datatype WriteCall = WriteCall(key: string, etag: string, offset: u64, data: seq<byte>)

  /** Where a write is recorded: at the caller's offset, or behind what is already appended. */
  function WriteOffset(h: Handle, w: WriteCall): u64 {
    if h.append then h.appendLength else w.offset
  }

  /** Where a write lands in the file as the handle shows it. */
  function LandsAt(h: Handle, w: WriteCall): int {
    if h.append then h.layout.attrs.size + h.appendLength else w.offset
  }

  predicate WriteFits(h: Handle, w: WriteCall) {
    0 < |w.data| && w.key != "" && LandsAt(h, w) + |w.data| < TWO_64
  }

  function WrittenExtent(h: Handle, w: WriteCall): FileExtent
    requires |w.data| < TWO_64
  {
    FileExtent(WriteOffset(h, w), |w.data|, w.key, w.etag, "", |w.data|, 0)
  }

  /** The handle after a write. */
  function Written(h: Handle, w: WriteCall): Handle
    requires |w.data| < TWO_64
  {
    if h.append
    then h.(appendLength := Add64(h.appendLength, |w.data|), pendingAppend := h.pendingAppend + [WrittenExtent(h, w)])
    else h.(pending := h.pending + [WrittenExtent(h, w)])
  }

  function Put(bucket: Bucket, w: WriteCall, now: int): Bucket {
    bucket[w.key := StoredObject(w.data, w.etag, now)]
  }

  /** What every handle built by opening and writing keeps. */
  ghost predicate WellBuilt(h: Handle) {
    && WellFormed(h.layout.extents)
    && (if h.append then h.pending == [] else h.pendingAppend == [] && h.appendLength == 0)
    && h.appendLength == MaxEnd(0, h.pendingAppend)
    && AllAcceptable(h.pending) && AllFit(h.pending)
    && AllAcceptable(h.pendingAppend)
    && (forall i :: 0 <= i < |h.pendingAppend| ==>
          h.layout.attrs.size + h.pendingAppend[i].offset + h.pendingAppend[i].length < TWO_64)
  }

  ghost predicate AllAcceptable(es: seq<FileExtent>) {
    forall i :: 0 <= i < |es| ==> Acceptable(es[i])
  }

  /** A freshly opened handle. */
  function Opened(inodeId: u64, append: bool, layout: FileLayout): Handle {
    Handle(inodeId, append, layout, [], [], 0)
  }

  lemma OpenedIsWellBuilt(inodeId: u64, append: bool, layout: FileLayout)
    requires WellFormed(layout.extents)
    ensures WellBuilt(Opened(inodeId, append, layout))
  {
  }

  lemma OverlayFits(h: Handle)
    requires WellBuilt(h)
    ensures AllFit(Overlay(h)) && NoneEmpty(Overlay(h))
    ensures h.append ==> VisibleSize(h) == h.layout.attrs.size + h.appendLength
    ensures !h.append ==> VisibleSize(h) == MaxEnd(h.layout.attrs.size, h.pending)
  {
    assert WellFormed(h.layout.extents);
    VisibleEnd(h);
    hide MaxEnd, VisibleSize;
    var shifted := ShiftAll(h.pendingAppend, h.layout.attrs.size);
    ShiftedMaxEnd(h.layout.attrs.size, h.pendingAppend);
    assert forall i :: 0 <= i < |h.pendingAppend| ==> shifted[i].length == h.pendingAppend[i].length;
    hide ShiftAll;
  }

  lemma VisibleEnd(h: Handle)
    requires WellBuilt(h)
    ensures h.append ==> VisibleSize(h) == h.layout.attrs.size + h.appendLength
    ensures !h.append ==> VisibleSize(h) == MaxEnd(h.layout.attrs.size, h.pending)
  {
    var size := h.layout.attrs.size;
    ShiftedMaxEnd(size, h.pendingAppend);
    assert MaxEnd(size, []) == size && ShiftAll([], size) == [];
    hide WellFormed;
  }

  lemma WriteKeepsWellBuilt(h: Handle, w: WriteCall)
    requires WellBuilt(h) && WriteFits(h, w)
    ensures WellBuilt(Written(h, w))
  {
    hide WellFormed;
    var e := WrittenExtent(h, w);
    if h.append {
      assert (h.pendingAppend + [e])[..|h.pendingAppend|] == h.pendingAppend;
      assert MaxEnd(0, h.pendingAppend + [e]) == Max64(MaxEnd(0, h.pendingAppend), ExtentEnd(e));
    }
    hide MaxEnd;
  }

  /** The overlay after a write is the overlay before with the written extent on top, at the place
      where the write lands. */
  lemma WriteExtendsOverlay(h: Handle, w: WriteCall)
    requires WellBuilt(h) && WriteFits(h, w)
    ensures Overlay(Written(h, w)) == Overlay(h) + [WrittenExtent(h, w).(offset := LandsAt(h, w))]
  {
    var e := WrittenExtent(h, w);
    var size := h.layout.attrs.size;
    if h.append {
      assert (h.pendingAppend + [e])[..|h.pendingAppend|] == h.pendingAppend;
      assert Shift(e, size) == e.(offset := LandsAt(h, w));
    } else {
      assert ShiftAll([], size) == [];
    }
    hide WellBuilt;
  }

  /** What position p of the file shows through the handle. */
  function Shown(bucket: Bucket, h: Handle, p: u64): byte {
    Content(bucket, At(Overlay(h), p))
  }

  /** A buffered write is visible at once and changes nothing else: the written range shows the
      written bytes, every other position what it showed before, and the file ends at the later
      of its old end and the end of the write. The write of an append handle lands at the end. */
  lemma WriteThenRead(bucket: Bucket, h: Handle, w: WriteCall, now: int, p: u64)
    requires WellBuilt(h) && WriteFits(h, w) && Backed(bucket, Overlay(h)) && w.key !in bucket
    ensures Backed(Put(bucket, w, now), Overlay(Written(h, w)))
    ensures Shown(Put(bucket, w, now), Written(h, w), p) ==
            if LandsAt(h, w) <= p < LandsAt(h, w) + |w.data| then w.data[p - LandsAt(h, w)]
            else Shown(bucket, h, p)
    ensures VisibleSize(Written(h, w)) ==
            if VisibleSize(h) < LandsAt(h, w) + |w.data| then LandsAt(h, w) + |w.data| else VisibleSize(h)
    ensures h.append ==> LandsAt(h, w) == VisibleSize(h)
  {
    WriteGrowsFile(h, w);
    OverlayFits(h);
    hide WellBuilt, VisibleSize, AllFit, NoneEmpty;
    WriteShows(bucket, h, w, now, p);
  }

  lemma WriteShows(bucket: Bucket, h: Handle, w: WriteCall, now: int, p: u64)
    requires WellBuilt(h) && WriteFits(h, w) && Backed(bucket, Overlay(h)) && w.key !in bucket
    ensures Backed(Put(bucket, w, now), Overlay(Written(h, w)))
    ensures Shown(Put(bucket, w, now), Written(h, w), p) ==
            if LandsAt(h, w) <= p < LandsAt(h, w) + |w.data| then w.data[p - LandsAt(h, w)]
            else Shown(bucket, h, p)
  {
    hide WellBuilt, Overlay, At, Written;
    var e := WrittenExtent(h, w).(offset := LandsAt(h, w));
    WriteExtendsOverlay(h, w);
    AtConcat(Overlay(h), [e], p);
    AtOne(e, p);
    ShownFromBacked(bucket, Overlay(h), w, now, p);
    assert BackedOne(Put(bucket, w, now), e);
  }

  lemma MaxEndSnoc(from: u64, es: seq<FileExtent>, e: FileExtent)
    ensures MaxEnd(from, es + [e]) == Max64(MaxEnd(from, es), ExtentEnd(e))
  {
    assert (es + [e])[..|es|] == es;
  }

  lemma WriteGrowsFile(h: Handle, w: WriteCall)
    requires WellBuilt(h) && WriteFits(h, w)
    ensures VisibleSize(Written(h, w)) ==
            if VisibleSize(h) < LandsAt(h, w) + |w.data| then LandsAt(h, w) + |w.data| else VisibleSize(h)
  {
    hide WellBuilt, VisibleSize, AllFit, NoneEmpty, Overlay, MaxEnd;
    OverlayFits(h);
    WriteKeepsWellBuilt(h, w);
    OverlayFits(Written(h, w));
    MaxEndSnoc(h.layout.attrs.size, h.pending, WrittenExtent(h, w));
  }

  /** Storing a new object changes no byte that was already backed. */
  lemma {:induction false} ShownFromBacked(bucket: Bucket, xs: seq<FileExtent>, w: WriteCall, now: int, p: u64)
    requires Backed(bucket, xs) && w.key !in bucket
    ensures Backed(Put(bucket, w, now), xs)
    ensures Content(Put(bucket, w, now), At(xs, p)) == Content(bucket, At(xs, p))
  {
    if xs != [] {
      assert BackedOne(bucket, xs[|xs| - 1]);
      ShownFromBacked(bucket, xs[..|xs| - 1], w, now, p);
      assert forall i :: 0 <= i < |xs| ==> BackedOne(bucket, xs[i]);
    }
  }

  // ---------- a sequence of writes ----------

  /** Every write fits when it is made, and every object gets a key nobody used before. */
  ghost predicate WritesFit(bucket: Bucket, h: Handle, ws: seq<WriteCall>)
    decreases |ws|
  {
    ws == [] ||
    (WriteFits(h, ws[0]) && ws[0].key !in bucket && WritesFit(Put(bucket, ws[0], 0), Written(h, ws[0]), ws[1..]))
  }

  ghost function PutAll(bucket: Bucket, ws: seq<WriteCall>): Bucket
    decreases |ws|
  {
    if ws == [] then bucket else PutAll(Put(bucket, ws[0], 0), ws[1..])
  }

  ghost function WrittenAll(bucket: Bucket, h: Handle, ws: seq<WriteCall>): Handle
    requires WritesFit(bucket, h, ws)
    decreases |ws|
  {
    if ws == [] then h else WrittenAll(Put(bucket, ws[0], 0), Written(h, ws[0]), ws[1..])
  }

  lemma {:induction false} WritesKeepWellBuilt(bucket: Bucket, h: Handle, ws: seq<WriteCall>)
    requires WellBuilt(h) && WritesFit(bucket, h, ws) && Backed(bucket, Overlay(h))
    ensures WellBuilt(WrittenAll(bucket, h, ws))
    ensures Backed(PutAll(bucket, ws), Overlay(WrittenAll(bucket, h, ws)))
    ensures WrittenAll(bucket, h, ws).layout == h.layout
    ensures WrittenAll(bucket, h, ws).inodeId == h.inodeId && WrittenAll(bucket, h, ws).append == h.append
    decreases |ws|
  {
    if ws != [] {
      WriteKeepsWellBuilt(h, ws[0]);
      WriteThenRead(bucket, h, ws[0], 0, 0);
      hide WellBuilt, Backed, Overlay, Shown, VisibleSize;
      WritesKeepWellBuilt(Put(bucket, ws[0], 0), Written(h, ws[0]), ws[1..]);
    }
  }

  // ---------- flushing ----------

  datatype Network = Network(commit: Delivery, firstLayout: bool, append: Delivery, secondLayout: bool)

  const PERFECT := Network(Answered, true, Answered, true)

  datatype FlushOutcome = FlushOutcome(state: State, handle: Handle, result: Result<()>)

  /** The layout the handle keeps: the fresh one, or the stale one if the fetch fails. */
  function Refetched(s: State, h: Handle, arrives: bool): Handle {
    if arrives && GetLayout(s, h.inodeId).Ok? then h.(layout := GetLayout(s, h.inodeId).value) else h
  }

  function FlushPositioned(s: State, h: Handle, net: Network, now: i64): FlushOutcome {
    if h.pending == [] then FlushOutcome(s, h, Ok(()))
    else if net.commit.Dropped? then FlushOutcome(s, h, Err(Unavailable))
    else
      var o := CommitWrite(s, h.inodeId, h.pending, now);
      if net.commit.AnswerLost? then FlushOutcome(o.state, h, Err(Unavailable))
      else match o.result
           case Err(e) => FlushOutcome(o.state, h, Err(e))
           case Ok(_) => FlushOutcome(o.state, Refetched(o.state, h.(pending := []), net.firstLayout), Ok(()))
  }

  function FlushAppended(s: State, h: Handle, net: Network, now: i64): FlushOutcome {
    if h.pendingAppend == [] then FlushOutcome(s, h, Ok(()))
    else if net.append.Dropped? then FlushOutcome(s, h, Err(Unavailable))
    else
      var o := AppendWrite(s, h.inodeId, h.pendingAppend, now);
      if net.append.AnswerLost? then FlushOutcome(o.state, h, Err(Unavailable))
      else match o.result
           case Err(e) => FlushOutcome(o.state, h, Err(e))
           case Ok(_) =>
             FlushOutcome(o.state, Refetched(o.state, h.(pendingAppend := [], appendLength := 0), net.secondLayout), Ok(()))
  }

  /** CommitHandle: positioned extents first, then appended ones. */
  function CommitHandle(s: State, h: Handle, net: Network, first: i64, second: i64): FlushOutcome {
    var f := FlushPositioned(s, h, net, first);
    if f.result.Err? then f else FlushAppended(f.state, f.handle, net, second)
  }

  /** The handle's layout is what the server would answer now. */
  ghost predicate Fresh(s: State, h: Handle) {
    GetLayout(s, h.inodeId) == Ok(h.layout)
  }

  lemma AllAccepted(es: seq<FileExtent>)
    requires AllAcceptable(es)
    ensures Accepted(es) == |es| && es[..|es|] == es
  {
    AcceptedIs(es, |es|);
  }

  /** The flush of a positioned handle: the server now holds the overlay. */
  lemma PositionedFlush(s: State, h: Handle, now: i64)
    requires WellBuilt(h) && Fresh(s, h) && !h.append && h.pending != []
    ensures var f := FlushPositioned(s, h, PERFECT, now);
            && f.result.Ok? && Fresh(f.state, f.handle)
            && f.handle == Opened(h.inodeId, h.append, f.handle.layout)
            && f.handle.layout.extents == MergeAll(h.layout.extents, h.pending)
            && f.handle.layout.attrs.size == VisibleSize(h)
  {
    AllAccepted(h.pending);
    OverlayFits(h);
    hide MergeAll, MaxEnd, Accepted, VisibleSize, Overlay, WellFormed;
  }

  lemma AppendedFlush(s: State, h: Handle, now: i64)
    requires WellBuilt(h) && Fresh(s, h) && h.append && h.pendingAppend != []
    ensures var f := FlushAppended(s, h, PERFECT, now);
            && f.result.Ok? && Fresh(f.state, f.handle)
            && f.handle == Opened(h.inodeId, h.append, f.handle.layout)
            && f.handle.layout.extents ==
               MergeAll(h.layout.extents, ShiftAll(h.pendingAppend, h.layout.attrs.size))
            && f.handle.layout.attrs.size == VisibleSize(h)
  {
    AllAccepted(h.pendingAppend);
    OverlayFits(h);
    ShiftedMaxEnd(h.layout.attrs.size, h.pendingAppend);
    hide MergeAll, MaxEnd, Accepted, VisibleSize, Overlay, WellFormed, ShiftAll;
  }

  /** What the handle would send. */
  function Unflushed(h: Handle): seq<FileExtent> {
    if h.append then ShiftAll(h.pendingAppend, h.layout.attrs.size) else h.pending
  }

  /** A successful flush of a well-built, fresh handle empties it and leaves the server, and the
      handle, with the overlay merged into the layout. */
  lemma FlushMergesOverlay(s: State, h: Handle, first: i64, second: i64)
    requires WellBuilt(h) && Fresh(s, h)
    ensures var f := CommitHandle(s, h, PERFECT, first, second);
            && f.result.Ok? && Fresh(f.state, f.handle)
            && f.handle == Opened(h.inodeId, h.append, f.handle.layout)
            && f.handle.layout.extents == MergeAll(h.layout.extents, Unflushed(h))
            && f.handle.layout.attrs.size == VisibleSize(h)
  {
    OverlayFits(h);
    if !h.append && h.pending != [] {
      PositionedFlush(s, h, first);
    } else if h.append && h.pendingAppend != [] {
      AppendedFlush(s, h, second);
    } else {
      NothingToFlush(h);
    }
    hide FlushPositioned, Fresh, VisibleSize, WellFormed;
    if h.append {
      NoPositioned(s, h, PERFECT, first);
    } else {
      var f := FlushPositioned(s, h, PERFECT, first);
      NoAppended(f.state, f.handle, PERFECT, second);
    }
  }

  lemma NothingToFlush(h: Handle)
    requires WellBuilt(h) && h.pending == [] && h.pendingAppend == []
    ensures h == Opened(h.inodeId, h.append, h.layout) && MergeAll(h.layout.extents, Unflushed(h)) == h.layout.extents
    ensures VisibleSize(h) == h.layout.attrs.size
  {
  }

  lemma NoPositioned(s: State, h: Handle, net: Network, now: i64)
    requires h.pending == []
    ensures FlushPositioned(s, h, net, now) == FlushOutcome(s, h, Ok(()))
  {
  }

  lemma NoAppended(s: State, h: Handle, net: Network, now: i64)
    requires h.pendingAppend == []
    ensures FlushAppended(s, h, net, now) == FlushOutcome(s, h, Ok(()))
  {
  }

  // ---------- flushing changes nothing a reader sees ----------

  lemma {:induction false} KeptBacked(bucket: Bucket, xs: seq<FileExtent>, e: FileExtent)
    requires WellFormed(xs) && Fits(e) && 0 < e.length && Backed(bucket, xs)
    ensures Backed(bucket, Kept(xs, e))
  {
    if xs != [] {
      KeptBacked(bucket, xs[..|xs| - 1], e);
      assert BackedOne(bucket, xs[|xs| - 1]);
    }
  }

  lemma MergedBacked(bucket: Bucket, xs: seq<FileExtent>, e: FileExtent)
    requires WellFormed(xs) && Fits(e) && 0 < e.length && Backed(bucket, xs) && BackedOne(bucket, e)
    ensures Backed(bucket, Merged(xs, e))
  {
    var all, r := Kept(xs, e) + [e], Merged(xs, e);
    KeptBacked(bucket, xs, e);
    SortPermutes(all);
    hide BackedOne;
    forall i | 0 <= i < |r| ensures BackedOne(bucket, r[i]) {
      assert r[i] in multiset(r);
      var j :| 0 <= j < |all| && all[j] == r[i];
    }
  }

  lemma {:induction false} BatchBacked(bucket: Bucket, xs: seq<FileExtent>, es: seq<FileExtent>)
    requires WellFormed(xs) && AllFit(es) && NoneEmpty(es) && Backed(bucket, xs) && Backed(bucket, es)
    ensures Backed(bucket, MergeAll(xs, es))
  {
    if es != [] {
      BatchBacked(bucket, xs, es[..|es| - 1]);
      BatchWellFormed(xs, es[..|es| - 1]);
      MergedBacked(bucket, MergeAll(xs, es[..|es| - 1]), es[|es| - 1]);
    }
  }

  lemma OverlayIsUnflushed(h: Handle)
    requires WellBuilt(h)
    ensures Overlay(h) == h.layout.extents + Unflushed(h)
    ensures AllFit(Unflushed(h)) && NoneEmpty(Unflushed(h))
  {
    OverlayFits(h);
    assert ShiftAll([], h.layout.attrs.size) == [];
    assert h.append ==> h.pending == [];
    assert !h.append ==> h.pendingAppend == [];
    hide WellBuilt, VisibleSize, ShiftAll;
    assert h.layout.extents + [] == h.layout.extents;
    assert Overlay(h) == h.layout.extents + Unflushed(h);
    assert forall i :: 0 <= i < |Unflushed(h)| ==> Overlay(h)[|h.layout.extents| + i] == Unflushed(h)[i];
  }

  /** Read-your-writes across a flush: a successful flush with no other writer changes neither the
      size nor any byte that reads through the handle show, positioned and append handles alike. */
  lemma FlushKeepsReads(s: State, bucket: Bucket, h: Handle, first: i64, second: i64, size: u64, off: i64)
    requires WellBuilt(h) && Fresh(s, h) && Backed(bucket, Overlay(h))
    ensures var f := CommitHandle(s, h, PERFECT, first, second);
            && f.result.Ok? && Fresh(f.state, f.handle) && WellBuilt(f.handle)
            && Backed(bucket, Overlay(f.handle))
            && f.handle.pending == [] && f.handle.pendingAppend == []
            && ReadFromHandle(bucket, f.handle, size, off) == ReadFromHandle(bucket, h, size, off)
  {
    var g := CommitHandle(s, h, PERFECT, first, second).handle;
    FlushMergesOverlay(s, h, first, second);
    OverlayIsUnflushed(h);
    OverlayFits(h);
    var xs, es := h.layout.extents, Unflushed(h);
    assert WellFormed(xs);
    hide CommitHandle, Fresh, WellFormed, At, MergeAll, VisibleSize, Unflushed, ReadFromHandle, AllFit, NoneEmpty;
    BatchOverlays(xs, es);
    OpenedIsWellBuilt(g.inodeId, g.append, g.layout);
    assert Backed(bucket, xs) && Backed(bucket, es) by {
      SplitBacked(bucket, xs, es);
    }
    hide WellBuilt, Backed;
    OpenedOverlay(g);
    BatchBacked(bucket, xs, es);
    OverlayFits(g);
    hide Overlay;
    ReadsArePlain(bucket, h, size, off);
    ReadsArePlain(bucket, g, size, off);
    PlainReadsAgree(bucket, Overlay(h), Overlay(g), VisibleSize(h), size, off,
                    ReadFromHandle(bucket, h, size, off), ReadFromHandle(bucket, g, size, off));
  }

  lemma SplitBacked(bucket: Bucket, xs: seq<FileExtent>, es: seq<FileExtent>)
    requires Backed(bucket, xs + es)
    ensures Backed(bucket, xs) && Backed(bucket, es)
  {
    hide BackedOne;
    assert forall i :: 0 <= i < |xs| ==> (xs + es)[i] == xs[i];
    assert forall i :: 0 <= i < |es| ==> (xs + es)[|xs| + i] == es[i];
  }

  lemma OpenedOverlay(h: Handle)
    requires h == Opened(h.inodeId, h.append, h.layout)
    ensures Overlay(h) == h.layout.extents && VisibleSize(h) == h.layout.attrs.size
  {
    assert ShiftAll([], h.layout.attrs.size) == [];
  }

  /** The whole session: open a file, write any number of times, flush. What the handle reads
      before the flush is what it reads after, and what anyone opening the file then reads. */
  lemma SessionKeepsReads(
      s: State, bucket: Bucket, id: u64, append: bool, ws: seq<WriteCall>, first: i64, second: i64, size: u64, off: i64)
    returns (h: Handle, f: FlushOutcome)
    requires ExtentsOk(s) && GetLayout(s, id).Ok? && Backed(bucket, GetLayout(s, id).value.extents)
    requires WritesFit(bucket, Opened(id, append, GetLayout(s, id).value), ws)
    ensures h == WrittenAll(bucket, Opened(id, append, GetLayout(s, id).value), ws)
    ensures f == CommitHandle(s, h, PERFECT, first, second) && f.result.Ok?
    ensures GetLayout(f.state, id).Ok? && f.handle == Opened(id, append, GetLayout(f.state, id).value)
    ensures ReadFromHandle(PutAll(bucket, ws), f.handle, size, off) == ReadFromHandle(PutAll(bucket, ws), h, size, off)
  {
    var layout := GetLayout(s, id).value;
    var h0 := Opened(id, append, layout);
    assert WellFormed(layout.extents);
    OpenedIsWellBuilt(id, append, layout);
    OpenedOverlay(h0);
    assert Fresh(s, h0);
    hide ExtentsOk, WellFormed, WellBuilt, Backed, Overlay, WritesFit, ReadFromHandle, CommitHandle, GetLayout;
    hide VisibleSize, MergeAll, Unflushed, PutAll;
    WritesKeepWellBuilt(bucket, h0, ws);
    h := WrittenAll(bucket, h0, ws);
    f := CommitHandle(s, h, PERFECT, first, second);
    hide WrittenAll;
    FlushMergesOverlay(s, h, first, second);
    FlushKeepsReads(s, PutAll(bucket, ws), h, first, second, size, off);
  }
}
