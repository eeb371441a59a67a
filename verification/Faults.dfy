/** A flush over a network that fails: what the handle shows when the layout cannot be fetched
    after the commit, and what a retry after a failed flush does (src/fuse/fuse_server.cc:125-159). */
module Faults {
  import opened Types
  import opened Extents
  import opened MetaSpec
  import opened MetaFiles
  import opened Objects
  import opened FileIo
  import opened Handles

  // ---------- the layout is not fetched ----------

  /** Whether the handle got the layout it fetches after its commit. */
  predicate Fetched(h: Handle, net: Network) {
    if h.append then net.secondLayout else net.firstLayout
  }

  /** The buffered writes neither grow the file nor change a byte of it. */
  ghost predicate Redundant(bucket: Bucket, h: Handle) {
    && VisibleSize(h) == h.layout.attrs.size
    && forall p: u64 :: At(Unflushed(h), p).Some? ==>
                          Content(bucket, At(Unflushed(h), p)) == Content(bucket, At(h.layout.extents, p))
  }

  lemma FetchedIsPerfect(s: State, h: Handle, net: Network, first: i64, second: i64)
    requires WellBuilt(h) && net.commit.Answered? && net.append.Answered? && Fetched(h, net)
    ensures CommitHandle(s, h, net, first, second) == CommitHandle(s, h, PERFECT, first, second)
  {
    hide CommitWrite, AppendWrite, WellFormed, GetLayout;
  }

  /** Without the layout the handle is left as if just opened on the old file. */
  lemma FlushWithoutFetch(s: State, h: Handle, net: Network, first: i64, second: i64)
    requires WellBuilt(h) && Fresh(s, h) && net.commit.Answered? && net.append.Answered? && !Fetched(h, net)
    ensures var f := CommitHandle(s, h, net, first, second);
            f.result.Ok? && f.handle == Opened(h.inodeId, h.append, h.layout)
  {
    AllAccepted(h.pending);
    AllAccepted(h.pendingAppend);
    if h.pending == [] && h.pendingAppend == [] {
      NothingToFlush(h);
    }
    hide MergeAll, MaxEnd, Accepted, ShiftAll, WellFormed, VisibleSize;
  }

  /** What is buffered ends within the visible size. */
  lemma UnflushedBounded(h: Handle)
    requires WellBuilt(h)
    ensures AllFit(Unflushed(h)) && NoneEmpty(Unflushed(h)) && HolesFrom(Unflushed(h), VisibleSize(h))
  {
    OverlayIsUnflushed(h);
    hide WellBuilt, AllFit, NoneEmpty, HolesFrom, ShiftAll;
    BoundedIffHoles(Unflushed(h), VisibleSize(h));
  }

  lemma RedundantIff(bucket: Bucket, h: Handle)
    requires WellBuilt(h)
    ensures ShowAlike(bucket, Opened(h.inodeId, h.append, h.layout), h) <==> Redundant(bucket, h)
  {
    var g := Opened(h.inodeId, h.append, h.layout);
    OverlayIsUnflushed(h);
    OpenedOverlay(g);
    UnflushedBounded(h);
    hide WellBuilt, VisibleSize, Overlay, Unflushed, At, Content;
    forall p: u64
      ensures At(Overlay(h), p) == if At(Unflushed(h), p).Some? then At(Unflushed(h), p) else At(h.layout.extents, p)
    {
      AtConcat(h.layout.extents, Unflushed(h), p);
    }
  }

  /** After a flush whose commit is answered, all reads agree with those before it if and only if the
      layout was fetched, or the buffered writes change nothing: otherwise the handle shows the old
      file again. */
  lemma ReadsAgreeIffFetched(s: State, bucket: Bucket, h: Handle, net: Network, first: i64, second: i64)
    requires WellBuilt(h) && Fresh(s, h) && Backed(bucket, Overlay(h))
    requires net.commit.Answered? && net.append.Answered?
    ensures var f := CommitHandle(s, h, net, first, second);
            f.result.Ok? && (ReadAlike(bucket, f.handle, h) <==> Fetched(h, net) || Redundant(bucket, h))
  {
    var f := CommitHandle(s, h, net, first, second);
    OverlayFits(h);
    if Fetched(h, net) {
      FetchedIsPerfect(s, h, net, first, second);
      hide CommitHandle, ReadFromHandle, WellBuilt, Overlay, Backed;
      FlushKeepsReads(s, bucket, h, first, second, 0, 0);
      forall size: u64, off: i64
        ensures ReadFromHandle(bucket, f.handle, size, off) == ReadFromHandle(bucket, h, size, off)
      {
        FlushKeepsReads(s, bucket, h, first, second, size, off);
      }
    } else {
      FlushWithoutFetch(s, h, net, first, second);
      OverlayIsUnflushed(h);
      OpenedOverlay(f.handle);
      SplitBacked(bucket, h.layout.extents, Unflushed(h));
      assert WellFormed(h.layout.extents) && AllFit(h.layout.extents);
      hide CommitHandle, WellBuilt, VisibleSize, Backed, Overlay, Unflushed;
      RedundantIff(bucket, h);
      ReadAlikeIff(bucket, f.handle, h);
    }
  }

  // ---------- the commit is not answered ----------

  /** A flush that fails keeps everything that was buffered. */
  lemma FailedFlushKeepsPending(s: State, h: Handle, net: Network, first: i64, second: i64)
    requires WellBuilt(h)
    ensures CommitHandle(s, h, net, first, second).result.Err? ==> CommitHandle(s, h, net, first, second).handle == h
  {
    hide CommitWrite, AppendWrite, WellFormed, GetLayout;
  }

  /** A file of the server with given extents and size. */
  ghost predicate Holds(s: State, id: u64, extents: seq<FileExtent>, size: u64) {
    && FileError(s, id).None?
    && s.layouts[id].extents == extents && s.inodes[id].size == size
  }

  lemma CommitHolds(s: State, h: Handle, xs: seq<FileExtent>, size: u64, now: i64)
    requires WellBuilt(h) && !h.append && h.pending != [] && Holds(s, h.inodeId, xs, size)
    ensures var o := CommitWrite(s, h.inodeId, h.pending, now);
            o.result.Ok? && Holds(o.state, h.inodeId, MergeAll(xs, h.pending), MaxEnd(size, h.pending))
  {
    AllAccepted(h.pending);
    hide MergeAll, MaxEnd, Accepted, WellFormed;
  }

  lemma AppendHolds(s: State, h: Handle, xs: seq<FileExtent>, size: u64, now: i64)
    requires WellBuilt(h) && h.append && h.pendingAppend != [] && Holds(s, h.inodeId, xs, size)
    ensures var o := AppendWrite(s, h.inodeId, h.pendingAppend, now);
            o.result.Ok? && Holds(o.state, h.inodeId, MergeAll(xs, ShiftAll(h.pendingAppend, size)),
                                  Add64(size, h.appendLength))
  {
    AllAccepted(h.pendingAppend);
    hide MergeAll, MaxEnd, Accepted, WellFormed, ShiftAll;
  }

  lemma OneListIsEmpty(h: Handle)
    requires WellBuilt(h)
    ensures if h.append then h.pending == [] else h.pendingAppend == []
  {
    hide WellFormed, AllAcceptable, AllFit, MaxEnd;
  }

  /** The flush of a positioned handle on a file that is not what the handle last saw. */
  lemma PositionedFlushHolds(s: State, h: Handle, net: Network, xs: seq<FileExtent>, size: u64, first: i64, second: i64)
    requires WellBuilt(h) && !h.append && h.pending != [] && Holds(s, h.inodeId, xs, size)
    ensures var f := CommitHandle(s, h, net, first, second);
            && (f.result.Ok? <==> net.commit.Answered?)
            && Holds(f.state, h.inodeId, if net.commit.Dropped? then xs else MergeAll(xs, h.pending),
                     if net.commit.Dropped? then size else MaxEnd(size, h.pending))
            && (net.commit.Dropped? ==> f.state == s)
  {
    hide CommitWrite, WellBuilt, MergeAll, MaxEnd, Holds, CommitHandle, FlushPositioned;
    OnlyPositions(s, h, net, first, second);
    CommitHolds(s, h, xs, size, first);
    PositionedFlushSteps(s, h, net, first);
  }

  lemma OnlyPositions(s: State, h: Handle, net: Network, first: i64, second: i64)
    requires WellBuilt(h) && !h.append
    ensures CommitHandle(s, h, net, first, second) == FlushPositioned(s, h, net, first)
  {
    hide FlushAppended, FlushPositioned, WellBuilt;
    OneListIsEmpty(h);
    var f := FlushPositioned(s, h, net, first);
    FlushKeepsOtherList(s, h, net, first);
    NoAppended(f.state, f.handle, net, second);
  }

  lemma FlushKeepsOtherList(s: State, h: Handle, net: Network, now: i64)
    ensures FlushPositioned(s, h, net, now).handle.pendingAppend == h.pendingAppend
    ensures FlushPositioned(s, h, net, now).result.Ok? ==> FlushPositioned(s, h, net, now).result == Ok(())
  {
    hide CommitWrite, GetLayout;
  }

  /** Where the server is left by the first half of a flush. */
  lemma PositionedFlushSteps(s: State, h: Handle, net: Network, now: i64)
    requires h.pending != []
    ensures var f, o := FlushPositioned(s, h, net, now), CommitWrite(s, h.inodeId, h.pending, now);
            && f.state == (if net.commit.Dropped? then s else o.state)
            && (f.result.Ok? <==> net.commit.Answered? && o.result.Ok?)
  {
    hide CommitWrite, GetLayout;
  }

  lemma AppendedFlushHolds(s: State, h: Handle, net: Network, xs: seq<FileExtent>, size: u64, first: i64, second: i64)
    requires WellBuilt(h) && h.append && h.pendingAppend != [] && Holds(s, h.inodeId, xs, size)
    ensures var f := CommitHandle(s, h, net, first, second);
            && (f.result.Ok? <==> net.append.Answered?)
            && Holds(f.state, h.inodeId,
                     if net.append.Dropped? then xs else MergeAll(xs, ShiftAll(h.pendingAppend, size)),
                     if net.append.Dropped? then size else Add64(size, h.appendLength))
            && (net.append.Dropped? ==> f.state == s)
  {
    hide AppendWrite, WellBuilt, MergeAll, ShiftAll, Holds, Add64, CommitHandle, FlushAppended;
    OnlyAppends(s, h, net, first, second);
    AppendHolds(s, h, xs, size, second);
    AppendedFlushSteps(s, h, net, second);
  }

  lemma OnlyAppends(s: State, h: Handle, net: Network, first: i64, second: i64)
    requires WellBuilt(h) && h.append
    ensures CommitHandle(s, h, net, first, second) == FlushAppended(s, h, net, second)
  {
    hide FlushAppended, FlushPositioned, WellBuilt;
    OneListIsEmpty(h);
    NoPositioned(s, h, net, first);
  }

  /** Where the server is left by the second half of a flush. */
  lemma AppendedFlushSteps(s: State, h: Handle, net: Network, now: i64)
    requires h.pendingAppend != []
    ensures var f, o := FlushAppended(s, h, net, now), AppendWrite(s, h.inodeId, h.pendingAppend, now);
            && f.state == (if net.append.Dropped? then s else o.state)
            && (f.result.Ok? <==> net.append.Answered? && o.result.Ok?)
  {
    hide AppendWrite, GetLayout;
  }

  /** The command the flush of a handle sends; the version it names is not looked at. */
  function FlushCommand(h: Handle, version: u64): Command {
    if h.append then AppendWriteCommand(h.inodeId, version, h.pendingAppend)
    else CommitWriteCommand(h.inodeId, version, h.pending)
  }

  function FlushDelivery(h: Handle, net: Network): Delivery {
    if h.append then net.append else net.commit
  }

  /** A flush of a handle that holds something is one command to the server. It fails if the command is
      not answered, or with the error the command is answered; then the handle is as before. If it
      succeeds, nothing is buffered any more, and the layout is the fetched or the old one. */
  lemma FlushIsOneCommand(s: State, h: Handle, net: Network, version: u64, first: i64, second: i64)
    requires WellBuilt(h) && NoDangling(s) && (h.pending != [] || h.pendingAppend != [])
    ensures var f, now := CommitHandle(s, h, net, first, second), if h.append then second else first;
            var (t, r) := Apply(s, FlushCommand(h, version), Times(now, now));
            && f.state == (if FlushDelivery(h, net).Dropped? then s else t)
            && f.result == (if !FlushDelivery(h, net).Answered? then Err(Unavailable)
                            else if r.ErrorReply? then Err(r.error) else Ok(()))
            && f.handle == (if f.result.Err? then h
                            else Opened(h.inodeId, h.append,
                                        if Fetched(h, net) && GetLayout(t, h.inodeId).Ok?
                                        then GetLayout(t, h.inodeId).value else h.layout))
  {
    hide CommitWrite, AppendWrite, GetLayout, WellBuilt, NoDangling, CommitHandle;
    OneListIsEmpty(h);
    if h.append {
      OnlyAppends(s, h, net, first, second);
      hide FlushPositioned;
      PendingIsEmpty(h);
    } else {
      OnlyPositions(s, h, net, first, second);
      hide FlushAppended;
      PendingIsEmpty(h);
    }
  }

  /** A positioned handle has no append length. */
  lemma PendingIsEmpty(h: Handle)
    requires WellBuilt(h)
    ensures !h.append ==> h.appendLength == 0
  {
    hide WellFormed, AllAcceptable, AllFit, MaxEnd;
  }

  /** A flush of a handle that holds nothing does nothing. */
  lemma EmptyFlush(s: State, h: Handle, net: Network, first: i64, second: i64)
    requires h.pending == [] && h.pendingAppend == []
    ensures CommitHandle(s, h, net, first, second) == FlushOutcome(s, h, Ok(()))
  {
  }

  /** A failed flush and its retry. */
  ghost function Retried(s: State, h: Handle, net: Network, first: i64, second: i64): FlushOutcome {
    var f := CommitHandle(s, h, net, first, second);
    CommitHandle(f.state, f.handle, PERFECT, first, second)
  }

  /** A positioned flush whose commit failed, executed or not, may be repeated: the server then holds
      the size and the bytes of one flush. */
  lemma RetryPositioned(s: State, h: Handle, net: Network, first: i64, second: i64, p: u64)
    requires WellBuilt(h) && Fresh(s, h) && !h.append && h.pending != [] && !net.commit.Answered?
    ensures CommitHandle(s, h, net, first, second).result.Err?
    ensures var twice, once := Retried(s, h, net, first, second), CommitHandle(s, h, PERFECT, first, second);
            && twice.result.Ok? && once.result.Ok?
            && h.inodeId in twice.state.inodes && h.inodeId in once.state.inodes
            && twice.state.inodes[h.inodeId].size == once.state.inodes[h.inodeId].size
            && Byte(twice.state, h.inodeId, p) == Byte(once.state, h.inodeId, p)
  {
    var xs, size := h.layout.extents, h.layout.attrs.size;
    FreshHolds(s, h);
    assert WellFormed(xs);
    OverlayIsUnflushed(h);
    PositionedFlushHolds(s, h, PERFECT, xs, size, first, second);
    PositionedFlushHolds(s, h, net, xs, size, first, second);
    FailedFlushKeepsPending(s, h, net, first, second);
    var f := CommitHandle(s, h, net, first, second);
    hide CommitHandle, WellBuilt, Fresh, MergeAll, MaxEnd, At, WellFormed;
    if net.commit.AnswerLost? {
      PositionedFlushHolds(f.state, h, PERFECT, MergeAll(xs, h.pending), MaxEnd(size, h.pending), first, second);
      BatchReplay(xs, h.pending);
      ReplayedMaxEnd(size, h.pending);
    }
  }

  /** An append whose flush failed is stored once by the retry if and only if the first attempt did not
      reach the server; if only the answer was lost, the bytes are stored a second time behind the
      first. */
  lemma RetryAppended(s: State, h: Handle, net: Network, first: i64, second: i64, p: u64)
    requires WellBuilt(h) && Fresh(s, h) && h.append && h.pendingAppend != [] && !net.append.Answered?
    requires h.layout.attrs.size + 2 * h.appendLength < TWO_64
    ensures CommitHandle(s, h, net, first, second).result.Err?
    ensures var twice, once := Retried(s, h, net, first, second), CommitHandle(s, h, PERFECT, first, second);
            && twice.result.Ok? && once.result.Ok?
            && h.inodeId in twice.state.inodes && h.inodeId in once.state.inodes
            && once.state.inodes[h.inodeId].size == h.layout.attrs.size + h.appendLength
            && (twice.state.inodes[h.inodeId].size == once.state.inodes[h.inodeId].size <==> net.append.Dropped?)
            && Byte(twice.state, h.inodeId, p) ==
               (var again := At(ShiftAll(h.pendingAppend, h.layout.attrs.size + h.appendLength), p);
                if net.append.AnswerLost? && again.Some? then again else Byte(once.state, h.inodeId, p))
  {
    hide CommitHandle, Retried, Fresh, MergeAll, ShiftAll, At, WellFormed, WellBuilt, Add64, Holds, Byte;
    NoWrap(h.layout.attrs.size, h.appendLength);
    NoWrap(h.layout.attrs.size + h.appendLength, h.appendLength);
    AppendRetryHolds(s, h, net, first, second);
    AppendsHaveLength(h);
    LayoutIsWellFormed(h);
    AppendedTwice(h, h.layout.extents, p);
    var twice, once := Retried(s, h, net, first, second), CommitHandle(s, h, PERFECT, first, second);
    var stored := MergeAll(h.layout.extents, ShiftAll(h.pendingAppend, h.layout.attrs.size));
    var end: u64 := h.layout.attrs.size + h.appendLength;
    HeldBytes(once.state, h.inodeId, stored, end, p);
    if net.append.Dropped? {
      HeldBytes(twice.state, h.inodeId, stored, end, p);
    } else {
      HeldBytes(twice.state, h.inodeId, MergeAll(stored, ShiftAll(h.pendingAppend, end)), end + h.appendLength, p);
    }
  }

  lemma LayoutIsWellFormed(h: Handle)
    requires WellBuilt(h)
    ensures WellFormed(h.layout.extents)
  {
  }

  /** What a file the server holds has as size and bytes. */
  lemma HeldBytes(s: State, id: u64, xs: seq<FileExtent>, size: u64, p: u64)
    requires Holds(s, id, xs, size)
    ensures id in s.inodes && s.inodes[id].size == size && Byte(s, id, p) == At(xs, p)
  {
    hide At;
  }

  /** What the server holds after one answered append, and after a failed one and its retry. */
  lemma AppendRetryHolds(s: State, h: Handle, net: Network, first: i64, second: i64)
    requires WellBuilt(h) && Fresh(s, h) && h.append && h.pendingAppend != [] && !net.append.Answered?
    ensures CommitHandle(s, h, net, first, second).result.Err?
    ensures var size, n := h.layout.attrs.size, h.appendLength;
            var once, end := MergeAll(h.layout.extents, ShiftAll(h.pendingAppend, size)), Add64(size, n);
            var f, g := CommitHandle(s, h, PERFECT, first, second), Retried(s, h, net, first, second);
            && f.result.Ok? && Holds(f.state, h.inodeId, once, end)
            && g.result.Ok? && (net.append.Dropped? ==> Holds(g.state, h.inodeId, once, end))
            && (net.append.AnswerLost? ==>
                  Holds(g.state, h.inodeId, MergeAll(once, ShiftAll(h.pendingAppend, end)), Add64(end, n)))
  {
    hide MergeAll, ShiftAll, WellBuilt, Holds, CommitHandle, Add64, Fresh;
    var size, n, xs := h.layout.attrs.size, h.appendLength, h.layout.extents;
    FreshHolds(s, h);
    AppendedFlushHolds(s, h, PERFECT, xs, size, first, second);
    AppendedFlushHolds(s, h, net, xs, size, first, second);
    FailedFlushKeepsPending(s, h, net, first, second);
    if net.append.AnswerLost? {
      AppendedFlushHolds(CommitHandle(s, h, net, first, second).state, h, PERFECT,
                         MergeAll(xs, ShiftAll(h.pendingAppend, size)), Add64(size, n), first, second);
    }
  }

  lemma FreshHolds(s: State, h: Handle)
    requires Fresh(s, h)
    ensures Holds(s, h.inodeId, h.layout.extents, h.layout.attrs.size)
  {
  }

  lemma NoWrap(a: u64, b: u64)
    requires a + b < TWO_64
    ensures Add64(a, b) == a + b
  {
  }

  lemma AppendedTwice(h: Handle, xs: seq<FileExtent>, p: u64)
    requires WellBuilt(h) && h.append && WellFormed(xs)
    requires h.layout.attrs.size + 2 * h.appendLength < TWO_64
    ensures var size := h.layout.attrs.size;
            var once := MergeAll(xs, ShiftAll(h.pendingAppend, size));
            var again := ShiftAll(h.pendingAppend, size + h.appendLength);
            At(MergeAll(once, again), p) == if At(again, p).Some? then At(again, p) else At(once, p)
  {
    var size := h.layout.attrs.size;
    var first, again := ShiftAll(h.pendingAppend, size), ShiftAll(h.pendingAppend, size + h.appendLength);
    AppendsFit(h, size);
    AppendsFit(h, size + h.appendLength);
    hide WellBuilt, MergeAll, ShiftAll, At, WellFormed, AllFit, NoneEmpty;
    BatchOverlays(xs, first);
    BatchOverlays(MergeAll(xs, first), again);
    AtConcat(MergeAll(xs, first), again, p);
  }

  lemma AppendsFit(h: Handle, start: u64)
    requires WellBuilt(h) && start + h.appendLength < TWO_64
    ensures AllFit(ShiftAll(h.pendingAppend, start)) && NoneEmpty(ShiftAll(h.pendingAppend, start))
  {
    var es := h.pendingAppend;
    AppendsWithin(h);
    ShiftedMaxEnd(start, es);
    forall i | 0 <= i < |es| ensures 0 < ShiftAll(es, start)[i].length {
      assert Acceptable(es[i]);
    }
  }

  lemma AppendsWithin(h: Handle)
    requires WellBuilt(h)
    ensures Bounded(h.pendingAppend, h.appendLength)
  {
  }

  lemma AppendsHaveLength(h: Handle)
    requires WellBuilt(h) && h.append && h.pendingAppend != []
    ensures 0 < h.appendLength
  {
    assert Acceptable(h.pendingAppend[0]);
    assert Bounded(h.pendingAppend, MaxEnd(0, h.pendingAppend));
  }
}
