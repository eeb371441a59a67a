/** The client's view of an open file: buffered writes, reads that overlay them on the committed
    layout, and the flush (src/fuse/file_io.cc:30-139, src/fuse/fuse_server.cc:125-159, 434-480). */
module FileIo {
  import opened Types
  import opened Extents
  import opened Objects

  /** An open file with what it has not flushed yet. */
  datatype Handle = Handle(
    inodeId: u64,
    append: bool,
    layout: FileLayout,
    pending: seq<FileExtent>,
    pendingAppend: seq<FileExtent>,
    appendLength: u64)

  // ---------- reading extents into a buffer ----------

  /** One extent: fetch the overlapping range and copy what the store returns. */
  function ReadOne(bucket: Bucket, e: FileExtent, begin: u64, end: u64, buffer: seq<byte>): Result<seq<byte>>
    requires begin + |buffer| == end
  {
    var lo, hi := Max64(begin, e.offset), Min64(end, ExtentEnd(e));
    if lo >= hi then Ok(buffer)
    else match GetRange(bucket, e.objectKey, Add64(e.objectOffset, lo - e.offset), hi - lo)
         case Err(error) => Err(error)
         case Ok(body) =>
           var count := if |body| < hi - lo then |body| else hi - lo;
           Ok(buffer[..lo - begin] + body[..count] + buffer[lo - begin + count..])
  }

  function ReadInto(bucket: Bucket, xs: seq<FileExtent>, begin: u64, end: u64, buffer: seq<byte>)
      : (r: Result<seq<byte>>)
    requires begin + |buffer| == end
    ensures r.Ok? ==> |r.value| == |buffer|
  {
    if xs == [] then Ok(buffer)
    else match ReadInto(bucket, xs[..|xs| - 1], begin, end, buffer)
         case Err(error) => Err(error)
         case Ok(b) => ReadOne(bucket, xs[|xs| - 1], begin, end, b)
  }

  /** The extent's object is there and covers the extent's range. */
  predicate BackedOne(bucket: Bucket, e: FileExtent) {
    && e.objectKey in bucket && e.objectOffset + e.length < TWO_64
    && e.objectOffset + e.length <= |bucket[e.objectKey].body|
  }

  predicate Backed(bucket: Bucket, xs: seq<FileExtent>) {
    forall i :: 0 <= i < |xs| ==> BackedOne(bucket, xs[i])
  }

  /** The byte behind a location. */
  function Content(bucket: Bucket, at: Option<Location>): byte {
    if at.Some? && at.value.key in bucket && at.value.position < |bucket[at.value.key].body|
    then bucket[at.value.key].body[at.value.position] else 0
  }

  lemma ReadOneBytes(bucket: Bucket, e: FileExtent, begin: u64, end: u64, buffer: seq<byte>)
    requires begin + |buffer| == end && BackedOne(bucket, e) && Fits(e)
    ensures ReadOne(bucket, e, begin, end, buffer).Ok?
    ensures var b := ReadOne(bucket, e, begin, end, buffer).value;
            && |b| == |buffer|
            && forall i :: 0 <= i < |b| ==>
                 b[i] == if Covers(e, begin + i) then Content(bucket, Some(Locate(e, begin + i))) else buffer[i]
  {
    var lo, hi := Max64(begin, e.offset), Min64(end, ExtentEnd(e));
    if lo < hi {
      var from := e.objectOffset + (lo - e.offset);
      assert from < TWO_64 && from + (hi - lo) <= |bucket[e.objectKey].body|;
      var body := GetRange(bucket, e.objectKey, from, hi - lo).value;
      assert body == bucket[e.objectKey].body[from..from + (hi - lo)];
      assert ReadOne(bucket, e, begin, end, buffer).value ==
             buffer[..lo - begin] + body + buffer[hi - begin..];
      assert forall k :: 0 <= k < |body| ==> body[k] == Content(bucket, Some(Locate(e, lo + k)));
    } else {
      assert ReadOne(bucket, e, begin, end, buffer) == Ok(buffer);
    }
  }

  /** Filling a buffer from backed extents shows, at every position, the byte the extent list
      maps the position to, and leaves the buffer where the list has a hole. */
  lemma {:induction false} ReadIntoBytes(bucket: Bucket, xs: seq<FileExtent>, begin: u64, end: u64, buffer: seq<byte>)
    requires begin + |buffer| == end && Backed(bucket, xs) && AllFit(xs)
    ensures ReadInto(bucket, xs, begin, end, buffer).Ok?
    ensures var b := ReadInto(bucket, xs, begin, end, buffer).value;
            forall i :: 0 <= i < |b| ==>
              b[i] == if At(xs, begin + i).Some? then Content(bucket, At(xs, begin + i)) else buffer[i]
  {
    if xs != [] {
      var init, last := xs[..|xs| - 1], xs[|xs| - 1];
      ReadIntoBytes(bucket, init, begin, end, buffer);
      assert BackedOne(bucket, last) && Fits(last);
      hide ReadOne, Content;
      ReadOneBytes(bucket, last, begin, end, ReadInto(bucket, init, begin, end, buffer).value);
    }
  }

  lemma {:induction false} ReadIntoConcat(
      bucket: Bucket, xs: seq<FileExtent>, ys: seq<FileExtent>, begin: u64, end: u64, buffer: seq<byte>)
    requires begin + |buffer| == end
    ensures ReadInto(bucket, xs + ys, begin, end, buffer) ==
            match ReadInto(bucket, xs, begin, end, buffer)
            case Err(error) => Err(error)
            case Ok(b) => ReadInto(bucket, ys, begin, end, b)
  {
    hide ReadOne;
    if ys == [] {
      assert xs + ys == xs;
    } else {
      assert (xs + ys)[..|xs + ys| - 1] == xs + ys[..|ys| - 1];
      ReadIntoConcat(bucket, xs, ys[..|ys| - 1], begin, end, buffer);
    }
  }

  /** Overwrite a stretch of the buffer. */
  method CopyInto(output: array<byte>, at: nat, bytes: seq<byte>)
    requires at + |bytes| <= output.Length
    modifies output
    ensures output[..] == old(output[..at]) + bytes + old(output[at + |bytes|..])
  {
    for j := 0 to |bytes|
      invariant output[..at] == old(output[..at])
      invariant output[at..at + j] == bytes[..j]
      invariant output[at + j..] == old(output[at + j..])
    {
      output[at + j] := bytes[j];
    }
  }

  /** One turn of the loop: fetch the overlap and copy it. */
  method ReadExtent(bucket: Bucket, e: FileExtent, begin: u64, end: u64, output: array<byte>)
    returns (result: Result<()>)
    requires begin + output.Length == end
    modifies output
    ensures match ReadOne(bucket, e, begin, end, old(output[..]))
            case Err(error) => result == Err(error)
            case Ok(b) => result == Ok(()) && output[..] == b
  {
    var lo, hi := Max64(begin, e.offset), Min64(end, ExtentEnd(e));
    if lo >= hi {
      return Ok(());
    }
    var fetched := GetRange(bucket, e.objectKey, Add64(e.objectOffset, lo - e.offset), hi - lo);
    if fetched.Err? {
      return Err(fetched.error);
    }
    var body := fetched.value;
    var count := if |body| < hi - lo then |body| else hi - lo;
    ghost var before := output[..];
    CopyInto(output, lo - begin, body[..count]);
    assert output[..] == before[..lo - begin] + body[..count] + before[lo - begin + count..];
    return Ok(());
  }

  method ReadExtentsIntoBuffer(bucket: Bucket, xs: seq<FileExtent>, begin: u64, end: u64, output: array<byte>)
    returns (result: Result<()>)
    requires begin + output.Length == end
    modifies output
    ensures match ReadInto(bucket, xs, begin, end, old(output[..]))
            case Err(error) => result == Err(error)
            case Ok(b) => result == Ok(()) && output[..] == b
  {
    ghost var start := output[..];
    hide ReadOne;
    for i := 0 to |xs|
      invariant ReadInto(bucket, xs[..i], begin, end, start) == Ok(output[..])
    {
      assert xs[..i + 1][..i] == xs[..i];
      var one := ReadExtent(bucket, xs[i], begin, end, output);
      if one.Err? {
        ReadIntoStops(bucket, xs, i, begin, end, start);
        return one;
      }
    }
    assert xs[..|xs|] == xs;
    return Ok(());
  }

  /** A failed fetch is the result, whatever extents follow. */
  lemma {:induction false} ReadIntoStops(
      bucket: Bucket, xs: seq<FileExtent>, i: nat, begin: u64, end: u64, buffer: seq<byte>)
    requires begin + |buffer| == end && i < |xs| && ReadInto(bucket, xs[..i + 1], begin, end, buffer).Err?
    ensures ReadInto(bucket, xs, begin, end, buffer) == ReadInto(bucket, xs[..i + 1], begin, end, buffer)
  {
    hide ReadOne;
    if i + 1 < |xs| {
      assert xs[..|xs| - 1][..i + 1] == xs[..i + 1];
      ReadIntoStops(bucket, xs[..|xs| - 1], i, begin, end, buffer);
    } else {
      assert xs[..i + 1] == xs;
    }
  }

  // ---------- reading from a handle ----------

  /** Everything the handle overlays, oldest first. */
  function Overlay(h: Handle): seq<FileExtent> {
    h.layout.extents + h.pending + ShiftAll(h.pendingAppend, h.layout.attrs.size)
  }

  function VisibleSize(h: Handle): u64 {
    MaxEnd(MaxEnd(h.layout.attrs.size, h.pending), ShiftAll(h.pendingAppend, h.layout.attrs.size))
  }

  /** A buffer of zeros. */
  function Zeros(n: nat): (z: seq<byte>)
    ensures |z| == n && forall i :: 0 <= i < n ==> z[i] == 0
  {
    seq(n, i => 0)
  }

  function ReadFromHandle(bucket: Bucket, h: Handle, size: u64, off: i64): Result<seq<byte>> {
    if size == 0 then Ok([])
    else if off < 0 then Err(InvalidArgument)
    else if off >= VisibleSize(h) then Ok([])
    else
      var begin: u64 := off;
      var end := if begin + size < VisibleSize(h) then begin + size else VisibleSize(h);
      ReadPasses(bucket, h.layout.extents, h.pending, ShiftAll(h.pendingAppend, h.layout.attrs.size), begin, end)
  }

  /** Committed, pending and appended extents, each pass over what the one before left. */
  function ReadPasses(
      bucket: Bucket, committed: seq<FileExtent>, pending: seq<FileExtent>, appended: seq<FileExtent>,
      begin: u64, end: u64): Result<seq<byte>>
    requires begin <= end
  {
    match ReadInto(bucket, committed, begin, end, Zeros(end - begin))
    case Err(error) => Err(error)
    case Ok(b1) =>
      match ReadInto(bucket, pending, begin, end, b1)
      case Err(error) => Err(error)
      case Ok(b2) => ReadInto(bucket, appended, begin, end, b2)
  }

  /** Reading a plain file of a given size whose bytes are given by an extent list. */
  ghost predicate PlainRead(
      bucket: Bucket, xs: seq<FileExtent>, fileSize: u64, size: u64, off: i64, r: Result<seq<byte>>)
  {
    if size == 0 then r == Ok([])
    else if off < 0 then r == Err(InvalidArgument)
    else if off >= fileSize then r == Ok([])
    else
      && r.Ok?
      && |r.value| == (if off + size < fileSize then size else fileSize - off)
      && forall i :: 0 <= i < |r.value| ==> r.value[i] == Content(bucket, At(xs, off + i))
  }

  /** A read through a handle is a plain read of the overlay: zeros in the holes, every buffered
      write on top of what it covers, nothing past the visible size. */
  lemma ReadsArePlain(bucket: Bucket, h: Handle, size: u64, off: i64)
    requires Backed(bucket, Overlay(h)) && AllFit(Overlay(h))
    ensures PlainRead(bucket, Overlay(h), VisibleSize(h), size, off, ReadFromHandle(bucket, h, size, off))
  {
    hide VisibleSize, Overlay, ReadPasses, Backed, AllFit, Content, At;
    if 0 < size && 0 <= off < VisibleSize(h) {
      ReadInside(bucket, h, size, off);
    }
  }

  /** A read that starts inside the file. */
  lemma ReadInside(bucket: Bucket, h: Handle, size: u64, off: i64)
    requires Backed(bucket, Overlay(h)) && AllFit(Overlay(h)) && 0 < size && 0 <= off < VisibleSize(h)
    ensures PlainRead(bucket, Overlay(h), VisibleSize(h), size, off, ReadFromHandle(bucket, h, size, off))
  {
    hide VisibleSize, ReadInto, Overlay, ReadFromHandle, Backed, AllFit, Content, At;
    var end: u64 := if off + size < VisibleSize(h) then off + size else VisibleSize(h);
    ReadIsOnePass(bucket, h, size, off);
    ReadIntoBytes(bucket, Overlay(h), off, end, Zeros(end - off));
    HolesReadZero(bucket);
  }

  /** The three passes over committed, pending and appended extents are one pass over the overlay. */
  lemma ReadIsOnePass(bucket: Bucket, h: Handle, size: u64, off: i64)
    requires 0 < size && 0 <= off < VisibleSize(h)
    ensures var end: u64 := if off + size < VisibleSize(h) then off + size else VisibleSize(h);
            ReadFromHandle(bucket, h, size, off) == ReadInto(bucket, Overlay(h), off, end, Zeros(end - off))
  {
    var end: u64 := if off + size < VisibleSize(h) then off + size else VisibleSize(h);
    hide VisibleSize, ReadInto, ShiftAll;
    ReadIntoConcat(bucket, h.layout.extents, h.pending, off, end, Zeros(end - off));
    ReadIntoConcat(bucket, h.layout.extents + h.pending, ShiftAll(h.pendingAppend, h.layout.attrs.size),
                   off, end, Zeros(end - off));
  }

  lemma HolesReadZero(bucket: Bucket)
    ensures Content(bucket, None) == 0
  {
  }

  /** A plain read is determined by the file's size and bytes. */
  lemma PlainReadsAgree(
      bucket: Bucket, xs: seq<FileExtent>, ys: seq<FileExtent>, fileSize: u64, size: u64, off: i64,
      r: Result<seq<byte>>, q: Result<seq<byte>>)
    requires PlainRead(bucket, xs, fileSize, size, off, r) && PlainRead(bucket, ys, fileSize, size, off, q)
    requires forall p: u64 :: p < fileSize ==> Content(bucket, At(xs, p)) == Content(bucket, At(ys, p))
    ensures r == q
  {
    if 0 < size && 0 <= off < fileSize {
      hide At, Content;
      assert |r.value| == |q.value|;
      forall i | 0 <= i < |r.value| ensures r.value[i] == q.value[i] {
        var p: u64 := off + i;
        assert Content(bucket, At(xs, p)) == Content(bucket, At(ys, p));
      }
      assert r.value == q.value;
    }
  }

  /** Some byte both readers can ask for is different, or one file is longer: then a read tells. */
  lemma DifferenceShows(
      bucket: Bucket, xs: seq<FileExtent>, xSize: u64, ys: seq<FileExtent>, ySize: u64, p: u64,
      r: Result<seq<byte>>, q: Result<seq<byte>>)
    requires p < xSize && (p < ySize ==> Content(bucket, At(xs, p)) != Content(bucket, At(ys, p)))
    requires PlainRead(bucket, xs, xSize, MAX_64, LastOffset(p), r)
    requires PlainRead(bucket, ys, ySize, MAX_64, LastOffset(p), q)
    ensures r != q
  {
    hide Content, At;
    var i := p - LastOffset(p);
    assert r.Ok? && i < |r.value| && r.value[i] == Content(bucket, At(xs, LastOffset(p) + i));
    if p < ySize {
      assert q.Ok? && i < |q.value| && q.value[i] == Content(bucket, At(ys, LastOffset(p) + i));
    }
  }

  /** An offset a read can be asked for at or before a position. */
  function LastOffset(p: u64): i64 {
    if p < 0x8000_0000_0000_0000 then p else 0x7FFF_FFFF_FFFF_FFFF
  }

  ghost predicate ReadAlike(bucket: Bucket, h: Handle, g: Handle) {
    forall size: u64, off: i64 :: ReadFromHandle(bucket, h, size, off) == ReadFromHandle(bucket, g, size, off)
  }

  /** The two handles show files of the same size with the same bytes. */
  ghost predicate ShowAlike(bucket: Bucket, h: Handle, g: Handle) {
    && VisibleSize(h) == VisibleSize(g)
    && forall p: u64 :: p < VisibleSize(h) ==> Content(bucket, At(Overlay(h), p)) == Content(bucket, At(Overlay(g), p))
  }

  /** All reads through two handles agree if and only if the handles show the same file. */
  lemma ReadAlikeIff(bucket: Bucket, h: Handle, g: Handle)
    requires Backed(bucket, Overlay(h)) && AllFit(Overlay(h)) && Backed(bucket, Overlay(g)) && AllFit(Overlay(g))
    ensures ReadAlike(bucket, h, g) <==> ShowAlike(bucket, h, g)
  {
    hide VisibleSize, ReadFromHandle, Overlay, Backed, AllFit, At, Content;
    if ShowAlike(bucket, h, g) {
      forall size: u64, off: i64 ensures ReadFromHandle(bucket, h, size, off) == ReadFromHandle(bucket, g, size, off) {
        ReadsArePlain(bucket, h, size, off);
        ReadsArePlain(bucket, g, size, off);
        PlainReadsAgree(bucket, Overlay(h), Overlay(g), VisibleSize(h), size, off,
                        ReadFromHandle(bucket, h, size, off), ReadFromHandle(bucket, g, size, off));
      }
    } else {
      hide PlainRead;
      var p: u64 :=
        if VisibleSize(h) < VisibleSize(g) then VisibleSize(h)
        else if VisibleSize(g) < VisibleSize(h) then VisibleSize(g)
        else var x: u64 :| x < VisibleSize(h) &&
                           Content(bucket, At(Overlay(h), x)) != Content(bucket, At(Overlay(g), x)); x;
      var off := LastOffset(p);
      ReadsArePlain(bucket, h, MAX_64, off);
      ReadsArePlain(bucket, g, MAX_64, off);
      var r, q := ReadFromHandle(bucket, h, MAX_64, off), ReadFromHandle(bucket, g, MAX_64, off);
      if p < VisibleSize(h) {
        DifferenceShows(bucket, Overlay(h), VisibleSize(h), Overlay(g), VisibleSize(g), p, r, q);
      } else {
        DifferenceShows(bucket, Overlay(g), VisibleSize(g), Overlay(h), VisibleSize(h), p, q, r);
      }
    }
  }
}
