/** Reads when objects are missing or shorter than recorded (src/fuse/file_io.cc:30-62 and 86-139). */
module PartialReads {
  import opened Types
  import opened Extents
  import opened Objects
  import opened FileIo

  /** The read needs bytes of the extent, and its object is not there. */
  predicate Missing(bucket: Bucket, e: FileExtent, begin: u64, end: u64) {
    Max64(begin, e.offset) < Min64(end, ExtentEnd(e)) && e.objectKey !in bucket
  }

  ghost predicate FirstMissing(bucket: Bucket, xs: seq<FileExtent>, begin: u64, end: u64, i: int) {
    0 <= i < |xs| && Missing(bucket, xs[i], begin, end) &&
    forall j :: 0 <= j < i ==> !Missing(bucket, xs[j], begin, end)
  }

  ghost predicate NoneMissing(bucket: Bucket, xs: seq<FileExtent>, begin: u64, end: u64) {
    forall i :: 0 <= i < |xs| ==> !Missing(bucket, xs[i], begin, end)
  }

  lemma ReadOneFailsIff(bucket: Bucket, e: FileExtent, begin: u64, end: u64, buffer: seq<byte>)
    requires begin + |buffer| == end
    ensures ReadOne(bucket, e, begin, end, buffer) ==
            if Missing(bucket, e, begin, end) then Err(NotFound(e.objectKey))
            else Ok(ReadOne(bucket, e, begin, end, buffer).value)
  {
  }

  /** Filling a buffer fails if and only if an object is missing, and names the first missing one. */
  lemma {:induction false} ReadIntoFailsIff(
      bucket: Bucket, xs: seq<FileExtent>, begin: u64, end: u64, buffer: seq<byte>)
    requires begin + |buffer| == end
    ensures ReadInto(bucket, xs, begin, end, buffer).Ok? <==> NoneMissing(bucket, xs, begin, end)
    ensures forall i :: FirstMissing(bucket, xs, begin, end, i) ==>
              ReadInto(bucket, xs, begin, end, buffer) == Err(NotFound(xs[i].objectKey))
  {
    if xs != [] {
      var init, last := xs[..|xs| - 1], xs[|xs| - 1];
      ReadIntoFailsIff(bucket, init, begin, end, buffer);
      assert NoneMissing(bucket, xs, begin, end) <==>
             NoneMissing(bucket, init, begin, end) && !Missing(bucket, last, begin, end);
      forall i | FirstMissing(bucket, xs, begin, end, i) && i < |xs| - 1
        ensures FirstMissing(bucket, init, begin, end, i)
      {
      }
      hide ReadOne, Missing;
      if NoneMissing(bucket, init, begin, end) {
        ReadOneFailsIff(bucket, last, begin, end, ReadInto(bucket, init, begin, end, buffer).value);
      }
    }
  }

  /** A read through any handle fails if and only if it starts before the file, or inside it and needs an
      object that is missing. */
  lemma ReadFailsIff(bucket: Bucket, h: Handle, size: u64, off: i64)
    ensures var r, visible := ReadFromHandle(bucket, h, size, off), VisibleSize(h);
            && (size == 0 ==> r == Ok([]))
            && (0 < size && off < 0 ==> r == Err(InvalidArgument))
            && (0 < size && visible <= off ==> r == Ok([]))
            && (0 < size && 0 <= off < visible ==>
                  var end: u64 := if off + size < visible then off + size else visible;
                  && (r.Ok? <==> NoneMissing(bucket, Overlay(h), off, end))
                  && (r.Ok? ==> |r.value| == end - off)
                  && forall i :: FirstMissing(bucket, Overlay(h), off, end, i) ==>
                       r == Err(NotFound(Overlay(h)[i].objectKey)))
  {
    hide VisibleSize, ReadPasses, Overlay, NoneMissing, FirstMissing;
    if 0 < size && 0 <= off < VisibleSize(h) {
      var end: u64 := if off + size < VisibleSize(h) then off + size else VisibleSize(h);
      ReadIsOnePass(bucket, h, size, off);
      ReadIntoFailsIff(bucket, Overlay(h), off, end, Zeros(end - off));
    }
  }

  // ---------- short objects ----------

  /** The extent shows a position, and its object is long enough to have the byte. */
  predicate Has(bucket: Bucket, e: FileExtent, p: u64) {
    Covers(e, p) && e.objectKey in bucket && e.objectOffset + (p - e.offset) < |bucket[e.objectKey].body|
  }

  /** The byte of the last extent that has one. */
  function Showing(bucket: Bucket, xs: seq<FileExtent>, p: u64): Option<byte> {
    if xs == [] then None
    else if Has(bucket, xs[|xs| - 1], p) then
      Some(bucket[xs[|xs| - 1].objectKey].body[xs[|xs| - 1].objectOffset + (p - xs[|xs| - 1].offset)])
    else Showing(bucket, xs[..|xs| - 1], p)
  }

  predicate RangesFit(xs: seq<FileExtent>) {
    forall i :: 0 <= i < |xs| ==> xs[i].objectOffset + xs[i].length < TWO_64
  }

  lemma ReadOneShows(bucket: Bucket, e: FileExtent, begin: u64, end: u64, buffer: seq<byte>)
    requires begin + |buffer| == end && Fits(e) && e.objectOffset + e.length < TWO_64
    requires ReadOne(bucket, e, begin, end, buffer).Ok?
    ensures var b := ReadOne(bucket, e, begin, end, buffer).value;
            && |b| == |buffer|
            && forall i :: 0 <= i < |b| ==>
                 b[i] == if Has(bucket, e, begin + i)
                         then bucket[e.objectKey].body[e.objectOffset + (begin + i - e.offset)] else buffer[i]
  {
    var lo, hi := Max64(begin, e.offset), Min64(end, ExtentEnd(e));
    if lo < hi {
      var from := e.objectOffset + (lo - e.offset);
      var stored := bucket[e.objectKey].body;
      var body := GetRange(bucket, e.objectKey, from, hi - lo).value;
      assert from < TWO_64;
      assert |body| <= hi - lo;
      assert forall k :: 0 <= k < |body| ==> body[k] == stored[from + k];
      assert |body| == if |stored| < from then 0 else if from + (hi - lo) < |stored| then hi - lo else |stored| - from;
      assert body[..|body|] == body;
      assert ReadOne(bucket, e, begin, end, buffer).value ==
             buffer[..lo - begin] + body + buffer[lo - begin + |body|..];
    } else {
      assert ReadOne(bucket, e, begin, end, buffer) == Ok(buffer);
    }
  }

  /** Where an object is too short, what lies below shows through. */
  lemma {:induction false} ReadIntoShows(
      bucket: Bucket, xs: seq<FileExtent>, begin: u64, end: u64, buffer: seq<byte>)
    requires begin + |buffer| == end && AllFit(xs) && RangesFit(xs)
    requires ReadInto(bucket, xs, begin, end, buffer).Ok?
    ensures var b := ReadInto(bucket, xs, begin, end, buffer).value;
            forall i :: 0 <= i < |b| ==>
              b[i] == if Showing(bucket, xs, begin + i).Some? then Showing(bucket, xs, begin + i).value else buffer[i]
  {
    if xs != [] {
      var init, last := xs[..|xs| - 1], xs[|xs| - 1];
      ReadIntoShows(bucket, init, begin, end, buffer);
      hide ReadOne, Has;
      ReadOneShows(bucket, last, begin, end, ReadInto(bucket, init, begin, end, buffer).value);
    }
  }

  /** A read that succeeds shows at each position the byte of the newest extent whose object has it, and
      zero where none has. */
  lemma ReadShows(bucket: Bucket, h: Handle, size: u64, off: i64)
    requires AllFit(Overlay(h)) && RangesFit(Overlay(h)) && 0 < size && 0 <= off < VisibleSize(h)
    requires ReadFromHandle(bucket, h, size, off).Ok?
    ensures var b := ReadFromHandle(bucket, h, size, off).value;
            && |b| == (if off + size < VisibleSize(h) then size else VisibleSize(h) - off)
            && forall i :: 0 <= i < |b| ==>
                 b[i] == if Showing(bucket, Overlay(h), off + i).Some?
                         then Showing(bucket, Overlay(h), off + i).value else 0
  {
    hide VisibleSize, ReadPasses, Overlay, AllFit, RangesFit, ReadInto, Showing, ReadFromHandle;
    var end: u64 := if off + size < VisibleSize(h) then off + size else VisibleSize(h);
    ReadIsOnePass(bucket, h, size, off);
    ReadIntoShows(bucket, Overlay(h), off, end, Zeros(end - off));
  }
}
