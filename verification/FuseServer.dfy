/** The client process: open handles updated in place by writes and flushes
    (src/fuse/fuse_server.cc:125-159 and 434-480, src/fuse/file_io.cc:86-139). */
module FuseClient {
  import opened Types
  import opened Extents
  import opened MetaSpec
  import opened ObjectKeys
  import opened Objects
  import opened FileIo
  import opened Handles
  import opened MetaServer

  /** What a write call is answered: the count, a refusal, or the store's error. */
  datatype WriteReply = Taken(count: nat) | BadHandle | PutFailed(error: Error)

  class FuseFileHandle {
    const inodeId: u64
    const append: bool
    const writable: bool
    var layout: FileLayout
    var pendingExtents: seq<FileExtent>
    var pendingAppendExtents: seq<FileExtent>
    var pendingAppendLength: u64

    ghost function Abstract(): Handle
      reads this
    {
      Handle(inodeId, append, layout, pendingExtents, pendingAppendExtents, pendingAppendLength)
    }

    constructor (inodeId: u64, append: bool, writable: bool, layout: FileLayout)
      ensures Abstract() == Opened(inodeId, append, layout) && this.writable == writable
    {
      this.inodeId, this.append, this.writable, this.layout := inodeId, append, writable, layout;
      pendingExtents, pendingAppendExtents, pendingAppendLength := [], [], 0;
    }
  }

  class FuseServer {
    const objectPrefix: string
    const keys: ObjectKeyGenerator
    const store: ObjectStore
    const meta: MetaState

    constructor (objectPrefix: string, keys: ObjectKeyGenerator, store: ObjectStore, meta: MetaState)
      ensures this.objectPrefix == objectPrefix && this.keys == keys && this.store == store && this.meta == meta
    {
      this.objectPrefix, this.keys, this.store, this.meta := objectPrefix, keys, store, meta;
    }

    /** The key of the object the next write to a handle stores. */
    ghost function NextKey(h: Handle, off: u64, sequence: u64): string {
      ObjectKey(objectPrefix, h.inodeId, keys.writerId, sequence, if h.append then h.appendLength else off)
    }

    /** A write stores its bytes under a new key and queues one extent. A handle that is not writable
        is refused; a failed put uses up a key and queues nothing. */
    method PulpfsWrite(
        handle: FuseFileHandle, data: seq<byte>, off: u64, etag: string, now: int, delivery: Delivery)
      returns (reply: WriteReply)
      requires |data| < TWO_64
      modifies handle, store, keys
      ensures var h := old(handle.Abstract());
              var w := WriteCall(NextKey(h, off, old(keys.nextSequence)), etag, off, data);
              && reply == (if !handle.writable then BadHandle
                           else if !delivery.Answered? then PutFailed(Unavailable) else Taken(|data|))
              && handle.Abstract() == (if reply.Taken? then Written(h, w) else h)
              && store.objects == (if !handle.writable || delivery.Dropped? then old(store.objects)
                                   else Put(old(store.objects), w, now))
              && keys.nextSequence ==
                 (if handle.writable then Add64(old(keys.nextSequence), 1) else old(keys.nextSequence))
    {
      if !handle.writable {
        return BadHandle;
      }
      var writeOffset := if handle.append then handle.pendingAppendLength else off;
      var key := keys.MakeObjectKey(objectPrefix, handle.inodeId, writeOffset);
      var put := store.PutObject(key, data, etag, now, delivery);
      if put.Err? {
        return PutFailed(put.error);
      }
      var extent := FileExtent(writeOffset, |data|, key, put.value.etag, "", put.value.size, 0);
      if handle.append {
        handle.pendingAppendLength := Add64(handle.pendingAppendLength, |data|);
        handle.pendingAppendExtents := handle.pendingAppendExtents + [extent];
      } else {
        handle.pendingExtents := handle.pendingExtents + [extent];
      }
      return Taken(|data|);
    }

    method ReadHandle(handle: FuseFileHandle, size: u64, off: i64) returns (result: Result<seq<byte>>)
      ensures result == ReadFromHandle(store.objects, handle.Abstract(), size, off)
    {
      hide VisibleSize, ReadInto, ShiftAll;
      if size == 0 {
        return Ok([]);
      }
      if off < 0 {
        return Err(InvalidArgument);
      }
      var visible, appended := Visible(handle);
      if off >= visible {
        return Ok([]);
      }
      var end: u64 := if off + size < visible then off + size else visible;
      result := Overlaid(handle, appended, off, end);
    }

    /** The visible size, and the pending appends placed behind the committed end. */
    method Visible(handle: FuseFileHandle) returns (visible: u64, appended: seq<FileExtent>)
      ensures visible == VisibleSize(handle.Abstract())
      ensures appended == ShiftAll(handle.pendingAppendExtents, handle.layout.attrs.size)
    {
      var start := handle.layout.attrs.size;
      visible := start;
      for i := 0 to |handle.pendingExtents|
        invariant visible == MaxEnd(start, handle.pendingExtents[..i])
      {
        assert handle.pendingExtents[..i + 1][..i] == handle.pendingExtents[..i];
        visible := Max64(visible, ExtentEnd(handle.pendingExtents[i]));
      }
      assert handle.pendingExtents[..|handle.pendingExtents|] == handle.pendingExtents;
      appended := [];
      for i := 0 to |handle.pendingAppendExtents|
        invariant appended == ShiftAll(handle.pendingAppendExtents[..i], start)
        invariant visible == MaxEnd(MaxEnd(start, handle.pendingExtents), appended)
      {
        assert handle.pendingAppendExtents[..i + 1][..i] == handle.pendingAppendExtents[..i];
        var extent := handle.pendingAppendExtents[i].(offset := Add64(start, handle.pendingAppendExtents[i].offset));
        visible := Max64(visible, ExtentEnd(extent));
        assert (appended + [extent])[..|appended|] == appended;
        appended := appended + [extent];
      }
      assert handle.pendingAppendExtents[..|handle.pendingAppendExtents|] == handle.pendingAppendExtents;
    }

    /** The three passes over a zeroed buffer. */
    method Overlaid(handle: FuseFileHandle, appended: seq<FileExtent>, begin: u64, end: u64)
      returns (result: Result<seq<byte>>)
      requires begin <= end
      ensures result == ReadPasses(store.objects, handle.layout.extents, handle.pendingExtents, appended, begin, end)
    {
      hide ReadInto;
      var output := new byte[end - begin](_ => 0);
      assert output[..] == Zeros(end - begin);
      var one := ReadExtentsIntoBuffer(store.objects, handle.layout.extents, begin, end, output);
      if one.Err? {
        return Err(one.error);
      }
      var two := ReadExtentsIntoBuffer(store.objects, handle.pendingExtents, begin, end, output);
      if two.Err? {
        return Err(two.error);
      }
      var three := ReadExtentsIntoBuffer(store.objects, appended, begin, end, output);
      if three.Err? {
        return Err(three.error);
      }
      return Ok(output[..]);
    }

    /** CommitHandle; what happens to each remote call is an input. */
    method CommitOpenHandle(handle: FuseFileHandle, net: Network, first: i64, second: i64) returns (result: Result<()>)
      modifies handle, meta
      ensures FlushOutcome(meta.Abstract(), handle.Abstract(), result) ==
              CommitHandle(old(meta.Abstract()), old(handle.Abstract()), net, first, second)
    {
      hide CommitWrite, AppendWrite, GetLayout;
      if handle.pendingExtents != [] {
        if net.commit.Dropped? {
          return Err(Unavailable);
        }
        var answer := meta.CommitWrite(handle.inodeId, handle.pendingExtents, first);
        if net.commit.AnswerLost? {
          return Err(Unavailable);
        }
        if answer.Err? {
          return Err(answer.error);
        }
        handle.pendingExtents := [];
        var layout := meta.GetLayout(handle.inodeId);
        if net.firstLayout && layout.Ok? {
          handle.layout := layout.value;
        }
      }
      if handle.pendingAppendExtents != [] {
        if net.append.Dropped? {
          return Err(Unavailable);
        }
        var answer := meta.AppendWrite(handle.inodeId, handle.pendingAppendExtents, second);
        if net.append.AnswerLost? {
          return Err(Unavailable);
        }
        if answer.Err? {
          return Err(answer.error);
        }
        handle.pendingAppendExtents := [];
        handle.pendingAppendLength := 0;
        var layout := meta.GetLayout(handle.inodeId);
        if net.secondLayout && layout.Ok? {
          handle.layout := layout.value;
        }
      }
      return Ok(());
    }
  }
}
