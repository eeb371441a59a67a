/** The object store as the program uses it: put, ranged get, delete, and a listing in pages
    (src/object/object_store.h, src/object/s3_store.cc:98-179). */
module Objects {
  import opened Types
  import opened Text
  import KeyLists

  datatype StoredObject = StoredObject(body: seq<byte>, etag: string, modifiedMs: int)

  /** What a put answers: the tag the store gave the object, and its size. */
  datatype PutResult = PutResult(etag: string, size: nat)

  type Bucket = map<string, StoredObject>

  datatype ObjectInfo = ObjectInfo(key: string, size: nat, modifiedMs: int)

  datatype Page = Page(objects: seq<ObjectInfo>, nextToken: string)

  const PAGE_SIZE := 1000

  /** A ranged get: the part of the range that lies inside the object. */
  function GetRange(bucket: Bucket, key: string, offset: u64, length: u64): Result<seq<byte>> {
    if key !in bucket then Err(NotFound(key)) else
    var body := bucket[key].body;
    if offset > |body| then Ok([])
    else Ok(body[offset..if offset + length < |body| then offset + length else |body|])
  }

  function Info(bucket: Bucket, key: string): ObjectInfo
    requires key in bucket
  {
    ObjectInfo(key, |bucket[key].body|, bucket[key].modifiedMs)
  }

  /** The keys a listing that continues after a token still has to show. */
  predicate Pending(bucket: Bucket, prefix: string, token: string, key: string) {
    key in bucket && prefix <= key && Less(token, key)
  }

  class ObjectStore {
    var objects: Bucket
    /** Objects whose deletion the store refuses. */
    const undeletable: set<string>

    constructor (objects: Bucket, undeletable: set<string>)
      ensures this.objects == objects && this.undeletable == undeletable
    {
      this.objects, this.undeletable := objects, undeletable;
    }

    /** A put may fail before the object is stored, or after; the tag is the store's choice. */
    method PutObject(key: string, body: seq<byte>, etag: string, now: int, delivery: Delivery)
      returns (result: Result<PutResult>)
      modifies this
      ensures result == if delivery.Answered? then Ok(PutResult(etag, |body|)) else Err(Unavailable)
      ensures objects == if delivery.Dropped? then old(objects)
                         else old(objects)[key := StoredObject(body, etag, now)]
    {
      if !delivery.Dropped? {
        objects := objects[key := StoredObject(body, etag, now)];
      }
      return if delivery.Answered? then Ok(PutResult(etag, |body|)) else Err(Unavailable);
    }

    method DeleteObject(key: string) returns (result: Result<()>)
      modifies this
      ensures result.Err? <==> key in undeletable
      ensures objects == if key in undeletable then old(objects) else old(objects) - {key}
    {
      if key in undeletable {
        return Err(Unavailable);
      }
      objects := objects - {key};
      return Ok(());
    }

    /** One page: the first keys after the token, in order, and where to go on. */
    method ListObjects(prefix: string, token: string) returns (page: Page)
      ensures forall i :: 0 <= i < |page.objects| ==>
                && Pending(objects, prefix, token, page.objects[i].key)
                && page.objects[i] == Info(objects, page.objects[i].key)
      ensures forall i, j :: 0 <= i < j < |page.objects| ==> Less(page.objects[i].key, page.objects[j].key)
      ensures page.nextToken != "" ==> page.objects != [] && page.nextToken == page.objects[|page.objects| - 1].key
      ensures forall key :: Pending(objects, prefix, token, key) ==>
                (page.nextToken != "" && Less(page.nextToken, key)) ||
                exists i :: 0 <= i < |page.objects| && page.objects[i].key == key
    {
      var found: seq<string> := [];
      var rest := objects.Keys;
      while rest != {}
        invariant rest <= objects.Keys
        invariant forall key :: key in found <==> Pending(objects, prefix, token, key) && key !in rest
      {
        var key :| key in rest;
        if prefix <= key && Less(token, key) {
          found := found + [key];
        }
        rest := rest - {key};
      }
      var keys := KeyLists.SortUnique(found);
      var count := if |keys| <= PAGE_SIZE then |keys| else PAGE_SIZE;
      var infos: seq<ObjectInfo> := [];
      for i := 0 to count
        invariant |infos| == i
        invariant forall j :: 0 <= j < i ==> keys[j] in objects && infos[j] == Info(objects, keys[j])
      {
        assert keys[i] in found;
        infos := infos + [Info(objects, keys[i])];
      }
      assert forall i :: 0 <= i < count ==> keys[i] in found;
      page := Page(infos, if count < |keys| then keys[count - 1] else "");
      forall key | Pending(objects, prefix, token, key)
        ensures (page.nextToken != "" && Less(page.nextToken, key)) ||
                exists i :: 0 <= i < |page.objects| && page.objects[i].key == key
      {
        assert key in found;
        var i :| 0 <= i < |keys| && keys[i] == key;
        if i < count {
          assert page.objects[i].key == key;
        } else {
          assert Less(keys[count - 1], keys[i]);
          assert keys[count - 1] in found;
          assert Less(token, keys[count - 1]);
        }
      }
    }
  }
}
