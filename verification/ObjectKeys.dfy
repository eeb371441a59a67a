/** The names of stored objects (src/fuse/file_io.cc:66-80) and the prefix the collector scans
    (src/gc_service.cc:18-23). */
module ObjectKeys {
  import opened Types
  import opened Text

  /** The collector's scan prefix. */
  function ChunkPrefix(objectPrefix: string): string {
    if objectPrefix == "" then "chunks/" else objectPrefix + "/chunks/"
  }

  function ObjectKey(objectPrefix: string, inodeId: u64, writer: string, sequence: u64, offset: u64): string {
    (if objectPrefix == "" then "" else objectPrefix + "/") +
    "chunks/" + Decimal(inodeId) + "/" + writer + "/" + Decimal(sequence) + "/" + Decimal(offset)
  }

  /** The part of a key behind the scan prefix. */
  function KeyTail(inodeId: u64, writer: string, sequence: u64, offset: u64): string {
    Decimal(inodeId) + "/" + (writer + "/" + (Decimal(sequence) + "/" + Decimal(offset)))
  }

  /** Every generated key lies under the prefix the collector scans. */
  lemma KeyUnderPrefix(objectPrefix: string, inodeId: u64, writer: string, sequence: u64, offset: u64)
    ensures ObjectKey(objectPrefix, inodeId, writer, sequence, offset) ==
            ChunkPrefix(objectPrefix) + KeyTail(inodeId, writer, sequence, offset)
    ensures ChunkPrefix(objectPrefix) <= ObjectKey(objectPrefix, inodeId, writer, sequence, offset)
    ensures ObjectKey(objectPrefix, inodeId, writer, sequence, offset) != ""
  {
    hide Decimal;
    var c, i, q, o := ChunkPrefix(objectPrefix), Decimal(inodeId), Decimal(sequence), Decimal(offset);
    Glue(objectPrefix, "", "chunks/");
    assert "" + "/" == "/" && "/" + "chunks/" == "/chunks/" && "" + "chunks/" == "chunks/";
    assert (if objectPrefix == "" then "" else objectPrefix + "/") + "chunks/" == c;
    hide ChunkPrefix;
    Glue(c + i + "/" + writer + "/", q, o);
    Glue(c + i + "/", writer, q + "/" + o);
    Glue(c, i, writer + "/" + (q + "/" + o));
  }

  lemma Glue(x: string, a: string, t: string)
    ensures x + a + "/" + t == x + (a + "/" + t)
  {
  }

  /** With slash-free writer ids, a key determines everything it was made from. */
  lemma ObjectKeyInjective(
      objectPrefix: string, i: u64, w: string, q: u64, o: u64, i': u64, w': string, q': u64, o': u64)
    requires '/' !in w && '/' !in w'
    requires ObjectKey(objectPrefix, i, w, q, o) == ObjectKey(objectPrefix, i', w', q', o')
    ensures i == i' && w == w' && q == q' && o == o'
  {
    KeyUnderPrefix(objectPrefix, i, w, q, o);
    KeyUnderPrefix(objectPrefix, i', w', q', o');
    var n := |ChunkPrefix(objectPrefix)|;
    assert KeyTail(i, w, q, o) == ObjectKey(objectPrefix, i, w, q, o)[n..] == KeyTail(i', w', q', o');
    SlashSplit(Decimal(i), w + "/" + (Decimal(q) + "/" + Decimal(o)),
               Decimal(i'), w' + "/" + (Decimal(q') + "/" + Decimal(o')));
    SlashSplit(w, Decimal(q) + "/" + Decimal(o), w', Decimal(q') + "/" + Decimal(o'));
    SlashSplit(Decimal(q), Decimal(o), Decimal(q'), Decimal(o'));
    DecimalInjective(i, i');
    DecimalInjective(q, q');
    DecimalInjective(o, o');
  }

  /** What one call asks for; the writer id and the sequence number are the generator's. */
  datatype KeyRequest = KeyRequest(inodeId: u64, offset: u64)

  /** The keys a generator hands out for a list of requests, starting at a sequence number. */
  function KeysFrom(objectPrefix: string, writer: string, first: nat, requests: seq<KeyRequest>): (keys: seq<string>)
    requires first + |requests| <= TWO_64
    ensures |keys| == |requests|
    ensures forall i :: 0 <= i < |keys| ==>
              keys[i] == ObjectKey(objectPrefix, requests[i].inodeId, writer, first + i, requests[i].offset)
  {
    if requests == [] then []
    else KeysFrom(objectPrefix, writer, first, requests[..|requests| - 1]) +
         [ObjectKey(objectPrefix, requests[|requests| - 1].inodeId, writer, first + |requests| - 1,
                    requests[|requests| - 1].offset)]
  }

  /** All keys of one generator are distinct, and two generators never share a key. */
  lemma GeneratedKeysNeverCollide(
      objectPrefix: string, w: string, w': string, first: nat, first': nat,
      requests: seq<KeyRequest>, requests': seq<KeyRequest>)
    requires first + |requests| <= TWO_64 && first' + |requests'| <= TWO_64
    requires '/' !in w && '/' !in w'
    ensures var keys := KeysFrom(objectPrefix, w, first, requests);
            forall i, j :: 0 <= i < j < |keys| ==> keys[i] != keys[j]
    ensures var keys, keys' := KeysFrom(objectPrefix, w, first, requests), KeysFrom(objectPrefix, w', first', requests');
            w != w' ==> forall i, j :: 0 <= i < |keys| && 0 <= j < |keys'| ==> keys[i] != keys'[j]
  {
    forall i, j | 0 <= i < j < |requests|
      ensures KeysFrom(objectPrefix, w, first, requests)[i] != KeysFrom(objectPrefix, w, first, requests)[j]
    {
      HandedOutApart(objectPrefix, w, w, first, first, requests, requests, i, j);
    }
    if w != w' {
      forall i, j | 0 <= i < |requests| && 0 <= j < |requests'|
        ensures KeysFrom(objectPrefix, w, first, requests)[i] != KeysFrom(objectPrefix, w', first', requests')[j]
      {
        HandedOutApart(objectPrefix, w, w', first, first', requests, requests', i, j);
      }
    }
    hide KeysFrom;
  }

  lemma HandedOutApart(
      objectPrefix: string, w: string, w': string, first: nat, first': nat,
      requests: seq<KeyRequest>, requests': seq<KeyRequest>, i: nat, j: nat)
    requires first + |requests| <= TWO_64 && first' + |requests'| <= TWO_64
    requires '/' !in w && '/' !in w' && i < |requests| && j < |requests'|
    requires w != w' || first + i != first' + j
    ensures KeysFrom(objectPrefix, w, first, requests)[i] != KeysFrom(objectPrefix, w', first', requests')[j]
  {
    hide ObjectKey;
    var keys, keys' := KeysFrom(objectPrefix, w, first, requests), KeysFrom(objectPrefix, w', first', requests');
    hide KeysFrom;
    if keys[i] == keys'[j] {
      ObjectKeyInjective(objectPrefix, requests[i].inodeId, w, first + i, requests[i].offset,
                         requests'[j].inodeId, w', first' + j, requests'[j].offset);
    }
  }

  class ObjectKeyGenerator {
    const writerId: string
    var nextSequence: u64

    constructor (writerId: string)
      ensures this.writerId == writerId && nextSequence == 1
    {
      this.writerId := writerId;
      nextSequence := 1;
    }

    method MakeObjectKey(objectPrefix: string, inodeId: u64, offset: u64) returns (key: string)
      modifies this
      ensures key == ObjectKey(objectPrefix, inodeId, writerId, old(nextSequence), offset)
      ensures nextSequence == Add64(old(nextSequence), 1)
    {
      key := "";
      if objectPrefix != "" {
        key := objectPrefix + "/";
      }
      key := key + "chunks/" + Decimal(inodeId) + "/" + writerId + "/" + Decimal(nextSequence) + "/" + Decimal(offset);
      nextSequence := Add64(nextSequence, 1);
    }
  }
}
