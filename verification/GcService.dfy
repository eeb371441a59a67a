/** One collector run as the program performs it: page by page, object by object
    (src/gc_service.cc:44-138), on a bucket nobody else changes meanwhile. What other processes may
    do in between is GcProtocol.dfy. */
module Collecting {
  import opened Types
  import opened Text
  import opened ObjectKeys
  import opened Objects
  import opened MetaSpec
  import opened GcProtocol

  datatype Counters = Counters(scanned: nat, live: nat, skippedYoung: nat, deleted: nat, deleteFailed: nat)

  /** The objects a run would like to delete. */
  predicate Orphan(bucket: Bucket, prefix: string, live: set<string>, cutoff: int, key: string) {
    key in bucket && prefix <= key && key != "" && Doomed(live, cutoff, Info(bucket, key))
  }

  /** The bucket once every orphan up to a key, and no other object, has been deleted. */
  function Swept(
      bucket: Bucket, prefix: string, live: set<string>, cutoff: int, kept: set<string>, upTo: string): Bucket
  {
    map key | key in bucket &&
              !(Orphan(bucket, prefix, live, cutoff, key) && key !in kept && !Less(upTo, key)) :: bucket[key]
  }

  /** The bucket after a complete sweep. */
  function SweptAll(bucket: Bucket, prefix: string, live: set<string>, cutoff: int, kept: set<string>): Bucket {
    map key | key in bucket && !(Orphan(bucket, prefix, live, cutoff, key) && key !in kept) :: bucket[key]
  }

  /** The sweep was done up to some key. */
  ghost predicate PartlySwept(
      before: Bucket, after: Bucket, prefix: string, live: set<string>, cutoff: int, kept: set<string>)
  {
    exists upTo :: Swept(before, prefix, live, cutoff, kept, upTo) == after
  }

  /** The keys behind a token. */
  ghost function Ahead(bucket: Bucket, token: string): set<string> {
    set key | key in bucket && Less(token, key)
  }

  /** What becomes of one listed object. */
  datatype Fate = InUse | Young | Removed | Refused

  const ALL_FATES := {InUse, Young, Removed, Refused}

  /** What a run decides by; a dry run counts every orphan as deleted. */
  datatype Rules = Rules(live: set<string>, cutoff: int, dryRun: bool, undeletable: set<string>) {
    function FateOf(info: ObjectInfo): Fate {
      if info.key in live then InUse
      else if info.modifiedMs > cutoff then Young
      else if !dryRun && info.key in undeletable then Refused
      else Removed
    }
  }

  /** The keys under the prefix with one of some fates. */
  function KeysOf(bucket: Bucket, prefix: string, rules: Rules, fates: set<Fate>): set<string> {
    set key | key in bucket && prefix <= key && key != "" && rules.FateOf(Info(bucket, key)) in fates
  }

  /** The counters as they must be after a complete run: how many objects met each fate. */
  function Census(bucket: Bucket, prefix: string, rules: Rules): Counters {
    Counters(|KeysOf(bucket, prefix, rules, ALL_FATES)|, |KeysOf(bucket, prefix, rules, {InUse})|,
             |KeysOf(bucket, prefix, rules, {Young})|, |KeysOf(bucket, prefix, rules, {Removed})|,
             |KeysOf(bucket, prefix, rules, {Refused})|)
  }

  class GcService {
    const objectPrefix: string
    const graceMs: int
    const dryRun: bool

    constructor (objectPrefix: string, graceMs: int, dryRun: bool)
      ensures this.objectPrefix == objectPrefix && this.graceMs == graceMs && this.dryRun == dryRun
    {
      this.objectPrefix, this.graceMs, this.dryRun := objectPrefix, graceMs, dryRun;
    }

    /** The keys whose deletion does not happen: all of them in a dry run. */
    ghost function Kept(store: ObjectStore): set<string>
      reads store
    {
      if dryRun then store.objects.Keys else store.undeletable
    }

    /** One page: every listed object is counted by its fate, and exactly the orphans among them go. */
    method SweepPage(store: ObjectStore, live: set<string>, cutoff: int, page: Page, counters: Counters)
      returns (after: Counters)
      requires forall i :: 0 <= i < |page.objects| ==>
                 page.objects[i].key in store.objects && page.objects[i] == Info(store.objects, page.objects[i].key)
      requires InKeyOrder(page.objects)
      modifies store
      ensures store.objects == Remaining(old(store.objects), dryRun, store.undeletable, live, cutoff, page.objects)
      ensures after == Plus(counters, Tally(Rules(live, cutoff, dryRun, store.undeletable), page.objects))
    {
      hide Progress, InKeyOrder, Tally, Remaining, Less, Info;
      after := counters;
      ghost var before, rules := store.objects, Rules(live, cutoff, dryRun, store.undeletable);
      NothingTallied(before, rules, counters, page.objects);
      for i := 0 to |page.objects|
        invariant Progress(before, rules, counters, page.objects[..i], store.objects, after)
      {
        var info := page.objects[i];
        ProgressNext(before, rules, counters, page.objects, i, store.objects, after);
        after := after.(scanned := after.scanned + 1);
        if info.key in live {
          after := after.(live := after.live + 1);
          continue;
        }
        if info.modifiedMs > cutoff {
          after := after.(skippedYoung := after.skippedYoung + 1);
          continue;
        }
        if dryRun {
          after := after.(deleted := after.deleted + 1);
          continue;
        }
        var result := store.DeleteObject(info.key);
        if result.Err? {
          after := after.(deleteFailed := after.deleteFailed + 1);
          continue;
        }
        after := after.(deleted := after.deleted + 1);
      }
      assert page.objects[..|page.objects|] == page.objects;
      PageDone(before, rules, counters, page.objects, store.objects, after);
    }

    /** A run deletes exactly the orphans under its prefix: objects not listed live and not younger
        than the cutoff. Its counters say how many objects met each fate, and it returns 0 exactly
        when no deletion failed. A failed live list changes nothing, and a failed page listing leaves
        the sweep done up to some key. Whatever protocol world it starts its sweep in, all it does is
        list pages and delete listed objects as the protocol allows. */
    method RunOnce(
        store: ObjectStore, liveList: Result<seq<string>>, nowMs: int, goodLists: nat,
        ghost cfg: Config, ghost w: World, ghost id: nat)
      returns (code: int, counters: Counters, finished: bool)
      modifies store
      ensures liveList.Ok? &&
              AtSweep(w, id, (set key | key in liveList.value), nowMs - graceMs, old(store.objects)) ==>
                SweepsTo(cfg, w, id, (set key | key in liveList.value), nowMs - graceMs, store.objects)
      ensures liveList.Err? ==> code == -1 && !finished && store.objects == old(store.objects)
      ensures finished ==>
                && liveList.Ok?
                && store.objects == SweptAll(old(store.objects), ChunkPrefix(objectPrefix),
                                             (set key | key in liveList.value), nowMs - graceMs, old(Kept(store)))
                && counters == Census(old(store.objects), ChunkPrefix(objectPrefix),
                                      Rules((set key | key in liveList.value), nowMs - graceMs, dryRun,
                                            store.undeletable))
                && (code == 0 || code == -1)
                && (code == 0 <==> NoFailures(old(store.objects), ChunkPrefix(objectPrefix),
                                              (set key | key in liveList.value), nowMs - graceMs, dryRun,
                                              store.undeletable))
      ensures liveList.Ok? && !finished ==>
                code == -1 &&
                PartlySwept(old(store.objects), store.objects, ChunkPrefix(objectPrefix),
                            (set key | key in liveList.value), nowMs - graceMs, old(Kept(store)))
    {
      hide CensusUpTo, Census, Swept, SweptAll, KeysOf, KeysUpTo, KeysListed, Tally, Plus, Less, Remaining, Orphan,
           NoFailures, Info, AtSweep, SweepsTo;
      counters := Counters(0, 0, 0, 0, 0);
      finished := false;
      if liveList.Err? {
        return -1, counters, false;
      }
      var live := set key | key in liveList.value;
      var cutoff := nowMs - graceMs;
      var prefix := ChunkPrefix(objectPrefix);
      var token := "";
      var lists := 0;
      ghost var before, kept := store.objects, Kept(store);
      ghost var rules := Rules(live, cutoff, dryRun, store.undeletable);
      NothingSweptYet(before, prefix, live, cutoff, kept);
      NothingCountedYet(before, prefix, rules);
      if AtSweep(w, id, live, cutoff, before) {
        NothingDoneYet(cfg, w, id, live, cutoff, before);
      }
      while true
        invariant store.objects == Swept(before, prefix, live, cutoff, kept, token)
        invariant counters == CensusUpTo(before, prefix, rules, token)
        invariant AtSweep(w, id, live, cutoff, before) ==> SweepsTo(cfg, w, id, live, cutoff, store.objects)
        decreases |Ahead(before, token)|
      {
        if lists == goodLists {
          return -1, counters, false;
        }
        lists := lists + 1;
        var page := store.ListObjects(prefix, token);
        ghost var start := store.objects;
        assert PageOf(start, prefix, token, page);
        PageCensus(before, prefix, rules, kept, token, page, start);
        counters := SweepPage(store, live, cutoff, page, counters);
        if AtSweep(w, id, live, cutoff, before) {
          PageIsEvents(cfg, w, id, live, cutoff, start, page.objects, dryRun, store.undeletable);
        }
        PageSwept(before, prefix, live, cutoff, kept, token, page, start, dryRun, store.undeletable);
        if page.nextToken == "" {
          break;
        }
        TokenAdvances(before, prefix, token, page, start);
        token := page.nextToken;
      }
      CleanCensus(before, prefix, rules);
      code := if counters.deleteFailed == 0 then 0 else -1;
      finished := true;
    }
  }

  // ---------- facts about sweeps ----------

  predicate Listed(infos: seq<ObjectInfo>, key: string) {
    exists i :: 0 <= i < |infos| && infos[i].key == key
  }

  /** An orphan the store refuses to delete. */
  predicate Failing(
      bucket: Bucket, prefix: string, live: set<string>, cutoff: int, dryRun: bool, undeletable: set<string>, key: string)
  {
    Orphan(bucket, prefix, live, cutoff, key) && !dryRun && key in undeletable
  }

  /** The bucket after the listed objects were looked at. */
  function Remaining(
      bucket: Bucket, dryRun: bool, undeletable: set<string>, live: set<string>, cutoff: int, infos: seq<ObjectInfo>)
      : Bucket
  {
    map key | key in bucket &&
              !(!dryRun && key !in undeletable && Listed(infos, key) && Doomed(live, cutoff, Info(bucket, key))) ::
      bucket[key]
  }

  lemma RemainingNext(
      bucket: Bucket, dryRun: bool, undeletable: set<string>, live: set<string>, cutoff: int,
      infos: seq<ObjectInfo>, i: nat)
    requires i < |infos| && infos[i].key in bucket && infos[i] == Info(bucket, infos[i].key)
    ensures Remaining(bucket, dryRun, undeletable, live, cutoff, infos[..i + 1]) ==
            if !dryRun && infos[i].key !in undeletable && Doomed(live, cutoff, infos[i])
            then Remaining(bucket, dryRun, undeletable, live, cutoff, infos[..i]) - {infos[i].key}
            else Remaining(bucket, dryRun, undeletable, live, cutoff, infos[..i])
    ensures Remaining(bucket, dryRun, undeletable, live, cutoff, []) == bucket
  {
    forall key ensures Listed(infos[..i + 1], key) <==> Listed(infos[..i], key) || key == infos[i].key {
      if Listed(infos[..i], key) {
        var j :| 0 <= j < i && infos[..i][j].key == key;
        assert infos[..i + 1][j].key == key;
      }
      assert infos[..i + 1][i].key == infos[i].key;
      if Listed(infos[..i + 1], key) && key != infos[i].key {
        var j :| 0 <= j < |infos[..i + 1]| && infos[..i + 1][j].key == key;
        assert infos[..i][j].key == key;
      }
    }
    hide Listed;
  }

  lemma NothingSweptYet(bucket: Bucket, prefix: string, live: set<string>, cutoff: int, kept: set<string>)
    ensures Swept(bucket, prefix, live, cutoff, kept, "") == bucket
  {
  }

  /** What ListObjects promises about a page. */
  ghost predicate PageOf(bucket: Bucket, prefix: string, token: string, page: Page) {
    && (forall i :: 0 <= i < |page.objects| ==>
          && Pending(bucket, prefix, token, page.objects[i].key)
          && page.objects[i] == Info(bucket, page.objects[i].key))
    && (forall i, j :: 0 <= i < j < |page.objects| ==> Less(page.objects[i].key, page.objects[j].key))
    && (page.nextToken != "" ==> page.objects != [] && page.nextToken == page.objects[|page.objects| - 1].key)
    && (forall key :: Pending(bucket, prefix, token, key) ==>
          (page.nextToken != "" && Less(page.nextToken, key)) || Listed(page.objects, key))
  }

  /** Everything a page lists lies between its token and the next one. */
  lemma ListedInRange(bucket: Bucket, prefix: string, token: string, page: Page, key: string)
    requires PageOf(bucket, prefix, token, page) && Listed(page.objects, key)
    ensures Pending(bucket, prefix, token, key)
    ensures page.nextToken != "" ==> !Less(page.nextToken, key)
  {
    var i :| 0 <= i < |page.objects| && page.objects[i].key == key;
    if page.nextToken != "" {
      LessTotal(key, page.nextToken);
    }
  }

  /** The effect of one page on one key. */
  lemma PageSweptAt(
      before: Bucket, prefix: string, live: set<string>, cutoff: int, kept: set<string>, token: string,
      page: Page, start: Bucket, dryRun: bool, undeletable: set<string>, key: string)
    requires start == Swept(before, prefix, live, cutoff, kept, token) && key in before
    requires kept == if dryRun then before.Keys else undeletable
    requires PageOf(start, prefix, token, page)
    ensures key in Remaining(start, dryRun, undeletable, live, cutoff, page.objects) <==>
            !(Orphan(before, prefix, live, cutoff, key) && key !in kept &&
              (page.nextToken == "" || !Less(page.nextToken, key)))
  {
    if Listed(page.objects, key) {
      ListedInRange(start, prefix, token, page, key);
    } else if Less(token, key) {
      assert key in start;
    } else if page.nextToken != "" {
      assert Pending(start, prefix, token, page.nextToken);
      LessTotal(token, page.nextToken);
      if Less(page.nextToken, key) {
        LessTransitive(token, page.nextToken, key);
      }
    }
  }

  lemma PageSwept(
      before: Bucket, prefix: string, live: set<string>, cutoff: int, kept: set<string>, token: string,
      page: Page, start: Bucket, dryRun: bool, undeletable: set<string>)
    requires start == Swept(before, prefix, live, cutoff, kept, token)
    requires kept == if dryRun then before.Keys else undeletable
    requires PageOf(start, prefix, token, page)
    ensures Remaining(start, dryRun, undeletable, live, cutoff, page.objects) ==
            if page.nextToken == "" then SweptAll(before, prefix, live, cutoff, kept)
            else Swept(before, prefix, live, cutoff, kept, page.nextToken)
    ensures start.Keys <= before.Keys
  {
    hide Less, Listed, Orphan, PageOf, Doomed;
    forall key | key in before
      ensures key in Remaining(start, dryRun, undeletable, live, cutoff, page.objects) <==>
              !(Orphan(before, prefix, live, cutoff, key) && key !in kept &&
                (page.nextToken == "" || !Less(page.nextToken, key)))
    {
      PageSweptAt(before, prefix, live, cutoff, kept, token, page, start, dryRun, undeletable, key);
    }
  }

  /** A page that is not the last leaves fewer keys ahead. */
  lemma TokenAdvances(before: Bucket, prefix: string, token: string, page: Page, start: Bucket)
    requires PageOf(start, prefix, token, page) && page.nextToken != "" && start.Keys <= before.Keys
    ensures |Ahead(before, page.nextToken)| < |Ahead(before, token)|
  {
    var ahead, behind := Ahead(before, page.nextToken), Ahead(before, token);
    assert Pending(start, prefix, token, page.nextToken);
    forall key | key in ahead ensures key in behind {
      LessTransitive(token, page.nextToken, key);
    }
    LessTotal(page.nextToken, page.nextToken);
    assert page.nextToken in behind && page.nextToken !in ahead;
    SmallerSet(ahead, behind);
  }

  lemma SmallerSet(a: set<string>, b: set<string>)
    requires a < b
    ensures |a| < |b|
  {
    assert b == a + (b - a) && b - a != {};
  }

  ghost predicate NoFailures(
      bucket: Bucket, prefix: string, live: set<string>, cutoff: int, dryRun: bool, undeletable: set<string>)
  {
    forall key :: key in bucket ==> !Failing(bucket, prefix, live, cutoff, dryRun, undeletable, key)
  }

  // ---------- the sweep as events of the protocol ----------

  /** Collector `id` of a protocol world sweeps a bucket with a live list and a cutoff. */
  ghost predicate AtSweep(w: World, id: nat, live: set<string>, cutoff: int, bucket: Bucket) {
    && Sane(w) && w.bucket == bucket
    && id in w.collectors && w.collectors[id].Sweeping?
    && w.collectors[id].live == live && w.collectors[id].cutoff == cutoff
  }

  ghost predicate SweepEvent(e: Event, id: nat) {
    (e.ListPage? || e.DeleteListed?) && e.id == id
  }

  /** Enabled listings and deletions of the collector, and nothing else, lead from w to the bucket. */
  ghost predicate Leads(
      cfg: Config, w: World, id: nat, events: seq<Event>, live: set<string>, cutoff: int, bucket: Bucket)
  {
    && Sane(w) && Possible(cfg, w, events) && (forall i :: 0 <= i < |events| ==> SweepEvent(events[i], id))
    && AtSweep(WorldAfter(cfg, w, events), id, live, cutoff, bucket)
    && WorldAfter(cfg, w, events).meta == w.meta
  }

  ghost predicate SweepsTo(cfg: Config, w: World, id: nat, live: set<string>, cutoff: int, bucket: Bucket) {
    exists events :: Leads(cfg, w, id, events, live, cutoff, bucket)
  }

  lemma NothingDoneYet(cfg: Config, w: World, id: nat, live: set<string>, cutoff: int, bucket: Bucket)
    requires AtSweep(w, id, live, cutoff, bucket)
    ensures SweepsTo(cfg, w, id, live, cutoff, bucket)
  {
    assert Leads(cfg, w, id, [], live, cutoff, bucket);
  }

  /** The page the collector looks at. */
  ghost predicate LooksAt(cfg: Config, w: World, id: nat, events: seq<Event>, infos: seq<ObjectInfo>) {
    && Sane(w) && Possible(cfg, w, events) && id in WorldAfter(cfg, w, events).collectors
    && WorldAfter(cfg, w, events).collectors[id].Sweeping?
    && WorldAfter(cfg, w, events).collectors[id].page == infos
  }

  /** The page is listed. */
  lemma PageListed(
      cfg: Config, w: World, id: nat, events: seq<Event>, live: set<string>, cutoff: int, bucket: Bucket,
      infos: seq<ObjectInfo>)
    requires Leads(cfg, w, id, events, live, cutoff, bucket)
    requires forall i :: 0 <= i < |infos| ==> infos[i].key in bucket && infos[i] == Info(bucket, infos[i].key)
    ensures Leads(cfg, w, id, events + [ListPage(id, infos)], live, cutoff, bucket)
    ensures LooksAt(cfg, w, id, events + [ListPage(id, infos)], infos)
  {
    hide Sane, Possible, WorldAfter, Info;
    Extend(cfg, w, events, ListPage(id, infos));
  }

  /** One listed object is deleted. */
  lemma ListedDeleted(
      cfg: Config, w: World, id: nat, events: seq<Event>, live: set<string>, cutoff: int, bucket: Bucket,
      infos: seq<ObjectInfo>, i: nat)
    requires Leads(cfg, w, id, events, live, cutoff, bucket) && LooksAt(cfg, w, id, events, infos)
    requires i < |infos| && Doomed(live, cutoff, infos[i])
    ensures Leads(cfg, w, id, events + [DeleteListed(id, i)], live, cutoff, bucket - {infos[i].key})
    ensures LooksAt(cfg, w, id, events + [DeleteListed(id, i)], infos)
  {
    hide Sane, Possible, WorldAfter, Doomed;
    Extend(cfg, w, events, DeleteListed(id, i));
  }

  /** What one page does to the bucket is one listing followed by deletions of listed objects. */
  lemma PageIsEvents(
      cfg: Config, w: World, id: nat, live: set<string>, cutoff: int, bucket: Bucket, infos: seq<ObjectInfo>,
      dryRun: bool, undeletable: set<string>)
    requires SweepsTo(cfg, w, id, live, cutoff, bucket)
    requires forall i :: 0 <= i < |infos| ==> infos[i].key in bucket && infos[i] == Info(bucket, infos[i].key)
    ensures SweepsTo(cfg, w, id, live, cutoff, Remaining(bucket, dryRun, undeletable, live, cutoff, infos))
  {
    hide Leads, LooksAt, Remaining, Doomed, Info, Listed;
    var events :| Leads(cfg, w, id, events, live, cutoff, bucket);
    PageListed(cfg, w, id, events, live, cutoff, bucket, infos);
    events := events + [ListPage(id, infos)];
    NothingRemoved(bucket, dryRun, undeletable, live, cutoff);
    assert infos[..0] == [];
    for i := 0 to |infos|
      invariant Leads(cfg, w, id, events, live, cutoff,
                      Remaining(bucket, dryRun, undeletable, live, cutoff, infos[..i]))
      invariant LooksAt(cfg, w, id, events, infos)
    {
      RemainingNext(bucket, dryRun, undeletable, live, cutoff, infos, i);
      if !dryRun && infos[i].key !in undeletable && Doomed(live, cutoff, infos[i]) {
        ListedDeleted(cfg, w, id, events, live, cutoff,
                      Remaining(bucket, dryRun, undeletable, live, cutoff, infos[..i]), infos, i);
        events := events + [DeleteListed(id, i)];
      }
    }
    assert infos[..|infos|] == infos;
  }

  lemma NothingRemoved(bucket: Bucket, dryRun: bool, undeletable: set<string>, live: set<string>, cutoff: int)
    ensures Remaining(bucket, dryRun, undeletable, live, cutoff, []) == bucket
  {
  }

  /** Reading the live list and fixing the cutoff bring a collector to its sweep. */
  lemma CollectorBegins(cfg: Config, w: World, id: nat, wait: nat) returns (events: seq<Event>)
    requires Sane(w) && id !in w.collectors && wait <= cfg.gap
    ensures events == [ReadLive(id), Tick(wait), FixCutoff(id)] && Possible(cfg, w, events)
    ensures AtSweep(WorldAfter(cfg, w, events), id, LiveSet(w.meta), w.clock + wait - cfg.grace, w.bucket)
    ensures WorldAfter(cfg, w, events).meta == w.meta
  {
    hide Sane, Possible, WorldAfter, LiveSet;
    NoEvents(cfg, w);
    Extend(cfg, w, [], ReadLive(id));
    Extend(cfg, w, [] + [ReadLive(id)], Tick(wait));
    Extend(cfg, w, [] + [ReadLive(id)] + [Tick(wait)], FixCutoff(id));
    events := [ReadLive(id), Tick(wait), FixCutoff(id)];
    assert events == [] + [ReadLive(id)] + [Tick(wait)] + [FixCutoff(id)];
  }

  lemma NoEvents(cfg: Config, w: World)
    requires Sane(w)
    ensures Possible(cfg, w, []) && WorldAfter(cfg, w, []) == w
  {
  }

  /** So the safety of the protocol is the safety of the run: started in a world that some
      interleaving led to, it leaves every object a layout refers to in the bucket. */
  lemma RunIsSafe(cfg: Config, w: World, id: nat, live: set<string>, cutoff: int, bucket: Bucket, key: string)
    requires Inv(cfg, w) && cfg.delay + cfg.gap < cfg.grace
    requires SweepsTo(cfg, w, id, live, cutoff, bucket) && Live(w.meta, key)
    ensures key in bucket
  {
    hide Inv, Live, Possible, WorldAfter, Sane;
    var events :| Leads(cfg, w, id, events, live, cutoff, bucket);
    EveryInterleavingKeeps(cfg, w, events);
    StoredIfLive(cfg, WorldAfter(cfg, w, events), key);
  }

  lemma StoredIfLive(cfg: Config, w: World, key: string)
    requires Inv(cfg, w) && Live(w.meta, key)
    ensures key in w.bucket
  {
  }

  // ---------- what the counters count ----------

  /** Some listed objects are counted, and the orphans among them gone. */
  predicate Progress(
      before: Bucket, rules: Rules, counters: Counters, infos: seq<ObjectInfo>, bucket: Bucket, after: Counters)
  {
    && bucket == Remaining(before, rules.dryRun, rules.undeletable, rules.live, rules.cutoff, infos)
    && after == Plus(counters, Tally(rules, infos))
  }

  lemma NothingTallied(before: Bucket, rules: Rules, counters: Counters, infos: seq<ObjectInfo>)
    ensures Progress(before, rules, counters, infos[..0], before, counters)
  {
    assert infos[..0] == [];
    assert Tally(rules, []) == Counters(0, 0, 0, 0, 0);
  }

  lemma PageDone(
      before: Bucket, rules: Rules, counters: Counters, infos: seq<ObjectInfo>, bucket: Bucket, after: Counters)
    requires Progress(before, rules, counters, infos, bucket, after)
    ensures bucket == Remaining(before, rules.dryRun, rules.undeletable, rules.live, rules.cutoff, infos)
    ensures after == Plus(counters, Tally(rules, infos))
  {
  }

  /** What the next object's fate does to the bucket and the counters. */
  lemma ProgressNext(
      before: Bucket, rules: Rules, counters: Counters, infos: seq<ObjectInfo>, i: nat, bucket: Bucket,
      after: Counters)
    requires InKeyOrder(infos) && i < |infos| && infos[i].key in before && infos[i] == Info(before, infos[i].key)
    requires Progress(before, rules, counters, infos[..i], bucket, after)
    ensures Progress(before, rules, counters, infos[..i + 1],
                     if rules.FateOf(infos[i]) == Removed && !rules.dryRun then bucket - {infos[i].key} else bucket,
                     Plus(after, One(rules.FateOf(infos[i]))))
  {
    hide Remaining, Tally, InKeyOrder, Less, Listed, Info;
    RemainingNext(before, rules.dryRun, rules.undeletable, rules.live, rules.cutoff, infos, i);
    TallyNext(rules, infos, i);
    var fate := rules.FateOf(infos[i]);
    PlusAssociates(counters, Tally(rules, infos[..i]), One(fate));
    assert fate == Removed && !rules.dryRun <==>
           !rules.dryRun && infos[i].key !in rules.undeletable && Doomed(rules.live, rules.cutoff, infos[i]);
    hide Plus, One, Rules.FateOf, Doomed;
  }

  /** Counting one object. */
  function One(fate: Fate): Counters {
    match fate
    case InUse => Counters(1, 1, 0, 0, 0)
    case Young => Counters(1, 0, 1, 0, 0)
    case Removed => Counters(1, 0, 0, 1, 0)
    case Refused => Counters(1, 0, 0, 0, 1)
  }

  function Plus(a: Counters, b: Counters): Counters {
    Counters(a.scanned + b.scanned, a.live + b.live, a.skippedYoung + b.skippedYoung, a.deleted + b.deleted,
             a.deleteFailed + b.deleteFailed)
  }

  lemma NothingCountedYet(bucket: Bucket, prefix: string, rules: Rules)
    ensures CensusUpTo(bucket, prefix, rules, "") == Counters(0, 0, 0, 0, 0)
  {
    forall fates ensures KeysUpTo(bucket, prefix, rules, fates, "") == {} {
    }
  }

  lemma PlusAssociates(a: Counters, b: Counters, c: Counters)
    ensures Plus(a, Plus(b, c)) == Plus(Plus(a, b), c)
  {
  }

  /** The listed keys with one of some fates. */
  function KeysListed(rules: Rules, fates: set<Fate>, infos: seq<ObjectInfo>): set<string> {
    set i | 0 <= i < |infos| && rules.FateOf(infos[i]) in fates :: infos[i].key
  }

  function Tally(rules: Rules, infos: seq<ObjectInfo>): Counters {
    Counters(|KeysListed(rules, ALL_FATES, infos)|, |KeysListed(rules, {InUse}, infos)|,
             |KeysListed(rules, {Young}, infos)|, |KeysListed(rules, {Removed}, infos)|,
             |KeysListed(rules, {Refused}, infos)|)
  }

  /** The keys up to a token with one of some fates. */
  function KeysUpTo(bucket: Bucket, prefix: string, rules: Rules, fates: set<Fate>, upTo: string): set<string> {
    set key | key in KeysOf(bucket, prefix, rules, fates) && !Less(upTo, key)
  }

  function CensusUpTo(bucket: Bucket, prefix: string, rules: Rules, upTo: string): Counters {
    Counters(|KeysUpTo(bucket, prefix, rules, ALL_FATES, upTo)|, |KeysUpTo(bucket, prefix, rules, {InUse}, upTo)|,
             |KeysUpTo(bucket, prefix, rules, {Young}, upTo)|, |KeysUpTo(bucket, prefix, rules, {Removed}, upTo)|,
             |KeysUpTo(bucket, prefix, rules, {Refused}, upTo)|)
  }

  predicate InKeyOrder(infos: seq<ObjectInfo>) {
    forall i, j :: 0 <= i < j < |infos| ==> Less(infos[i].key, infos[j].key)
  }

  lemma KeysListedNext(rules: Rules, fates: set<Fate>, infos: seq<ObjectInfo>, i: nat)
    requires InKeyOrder(infos) && i < |infos|
    ensures |KeysListed(rules, fates, infos[..i + 1])| ==
            |KeysListed(rules, fates, infos[..i])| + if rules.FateOf(infos[i]) in fates then 1 else 0
  {
    var was, now, key := KeysListed(rules, fates, infos[..i]), KeysListed(rules, fates, infos[..i + 1]), infos[i].key;
    LessTotal(key, key);
    assert key !in was;
    assert infos[..i + 1][i] == infos[i];
    forall k | k in was ensures k in now {
      var j :| 0 <= j < i && rules.FateOf(infos[..i][j]) in fates && infos[..i][j].key == k;
      assert infos[..i + 1][j] == infos[..i][j];
    }
    forall k | k in now ensures k in was || (k == key && rules.FateOf(infos[i]) in fates) {
      var j :| 0 <= j < |infos[..i + 1]| && rules.FateOf(infos[..i + 1][j]) in fates && infos[..i + 1][j].key == k;
      assert j < i ==> infos[..i][j] == infos[..i + 1][j];
    }
    assert now == if rules.FateOf(infos[i]) in fates then was + {key} else was;
  }

  lemma TallyNext(rules: Rules, infos: seq<ObjectInfo>, i: nat)
    requires InKeyOrder(infos) && i < |infos|
    ensures Tally(rules, infos[..i + 1]) == Plus(Tally(rules, infos[..i]), One(rules.FateOf(infos[i])))
  {
    KeysListedNext(rules, ALL_FATES, infos, i);
    KeysListedNext(rules, {InUse}, infos, i);
    KeysListedNext(rules, {Young}, infos, i);
    KeysListedNext(rules, {Removed}, infos, i);
    KeysListedNext(rules, {Refused}, infos, i);
    hide KeysListed, InKeyOrder;
  }

  /** The keys a page lists are those between its token and the next one. */
  lemma PageKeys(
      before: Bucket, prefix: string, rules: Rules, fates: set<Fate>, kept: set<string>, token: string, page: Page,
      start: Bucket)
    requires start == Swept(before, prefix, rules.live, rules.cutoff, kept, token)
    requires PageOf(start, prefix, token, page)
    ensures |KeysUpTo(before, prefix, rules, fates, token)| + |KeysListed(rules, fates, page.objects)| ==
            if page.nextToken == "" then |KeysOf(before, prefix, rules, fates)|
            else |KeysUpTo(before, prefix, rules, fates, page.nextToken)|
  {
    var was, listed := KeysUpTo(before, prefix, rules, fates, token), KeysListed(rules, fates, page.objects);
    var now := if page.nextToken == "" then KeysOf(before, prefix, rules, fates)
               else KeysUpTo(before, prefix, rules, fates, page.nextToken);
    forall key ensures key in listed <==> key in now && key !in was {
      PageKeyAt(before, prefix, rules, fates, kept, token, page, start, key);
    }
    forall key | key in was ensures key in now {
      if page.nextToken != "" && Less(page.nextToken, key) {
        assert Pending(start, prefix, token, page.nextToken);
        LessTransitive(token, page.nextToken, key);
      }
    }
    assert was !! listed;
    assert was + listed == now;
  }

  lemma PageKeyAt(
      before: Bucket, prefix: string, rules: Rules, fates: set<Fate>, kept: set<string>, token: string, page: Page,
      start: Bucket, key: string)
    requires start == Swept(before, prefix, rules.live, rules.cutoff, kept, token)
    requires PageOf(start, prefix, token, page)
    ensures key in KeysListed(rules, fates, page.objects) <==>
            && key in KeysOf(before, prefix, rules, fates) && Less(token, key)
            && (page.nextToken == "" || !Less(page.nextToken, key))
  {
    if key in KeysListed(rules, fates, page.objects) {
      var i :| 0 <= i < |page.objects| && rules.FateOf(page.objects[i]) in fates && page.objects[i].key == key;
      assert Listed(page.objects, key);
      ListedInRange(start, prefix, token, page, key);
    } else if key in before && Less(token, key) && prefix <= key {
      assert Pending(start, prefix, token, key);
      if Listed(page.objects, key) {
        var i :| 0 <= i < |page.objects| && page.objects[i].key == key;
        assert page.objects[i] == Info(start, key) == Info(before, key);
      }
    }
  }

  lemma PageCensus(
      before: Bucket, prefix: string, rules: Rules, kept: set<string>, token: string, page: Page, start: Bucket)
    requires start == Swept(before, prefix, rules.live, rules.cutoff, kept, token)
    requires PageOf(start, prefix, token, page)
    ensures Plus(CensusUpTo(before, prefix, rules, token), Tally(rules, page.objects)) ==
            if page.nextToken == "" then Census(before, prefix, rules)
            else CensusUpTo(before, prefix, rules, page.nextToken)
  {
    PageKeys(before, prefix, rules, ALL_FATES, kept, token, page, start);
    PageKeys(before, prefix, rules, {InUse}, kept, token, page, start);
    PageKeys(before, prefix, rules, {Young}, kept, token, page, start);
    PageKeys(before, prefix, rules, {Removed}, kept, token, page, start);
    PageKeys(before, prefix, rules, {Refused}, kept, token, page, start);
    hide KeysOf, KeysUpTo, KeysListed, PageOf, Swept;
  }

  /** No deletion fails exactly when no orphan is one the store refuses to delete. */
  lemma CleanCensus(bucket: Bucket, prefix: string, rules: Rules)
    ensures Census(bucket, prefix, rules).deleteFailed == 0 <==>
            NoFailures(bucket, prefix, rules.live, rules.cutoff, rules.dryRun, rules.undeletable)
  {
    var refused := KeysOf(bucket, prefix, rules, {Refused});
    forall key | key in bucket
      ensures key in refused <==>
              Failing(bucket, prefix, rules.live, rules.cutoff, rules.dryRun, rules.undeletable, key)
    {
    }
    if |refused| > 0 {
      var key :| key in refused;
    }
  }
}
