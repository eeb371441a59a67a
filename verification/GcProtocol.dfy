/** Garbage collection against concurrent writers, as a state machine over every interleaving of
    writers, metadata commands, clock ticks and any number of collectors (src/gc_service.cc:57-130,
    src/fuse/fuse_server.cc:459-477, src/meta_state.cc:334-346). */
module GcProtocol {
  import opened Types
  import opened Extents
  import opened MetaSpec
  import opened MetaInvariant
  import opened MetaFiles
  import opened Runs
  import opened Objects

  /** Times in milliseconds: how long after its put an object may still be committed, how long after
      reading the live list a collector may take to fix its cutoff, and the grace period. */
  datatype Config = Config(delay: nat, gap: nat, grace: nat)

  /** Where a collector is. */
  datatype Collector =
    | HasLive(live: set<string>, at: int)
    | Sweeping(live: set<string>, cutoff: int, at: int, page: seq<ObjectInfo>)

  /** The metadata, the bucket, when each key was put, the clock, the running collectors, and which
      keys collectors have deleted. */
  datatype World = World(
    meta: State,
    bucket: Bucket,
    puts: map<string, int>,
    clock: int,
    collectors: map<nat, Collector>,
    deleted: set<string>)

  datatype Event =
    | PutObject(key: string, body: seq<byte>, etag: string)
    | Metadata(entry: LogEntry)
    | Tick(ms: nat)
    | ReadLive(id: nat)
    | FixCutoff(id: nat)
    | ListPage(id: nat, page: seq<ObjectInfo>)
    | DeleteListed(id: nat, index: nat)
    | EndRun(id: nat)

  /** The live list as a set. */
  ghost function LiveSet(s: State): (r: set<string>)
    ensures forall key :: key in r <==> Live(s, key)
  {
    set id, i | id in s.layouts && 0 <= i < |s.layouts[id].extents| && s.layouts[id].extents[i].objectKey != "" ::
      s.layouts[id].extents[i].objectKey
  }

  /** The decision of the sweep: an object that is not listed live and not younger than the cutoff. */
  predicate Doomed(live: set<string>, cutoff: int, info: ObjectInfo) {
    info.key !in live && info.modifiedMs <= cutoff
  }

  ghost predicate Sane(w: World) {
    Valid(w.meta) && NoDangling(w.meta)
  }

  /** What may happen next: keys are never reused, a command commits only objects put at most `delay`
      ago, a collector fixes its cutoff at most `gap` after reading the live list, and a page shows
      objects that are there. */
  ghost predicate Enabled(cfg: Config, w: World, e: Event) {
    match e
    case PutObject(key, _, _) => key !in w.puts
    case Metadata(entry) =>
      && w.meta.nextInodeId < MAX_64
      && (forall key :: key in CommandKeys(entry.command) ==> key in w.puts && w.clock <= w.puts[key] + cfg.delay)
    case Tick(_) => true
    case ReadLive(id) => id !in w.collectors
    case FixCutoff(id) =>
      id in w.collectors && w.collectors[id].HasLive? && w.clock <= w.collectors[id].at + cfg.gap
    case ListPage(id, page) =>
      && id in w.collectors && w.collectors[id].Sweeping?
      && (forall i :: 0 <= i < |page| ==> page[i].key in w.bucket && page[i] == Info(w.bucket, page[i].key))
    case DeleteListed(id, index) =>
      && id in w.collectors && w.collectors[id].Sweeping? && index < |w.collectors[id].page|
      && Doomed(w.collectors[id].live, w.collectors[id].cutoff, w.collectors[id].page[index])
    case EndRun(id) => id in w.collectors
  }

  ghost function After(cfg: Config, w: World, e: Event): (r: World)
    requires Sane(w) && Enabled(cfg, w, e)
    ensures Sane(r)
  {
    match e
    case PutObject(key, body, etag) =>
      w.(bucket := w.bucket[key := StoredObject(body, etag, w.clock)], puts := w.puts[key := w.clock])
    case Metadata(entry) => w.(meta := Next(w.meta, entry))
    case Tick(ms) => w.(clock := w.clock + ms)
    case ReadLive(id) => w.(collectors := w.collectors[id := HasLive(LiveSet(w.meta), w.clock)])
    case FixCutoff(id) =>
      var c := w.collectors[id];
      w.(collectors := w.collectors[id := Sweeping(c.live, w.clock - cfg.grace, c.at, [])])
    case ListPage(id, page) => w.(collectors := w.collectors[id := w.collectors[id].(page := page)])
    case DeleteListed(id, index) =>
      var key := w.collectors[id].page[index].key;
      w.(bucket := w.bucket - {key}, deleted := w.deleted + {key})
    case EndRun(id) => w.(collectors := w.collectors - {id})
  }

  /** A fresh server, an empty bucket and no collector. */
  function Start(chunkSize: u64, now: i64, clock: int): World {
    World(InitialState(chunkSize, now), map[], map[], clock, map[], {})
  }

  lemma StartIsSane(chunkSize: u64, now: i64, clock: int)
    ensures Sane(Start(chunkSize, now, clock))
  {
    InitialIsValid(chunkSize, now);
    ValidHasNoDangling(InitialState(chunkSize, now));
  }

  /** The interleavings: finite sequences of enabled events. */
  ghost predicate Possible(cfg: Config, w: World, events: seq<Event>)
    requires Sane(w)
    decreases |events|, 0
  {
    events == [] ||
    (Possible(cfg, w, events[..|events| - 1]) &&
     Enabled(cfg, WorldAfter(cfg, w, events[..|events| - 1]), events[|events| - 1]))
  }

  ghost function WorldAfter(cfg: Config, w: World, events: seq<Event>): (r: World)
    requires Sane(w) && Possible(cfg, w, events)
    ensures Sane(r)
    decreases |events|, 1
  {
    if events == [] then w
    else After(cfg, WorldAfter(cfg, w, events[..|events| - 1]), events[|events| - 1])
  }

  // ---------- safety ----------

  /** No layout refers to an object that is gone. */
  ghost predicate Safe(w: World) {
    forall key :: Live(w.meta, key) ==> key in w.bucket
  }

  /** A key that the live list does not show and whose commit window closed before the list was read
      is not live now either. */
  ghost predicate DeadForGood(cfg: Config, w: World, live: set<string>, at: int) {
    forall key :: key in w.puts && key !in live && w.puts[key] + cfg.delay < at ==> !Live(w.meta, key)
  }

  ghost predicate CollectorOk(cfg: Config, w: World, c: Collector) {
    && c.at <= w.clock && DeadForGood(cfg, w, c.live, c.at)
    && (c.Sweeping? ==>
          && c.cutoff <= c.at + cfg.gap - cfg.grace
          && forall i :: 0 <= i < |c.page| ==> c.page[i].key in w.puts && c.page[i].modifiedMs == w.puts[c.page[i].key])
  }

  ghost predicate StoreOk(w: World) {
    && (forall key :: key in w.bucket ==> key in w.puts && w.bucket[key].modifiedMs == w.puts[key])
    && (forall key :: key in w.puts ==> w.puts[key] <= w.clock && (key in w.bucket || key in w.deleted))
  }

  ghost predicate DeletedOk(cfg: Config, w: World) {
    forall key :: key in w.deleted ==>
      key in w.puts && w.puts[key] + cfg.delay < w.clock && !Live(w.meta, key)
  }

  ghost predicate Inv(cfg: Config, w: World) {
    && Safe(w) && StoreOk(w) && DeletedOk(cfg, w)
    && forall id :: id in w.collectors ==> CollectorOk(cfg, w, w.collectors[id])
  }

  lemma StartKeeps(cfg: Config, chunkSize: u64, now: i64, clock: int)
    ensures Inv(cfg, Start(chunkSize, now, clock))
  {
  }

  lemma PutKeeps(cfg: Config, w: World, e: Event)
    requires Sane(w) && Inv(cfg, w) && Enabled(cfg, w, e) && e.PutObject?
    ensures Inv(cfg, After(cfg, w, e))
  {
    hide Sane, Live;
    var w' := After(cfg, w, e);
    assert !Live(w.meta, e.key);
    forall id | id in w.collectors ensures CollectorOk(cfg, w', w.collectors[id]) {
      assert CollectorOk(cfg, w, w.collectors[id]);
    }
  }

  lemma MetadataLive(w: World, entry: LogEntry, key: string)
    requires Sane(w) && w.meta.nextInodeId < MAX_64 && Live(Next(w.meta, entry), key)
    ensures Live(w.meta, key) || key in CommandKeys(entry.command)
  {
    LiveOnlyGainsCommitted(w.meta, entry.command, entry.times, key);
  }

  lemma MetadataKeeps(cfg: Config, w: World, e: Event)
    requires Sane(w) && Inv(cfg, w) && Enabled(cfg, w, e) && e.Metadata?
    ensures Inv(cfg, After(cfg, w, e))
  {
    hide Sane, Live, Next, CommandKeys, Safe, StoreOk, DeletedOk, CollectorOk;
    var w' := After(cfg, w, e);
    forall key | Live(w'.meta, key) ensures Live(w.meta, key) || Committable(cfg, w, key) {
      MetadataLive(w, e.entry, key);
    }
    NewlyLiveIsStored(cfg, w, w');
    NewlyLiveIsNotDeleted(cfg, w, w');
    assert StoreOk(w') by {
      SameStore(w, w');
    }
    forall id | id in w.collectors ensures CollectorOk(cfg, w', w'.collectors[id]) {
      NewlyLiveIsRecent(cfg, w, w', w.collectors[id]);
    }
  }

  /** A key a command may carry now. */
  ghost predicate Committable(cfg: Config, w: World, key: string) {
    key in w.puts && w.clock <= w.puts[key] + cfg.delay
  }

  /** The world after a metadata step: only the metadata is new, and only committable keys got live. */
  ghost predicate OnlyMetadata(cfg: Config, w: World, w': World) {
    && w' == w.(meta := w'.meta)
    && forall key :: Live(w'.meta, key) ==> Live(w.meta, key) || Committable(cfg, w, key)
  }

  lemma SameStore(w: World, w': World)
    requires StoreOk(w) && w' == w.(meta := w'.meta)
    ensures StoreOk(w')
  {
  }

  lemma NewlyLiveIsStored(cfg: Config, w: World, w': World)
    requires Safe(w) && StoreOk(w) && DeletedOk(cfg, w) && OnlyMetadata(cfg, w, w')
    ensures Safe(w')
  {
    hide Live;
  }

  lemma NewlyLiveIsNotDeleted(cfg: Config, w: World, w': World)
    requires DeletedOk(cfg, w) && OnlyMetadata(cfg, w, w')
    ensures DeletedOk(cfg, w')
  {
    hide Live;
  }

  lemma NewlyLiveIsRecent(cfg: Config, w: World, w': World, c: Collector)
    requires CollectorOk(cfg, w, c) && OnlyMetadata(cfg, w, w')
    ensures CollectorOk(cfg, w', c)
  {
    hide Live;
  }

  lemma CollectorStepKeeps(cfg: Config, w: World, e: Event)
    requires Sane(w) && Inv(cfg, w) && Enabled(cfg, w, e)
    requires e.Tick? || e.ReadLive? || e.FixCutoff? || e.ListPage? || e.EndRun?
    ensures Inv(cfg, After(cfg, w, e))
  {
    hide Sane, Live, Doomed;
    var w' := After(cfg, w, e);
    forall id | id in w'.collectors ensures CollectorOk(cfg, w', w'.collectors[id]) {
      if id in w.collectors {
        assert CollectorOk(cfg, w, w.collectors[id]);
      }
    }
  }

  /** The one dangerous step: what is deleted had its commit window closed before the live list was
      read, so it is not live, and never will be. */
  lemma DeleteKeeps(cfg: Config, w: World, e: Event)
    requires Sane(w) && Inv(cfg, w) && Enabled(cfg, w, e) && e.DeleteListed?
    requires cfg.delay + cfg.gap < cfg.grace
    ensures Inv(cfg, After(cfg, w, e))
  {
    hide Sane, Live;
    var c := w.collectors[e.id];
    var key := c.page[e.index].key;
    assert CollectorOk(cfg, w, c);
    assert key in w.puts && w.puts[key] + cfg.delay < c.at && !Live(w.meta, key);
    var w' := After(cfg, w, e);
    forall id | id in w'.collectors ensures CollectorOk(cfg, w', w'.collectors[id]) {
      assert CollectorOk(cfg, w, w.collectors[id]);
    }
  }

  lemma {:induction false} EveryInterleavingKeeps(cfg: Config, w: World, events: seq<Event>)
    requires Sane(w) && Inv(cfg, w) && Possible(cfg, w, events)
    requires cfg.delay + cfg.gap < cfg.grace
    ensures Inv(cfg, WorldAfter(cfg, w, events))
  {
    hide Sane, Inv, Enabled, After;
    if events != [] {
      var e := events[|events| - 1];
      EveryInterleavingKeeps(cfg, w, events[..|events| - 1]);
      var before := WorldAfter(cfg, w, events[..|events| - 1]);
      match e {
        case PutObject(_, _, _) => PutKeeps(cfg, before, e);
        case Metadata(_) => MetadataKeeps(cfg, before, e);
        case DeleteListed(_, _) => DeleteKeeps(cfg, before, e);
        case _ => CollectorStepKeeps(cfg, before, e);
      }
    }
  }

  /** If the commit delay and the gap together stay below the grace period, then after every
      interleaving every live object is in the store, and an object some collector deleted is not
      live and no command that may follow commits it. */
  lemma GcIsSafe(cfg: Config, chunkSize: u64, now: i64, clock: int, events: seq<Event>)
    requires cfg.delay + cfg.gap < cfg.grace
    ensures Sane(Start(chunkSize, now, clock))
    ensures Possible(cfg, Start(chunkSize, now, clock), events) ==>
              var w := WorldAfter(cfg, Start(chunkSize, now, clock), events);
              && Safe(w)
              && (forall key :: key in w.deleted ==> !Live(w.meta, key))
              && (forall entry :: Enabled(cfg, w, Metadata(entry)) ==> CommandKeys(entry.command) !! w.deleted)
  {
    StartIsSane(chunkSize, now, clock);
    StartKeeps(cfg, chunkSize, now, clock);
    if Possible(cfg, Start(chunkSize, now, clock), events) {
      EveryInterleavingKeeps(cfg, Start(chunkSize, now, clock), events);
      DeletedStayDead(cfg, WorldAfter(cfg, Start(chunkSize, now, clock), events));
    }
    hide Sane, Inv, Safe, Live, CommandKeys, Enabled, Possible, WorldAfter;
  }

  lemma DeletedStayDead(cfg: Config, w: World)
    requires Inv(cfg, w)
    ensures Safe(w) && (forall key :: key in w.deleted ==> !Live(w.meta, key))
    ensures forall entry :: Enabled(cfg, w, Metadata(entry)) ==> CommandKeys(entry.command) !! w.deleted
  {
  }

  // ---------- the condition is exact ----------

  lemma Extend(cfg: Config, w: World, events: seq<Event>, e: Event)
    requires Sane(w) && Possible(cfg, w, events) && Enabled(cfg, WorldAfter(cfg, w, events), e)
    ensures Possible(cfg, w, events + [e])
    ensures WorldAfter(cfg, w, events + [e]) == After(cfg, WorldAfter(cfg, w, events), e)
  {
    assert (events + [e])[..|events|] == events;
  }

  /** Up to the live list: a file exists, one object was put `wait` milliseconds ago and is not
      committed yet, and collector 0 has just read the (empty) live list. */
  lemma UpToLiveList(cfg: Config, chunkSize: u64, now: i64, clock: int, wait: nat) returns (events: seq<Event>)
    ensures Sane(Start(chunkSize, now, clock)) && Possible(cfg, Start(chunkSize, now, clock), events)
    ensures var w := WorldAfter(cfg, Start(chunkSize, now, clock), events);
            && w.meta == OneFile(chunkSize, now) && w.clock == clock + wait && w.puts == map["k" := clock]
            && w.bucket == map["k" := StoredObject([0], "", clock)]
            && w.collectors == map[0 := HasLive({}, clock + wait)]
  {
    var w := Start(chunkSize, now, clock);
    events := AfterCreate(cfg, chunkSize, now, clock);
    NothingLive(chunkSize, now);
    hide Sane, OneFile, Start, LiveSet, Possible, WorldAfter, Live;
    PutAndWait(cfg, w, events, wait);
    events := events + [PutObject("k", [0], "")] + [Tick(wait)];
    Extend(cfg, w, events, ReadLive(0));
    events := events + [ReadLive(0)];
  }

  lemma AfterCreate(cfg: Config, chunkSize: u64, now: i64, clock: int) returns (events: seq<Event>)
    ensures Sane(Start(chunkSize, now, clock)) && Possible(cfg, Start(chunkSize, now, clock), events)
    ensures WorldAfter(cfg, Start(chunkSize, now, clock), events) ==
            World(OneFile(chunkSize, now), map[], map[], clock, map[], {})
  {
    var w := Start(chunkSize, now, clock);
    StartIsSane(chunkSize, now, clock);
    var create := LogEntry(CreateFileCommand(ROOT, "f", 420, 0, 0), Times(now, now));
    FirstCommand(chunkSize, now, create);
    hide Sane, OneFile, InitialState, Next, CommandKeys;
    CommitStep(cfg, w, [], create);
    events := [] + [Metadata(create)];
  }

  lemma NothingLive(chunkSize: u64, now: i64)
    ensures LiveSet(OneFile(chunkSize, now)) == {}
  {
    OneFileTables(chunkSize, now);
    hide OneFile;
    assert forall key :: !Live(OneFile(chunkSize, now), key);
    hide Live, LiveSet;
  }

  lemma PutAndWait(cfg: Config, w: World, events: seq<Event>, wait: nat)
    requires Sane(w) && Possible(cfg, w, events) && WorldAfter(cfg, w, events).puts == map[]
    ensures Possible(cfg, w, events + [PutObject("k", [0], "")] + [Tick(wait)])
    ensures var v := WorldAfter(cfg, w, events);
            WorldAfter(cfg, w, events + [PutObject("k", [0], "")] + [Tick(wait)]) ==
            v.(bucket := v.bucket["k" := StoredObject([0], "", v.clock)], puts := map["k" := v.clock], clock := v.clock + wait)
  {
    hide Possible, WorldAfter, Sane;
    Extend(cfg, w, events, PutObject("k", [0], ""));
    Extend(cfg, w, events + [PutObject("k", [0], "")], Tick(wait));
  }

  lemma FirstCommand(chunkSize: u64, now: i64, create: LogEntry)
    requires create == LogEntry(CreateFileCommand(ROOT, "f", 420, 0, 0), Times(now, now))
    ensures Valid(InitialState(chunkSize, now)) && NoDangling(InitialState(chunkSize, now))
    ensures InitialState(chunkSize, now).nextInodeId == 2
    ensures Next(InitialState(chunkSize, now), create) == OneFile(chunkSize, now)
    ensures CommandKeys(create.command) == {}
  {
    InitialIsValid(chunkSize, now);
    ValidHasNoDangling(InitialState(chunkSize, now));
    hide CreateNode, Valid, NoDangling;
  }

  /** Committing one extent makes its object live. */
  lemma CommitMakesLive(s: State, id: u64, e: FileExtent, times: Times)
    requires Valid(s) && NoDangling(s) && s.nextInodeId < MAX_64 && id in s.layouts
    requires Acceptable(e)
    ensures Live(Next(s, LogEntry(CommitWriteCommand(id, 0, [e]), times)), e.objectKey)
  {
    hide Apply, Valid, NoDangling, MergeAll, Keys, Live, ContentsAre, Accepted, Batch, ExtentsAfter;
    var c := CommitWriteCommand(id, 0, [e]);
    var s' := Apply(s, c, times).0;
    ApplyContents(s, c, times);
    WritesKeepLayouts(s, c, times);
    CommittedExtents(s, id, e, s');
    BatchKeys(s.layouts[id].extents, [e]);
    LiveInKeys(s', e.objectKey);
  }

  lemma CommittedExtents(s: State, id: u64, e: FileExtent, s': State)
    requires Acceptable(e) && id in s.layouts && id in s'.layouts && ContentsAre(s, CommitWriteCommand(id, 0, [e]), s')
    ensures s'.layouts[id].extents == MergeAll(s.layouts[id].extents, [e])
  {
    AcceptedIs([e], 1);
    assert [e][..1] == [e] && Batch(s, CommitWriteCommand(id, 0, [e])) == [e];
    hide MergeAll;
  }

  /** From there: the object is committed just in time, and the cutoff is fixed as late as allowed. */
  lemma UpToLateCutoff(cfg: Config, w: World, listed: seq<Event>, entry: LogEntry, clock: int, wait: nat)
    returns (events: seq<Event>)
    requires Sane(w) && Possible(cfg, w, listed) && wait <= cfg.delay
    requires var v := WorldAfter(cfg, w, listed);
             && v.clock == clock + wait && v.puts == map["k" := clock]
             && v.collectors == map[0 := HasLive({}, clock + wait)]
             && Sane(v) && v.meta.nextInodeId < MAX_64
             && Live(Next(v.meta, entry), "k") && CommandKeys(entry.command) == {"k"}
    ensures Possible(cfg, w, events)
    ensures var v := WorldAfter(cfg, w, events);
            && Live(v.meta, "k") && v.bucket == WorldAfter(cfg, w, listed).bucket
            && v.collectors == map[0 := Sweeping({}, clock + wait + cfg.gap - cfg.grace, clock + wait, [])]
  {
    hide Live, Next, Possible, WorldAfter, CommandKeys, Sane, After, Enabled, LiveSet;
    LateCommitStep(cfg, w, listed, entry, clock, wait);
    events := listed + [Metadata(entry)];
    WaitAndFix(cfg, w, events);
    events := events + [Tick(cfg.gap)] + [FixCutoff(0)];
  }

  lemma LateCommitStep(cfg: Config, w: World, listed: seq<Event>, entry: LogEntry, clock: int, wait: nat)
    requires Sane(w) && Possible(cfg, w, listed) && wait <= cfg.delay
    requires var v := WorldAfter(cfg, w, listed);
             && v.clock == clock + wait && v.puts == map["k" := clock]
             && v.collectors == map[0 := HasLive({}, clock + wait)]
             && Sane(v) && v.meta.nextInodeId < MAX_64
             && Live(Next(v.meta, entry), "k") && CommandKeys(entry.command) == {"k"}
    ensures Possible(cfg, w, listed + [Metadata(entry)])
    ensures var v, v' := WorldAfter(cfg, w, listed), WorldAfter(cfg, w, listed + [Metadata(entry)]);
            && Live(v'.meta, "k") && v'.bucket == v.bucket && v'.clock == clock + wait
            && v'.collectors.Keys == {0} && v'.collectors[0] == HasLive({}, v'.clock)
  {
    hide Live, Next, Possible, WorldAfter, CommandKeys, Sane, After, Enabled;
    InTime(cfg, WorldAfter(cfg, w, listed), entry, clock, wait);
    CommitStep(cfg, w, listed, entry);
  }

  /** The one key put so far may still be committed, and one collector has just read the live list. */
  lemma InTime(cfg: Config, v: World, entry: LogEntry, clock: int, wait: nat)
    requires v.clock == clock + wait && v.puts == map["k" := clock] && wait <= cfg.delay
    requires v.collectors == map[0 := HasLive({}, clock + wait)] && CommandKeys(entry.command) == {"k"}
    ensures forall key :: key in CommandKeys(entry.command) ==> key in v.puts && v.clock <= v.puts[key] + cfg.delay
    ensures v.collectors.Keys == {0} && v.collectors[0] == HasLive({}, v.clock)
  {
    hide CommandKeys;
  }

  lemma CommitStep(cfg: Config, w: World, listed: seq<Event>, entry: LogEntry)
    requires Sane(w) && Possible(cfg, w, listed)
    requires var v := WorldAfter(cfg, w, listed);
             && Sane(v) && v.meta.nextInodeId < MAX_64
             && (forall key :: key in CommandKeys(entry.command) ==> key in v.puts && v.clock <= v.puts[key] + cfg.delay)
    ensures Possible(cfg, w, listed + [Metadata(entry)])
    ensures var v := WorldAfter(cfg, w, listed);
            WorldAfter(cfg, w, listed + [Metadata(entry)]) == v.(meta := Next(v.meta, entry))
  {
    hide Possible, WorldAfter, CommandKeys, Sane;
    Extend(cfg, w, listed, Metadata(entry));
  }

  lemma WaitAndFix(cfg: Config, w: World, committed: seq<Event>)
    requires Sane(w) && Possible(cfg, w, committed)
    requires var v := WorldAfter(cfg, w, committed);
             v.collectors.Keys == {0} && v.collectors[0] == HasLive({}, v.clock)
    ensures var events := committed + [Tick(cfg.gap)] + [FixCutoff(0)];
            && Possible(cfg, w, events)
            && var v := WorldAfter(cfg, w, committed);
               WorldAfter(cfg, w, events) ==
               v.(clock := v.clock + cfg.gap,
                  collectors := map[0 := Sweeping({}, v.clock + cfg.gap - cfg.grace, v.clock, [])])
  {
    hide Possible, WorldAfter, Sane;
    Waited(cfg, w, committed);
    Fixed(cfg, w, committed + [Tick(cfg.gap)]);
  }

  lemma Waited(cfg: Config, w: World, events: seq<Event>)
    requires Sane(w) && Possible(cfg, w, events)
    ensures Possible(cfg, w, events + [Tick(cfg.gap)])
    ensures var v := WorldAfter(cfg, w, events);
            WorldAfter(cfg, w, events + [Tick(cfg.gap)]) == v.(clock := v.clock + cfg.gap)
  {
    hide Possible, WorldAfter, Sane;
    Extend(cfg, w, events, Tick(cfg.gap));
  }

  lemma Fixed(cfg: Config, w: World, events: seq<Event>)
    requires Sane(w) && Possible(cfg, w, events)
    requires var v := WorldAfter(cfg, w, events);
             v.collectors.Keys == {0} && v.collectors[0].HasLive? && v.clock <= v.collectors[0].at + cfg.gap
    ensures Possible(cfg, w, events + [FixCutoff(0)])
    ensures var v := WorldAfter(cfg, w, events);
            WorldAfter(cfg, w, events + [FixCutoff(0)]) ==
            v.(collectors := map[0 := Sweeping(v.collectors[0].live, v.clock - cfg.grace, v.collectors[0].at, [])])
  {
    hide Possible, WorldAfter, Sane;
    Extend(cfg, w, events, FixCutoff(0));
  }

  /** And then the sweep deletes the live object. */
  lemma SweepDeletesLive(cfg: Config, w: World, fixed: seq<Event>, clock: int, cutoff: int, at: int)
    returns (events: seq<Event>)
    requires Sane(w) && Possible(cfg, w, fixed) && clock <= cutoff
    requires var v := WorldAfter(cfg, w, fixed);
             && Live(v.meta, "k") && v.bucket == map["k" := StoredObject([0], "", clock)]
             && v.collectors == map[0 := Sweeping({}, cutoff, at, [])]
    ensures Possible(cfg, w, events) && !Safe(WorldAfter(cfg, w, events))
  {
    hide Live, Possible, WorldAfter, Sane;
    var page := [ObjectInfo("k", 1, clock)];
    Extend(cfg, w, fixed, ListPage(0, page));
    events := fixed + [ListPage(0, page)];
    Extend(cfg, w, events, DeleteListed(0, 0));
    events := events + [DeleteListed(0, 0)];
    assert Live(WorldAfter(cfg, w, events).meta, "k") && "k" !in WorldAfter(cfg, w, events).bucket;
  }

  lemma LateCommit(chunkSize: u64, now: i64) returns (entry: LogEntry)
    ensures Valid(OneFile(chunkSize, now)) && NoDangling(OneFile(chunkSize, now))
    ensures OneFile(chunkSize, now).nextInodeId < MAX_64
    ensures Live(Next(OneFile(chunkSize, now), entry), "k") && CommandKeys(entry.command) == {"k"}
  {
    OneFileIsValid(chunkSize, now);
    OneFileTables(chunkSize, now);
    hide OneFile, Next, Live, Valid, NoDangling;
    var e := FileExtent(0, 1, "k", "", "", 1, 0);
    entry := LogEntry(CommitWriteCommand(2, 0, [e]), Times(now, now));
    CommitMakesLive(OneFile(chunkSize, now), 2, e, Times(now, now));
    OneKey(e);
  }

  lemma LateCutoffDeletesLive(cfg: Config, chunkSize: u64, now: i64, clock: int) returns (events: seq<Event>)
    requires cfg.grace <= cfg.delay + cfg.gap
    ensures Sane(Start(chunkSize, now, clock)) && Possible(cfg, Start(chunkSize, now, clock), events)
    ensures !Safe(WorldAfter(cfg, Start(chunkSize, now, clock), events))
  {
    hide OneFile, Start, Next, Live, Safe, Possible, WorldAfter, CommandKeys, Valid, NoDangling;
    var w := Start(chunkSize, now, clock);
    var wait: nat := if cfg.gap < cfg.grace then cfg.grace - cfg.gap else 0;
    var listed := UpToLiveList(cfg, chunkSize, now, clock, wait);
    var entry := LateCommit(chunkSize, now);
    var fixed := UpToLateCutoff(cfg, w, listed, entry, clock, wait);
    events := SweepDeletesLive(cfg, w, fixed, clock, clock + wait + cfg.gap - cfg.grace, clock + wait);
  }

  lemma OneKey(e: FileExtent)
    ensures CommandKeys(CommitWriteCommand(2, 0, [e])) == {e.objectKey}
  {
    KeysOne(e);
  }

  /** Garbage collection is safe over every interleaving exactly when the commit delay plus the gap
      between live list and cutoff is strictly below the grace period. */
  lemma GcSafeIff(cfg: Config, chunkSize: u64, now: i64, clock: int)
    ensures Sane(Start(chunkSize, now, clock))
    ensures (forall events :: Possible(cfg, Start(chunkSize, now, clock), events) ==>
                                Safe(WorldAfter(cfg, Start(chunkSize, now, clock), events)))
            <==> cfg.delay + cfg.gap < cfg.grace
  {
    StartIsSane(chunkSize, now, clock);
    hide Sane, Start, Possible, WorldAfter, Safe;
    if cfg.delay + cfg.gap < cfg.grace {
      forall events | Possible(cfg, Start(chunkSize, now, clock), events)
        ensures Safe(WorldAfter(cfg, Start(chunkSize, now, clock), events))
      {
        GcIsSafe(cfg, chunkSize, now, clock, events);
      }
    } else {
      var events := LateCutoffDeletesLive(cfg, chunkSize, now, clock);
    }
  }
}
