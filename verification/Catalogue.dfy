/**
 The station catalogue served by several instances over one database
 (radio-service-rs/src/app_state.rs, refresh.rs). Each instance handles one
 request at a time; instances interleave at every database access. Any request
 may fail at any of its steps.
 */
module Catalogue {
  import opened Wrappers
  import opened Text
  import opened Config
  import opened Stations
  import opened Fingerprint
  import opened StationIndex
  import opened StationTables
  import opened PersistedPayload
  import opened StreamValidation
  import opened IndexCache

  /** What the instances share: libraries, database collation and configuration. */
  datatype Env = Env(
    hasher: Hasher, lower: string -> string, sanitizers: Sanitizers, collate: (string, string) -> bool,
    lockKeyBlank: bool, memoryTtlZero: bool)

  /** What the instances of one deployment share, given their settings. */
  function EnvOf(hasher: Hasher, lower: string -> string, sanitizers: Sanitizers, collate: (string, string) -> bool,
                 settings: Settings): Env
  {
    Env(hasher, lower, sanitizers, collate, Trim(settings.refreshLockKey) == "", settings.memoryCacheTtl == 0)
  }

  datatype Answer = Answer(payload: Payload, index: Processed)

  /** Where an instance is in handling its request. */
  datatype Phase =
    | Idle(answer: Option<Answer>)
    | Synced(force: bool, seen: Option<string>)
    | HeaderRead(id: int, header: Header, initial: Option<int>)
    | Refreshing
    | WaitStart
    | Waiting(since: int)
    | WaitChanged(since: int)
    | WaitSynced(since: int)
    | Locked
    | Ready(payload: Payload)
    | Persisted(payload: Payload)

  /** The caches of one `AppState`. */
  datatype Instance = Instance(marker: Option<int>, memory: Option<Payload>, processed: Option<Entry>, phase: Phase)

  /** The advisory lock; releasing it takes a round trip of its own. */
  datatype Lock = Free | Held(owner: nat) | Lingering

  /** `written` is the history of payload ids. */
  datatype Cluster = Cluster(tables: Tables, written: map<int, Payload>, lock: Lock, instances: seq<Instance>)

  // ----- Cache operations of one instance -----

  /** `ensure_cache_state_sync` against the stamp just read. */
  function Sync(i: Instance, stamp: int): Instance {
    if i.marker == Some(stamp) then i
    else i.(marker := Some(stamp), memory := None, processed := None)
  }

  /** `cache_in_memory`. */
  function CacheInMemory(env: Env, i: Instance, p: Payload): Instance {
    if env.memoryTtlZero then i else i.(memory := Some(p))
  }

  /** Answer with a payload and its index, through `ensure_processed`. */
  ghost function Respond(env: Env, i: Instance, p: Payload): Instance {
    var (data, cache) := EnsureProcessed(env.lower, i.processed, ProcessedCacheKey(env.hasher, p), p.stations);
    i.(processed := cache, phase := Idle(Some(Answer(p, data))))
  }

  // ----- Steps that touch neither the tables nor the lock -----

  ghost predicate BeginLoad(env: Env, t: Tables, i: Instance, i': Instance) {
    i.phase.Idle? && exists force :: i' == Sync(i, t.stamp).(phase := Synced(force, CurrentFingerprint(t)))
  }

  /** `update_stations` and the background refresh start here. */
  ghost predicate BeginRefresh(i: Instance, i': Instance) {
    i.phase.Idle? && i' == i.(phase := Refreshing)
  }

  ghost predicate MemoryHit(env: Env, i: Instance, i': Instance) {
    i.phase.Synced? && !i.phase.force && i.memory.Some? && i' == Respond(env, i, i.memory.value)
  }

  /** A forced request skips the caches; an expired or absent entry leads to the database. */
  ghost predicate ReadHeader(t: Tables, i: Instance, i': Instance) {
    || (i.phase.Synced? && i.phase.force && i' == i.(phase := Refreshing))
    || (i.phase.Synced? && !i.phase.force
        && i' == i.(phase := HeaderPhase(t, None, Refreshing)))
    || (i.phase.WaitSynced?
        && i' == i.(phase := HeaderPhase(t, Some(i.phase.since), Waiting(i.phase.since))))
  }

  function HeaderPhase(t: Tables, initial: Option<int>, otherwise: Phase): Phase {
    if t.current.Some? && t.current.value in t.headers
    then HeaderRead(t.current.value, t.headers[t.current.value], initial)
    else otherwise
  }

  /** The second SELECT, sanitising, caching and answering; a payload that does not survive is not served. */
  ghost predicate ReadStations(env: Env, t: Tables, i: Instance, i': Instance) {
    i.phase.HeaderRead? && exists result ::
      && Selects(t, i.phase.id, env.collate, result)
      && i' == match SanitizePayload(env.sanitizers, Assemble(i.phase.header, result))
               case Some(p) => Respond(env, CacheInMemory(env, i, p), p)
               case None =>
                 match i.phase.initial
                 case Some(since) => i.(phase := Waiting(since))
                 case None => i.(phase := Refreshing)
  }

  /** `wait_for_external_refresh`: remember the stamp, poll until it changes, then load. */
  ghost predicate Wait(t: Tables, i: Instance, i': Instance) {
    || (i.phase.WaitStart? && i' == i.(phase := Waiting(t.stamp)))
    || (i.phase.Waiting? && t.stamp != i.phase.since && i' == i.(phase := WaitChanged(i.phase.since)))
    || (i.phase.WaitChanged? && i' == Sync(i, t.stamp).(phase := WaitSynced(i.phase.since)))
  }

  /** `run_refresh` up to the persist: fetch, fingerprint, validate. */
  ghost predicate FetchAndValidate(env: Env, i: Instance, i': Instance) {
    i.phase.Locked? && exists p, stations ::
      FetchedPayload(env.hasher, p) && OnlyStreamsRewritten(p.stations, stations)
      && i' == i.(phase := Ready(p.(stations := stations)))
  }

  ghost predicate LocalStep(env: Env, t: Tables, i: Instance, i': Instance) {
    || BeginLoad(env, t, i, i')
    || BeginRefresh(i, i')
    || MemoryHit(env, i, i')
    || ReadHeader(t, i, i')
    || ReadStations(env, t, i, i')
    || Wait(t, i, i')
    || FetchAndValidate(env, i, i')
  }

  // ----- Steps of the cluster -----

  predicate Critical(phase: Phase) {
    phase.Locked? || phase.Ready? || phase.Persisted?
  }

  ghost predicate Local(env: Env, c: Cluster, c': Cluster, k: nat) {
    k < |c.instances| && exists i' ::
      LocalStep(env, c.tables, c.instances[k], i') && c' == c.(instances := c.instances[k := i'])
  }

  /** `try_acquire_refresh_lock`: a blank key means no lock at all. */
  ghost predicate TryLock(env: Env, c: Cluster, c': Cluster, k: nat) {
    k < |c.instances| && c.instances[k].phase.Refreshing?
    && c' == if env.lockKeyBlank then Moved(c, k, Locked)
             else if c.lock.Free? then Moved(c, k, Locked).(lock := Held(k))
             else Moved(c, k, WaitStart)
  }

  function Moved(c: Cluster, k: nat, phase: Phase): Cluster
    requires k < |c.instances|
  {
    c.(instances := c.instances[k := c.instances[k].(phase := phase)])
  }

  function Released(lock: Lock, k: nat): Lock {
    if lock == Held(k) then Lingering else lock
  }

  /** The transaction of `persist_payload`, committed at a later time than any before. */
  ghost predicate Commit(env: Env, c: Cluster, c': Cluster, k: nat) {
    k < |c.instances| && c.instances[k].phase.Ready? && exists now ::
      var p := c.instances[k].phase.payload;
      && now > c.tables.stamp
      && Persist(env.hasher, c.tables, p, now).Ok?
      && c' == Moved(c, k, Persisted(p)).(
           tables := TablesAfter(env.hasher, c.tables, p, now),
           written := Logged(env.hasher, c.tables, c.written, p, now))
  }

  /** After the commit: read the stamp into the marker, cache, answer, drop the lock guard. */
  ghost predicate Finish(env: Env, c: Cluster, c': Cluster, k: nat) {
    k < |c.instances| && c.instances[k].phase.Persisted?
    && c' == c.(instances := c.instances[k := Finished(env, c.instances[k], c.tables.stamp)], lock := Released(c.lock, k))
  }

  ghost function Finished(env: Env, i: Instance, stamp: int): Instance
    requires i.phase.Persisted?
  {
    Respond(env, CacheInMemory(env, i.(marker := Some(stamp)), i.phase.payload), i.phase.payload)
  }

  /** Any step may fail, and a wait may time out: the request ends without an answer. */
  ghost predicate Fail(c: Cluster, c': Cluster, k: nat) {
    k < |c.instances| && c' == Moved(c, k, Idle(None)).(lock := Released(c.lock, k))
  }

  ghost predicate Unlock(c: Cluster, c': Cluster) {
    c.lock.Lingering? && c' == c.(lock := Free)
  }

  ghost predicate Next(env: Env, c: Cluster, c': Cluster, k: nat) {
    || Local(env, c, c', k)
    || TryLock(env, c, c', k)
    || Commit(env, c, c', k)
    || Finish(env, c, c', k)
    || Fail(c, c', k)
    || Unlock(c, c')
  }

  const FRESH := Instance(None, None, None, Idle(None))

  /** Empty tables as the migrations leave them, and freshly started instances. */
  ghost predicate Init(c: Cluster, n: nat) {
    && c.tables.headers == map[] && c.tables.rows == map[] && c.tables.current == None
    && c.written == map[] && c.lock == Free
    && c.instances == seq(n, _ => FRESH)
  }

  ghost predicate Run(env: Env, n: nat, trace: seq<Cluster>, actors: seq<nat>) {
    && |trace| == |actors| + 1
    && Init(trace[0], n)
    && forall s :: 0 <= s < |actors| ==> Next(env, trace[s], trace[s + 1], actors[s])
  }

  // ----- The invariant -----

  /** With a lock key, an instance has the lock exactly while it is between lock and answer; so two never are at once. */
  ghost predicate Exclusive(env: Env, c: Cluster) {
    && (!env.lockKeyBlank ==> forall k: nat :: c.lock == Held(k) <==> PastLock(c, k))
    && (env.lockKeyBlank ==> |c.instances| <= 1)
  }

  predicate PastLock(c: Cluster, k: nat) {
    k < |c.instances| && Critical(c.instances[k].phase)
  }

  ghost predicate TablesOk(env: Env, t: Tables, written: map<int, Payload>) {
    Consistent(env.hasher, t, written) && forall id :: id in written ==> Genuine(env.hasher, written[id])
  }

  /** If the marker is the database's stamp, the fingerprint is the database's. */
  ghost predicate Current(t: Tables, marker: Option<int>, fp: Option<string>) {
    marker == Some(t.stamp) ==> fp == CurrentFingerprint(t)
  }

  ghost predicate CachesOk(env: Env, t: Tables, i: Instance) {
    && (i.marker.Some? ==> i.marker.value <= t.stamp)
    && (env.memoryTtlZero ==> i.memory == None)
    && (i.memory.Some? ==> Genuine(env.hasher, i.memory.value) && Current(t, i.marker, i.memory.value.fingerprint))
    && Sound(env.hasher, env.lower, i.processed)
  }

  ghost predicate PhaseOk(env: Env, t: Tables, written: map<int, Payload>, i: Instance) {
    match i.phase
    case Idle(Some(a)) => Genuine(env.hasher, a.payload) && a.index == Index(env.lower, Views(a.payload.stations))
    case Synced(_, seen) => i.memory.Some? ==> i.memory.value.fingerprint == seen
    case HeaderRead(id, header, _) =>
      && id in written && written[id].schemaVersion.Some?
      && header == HeaderOf(env.hasher, written[id]) && Current(t, i.marker, Some(header.fingerprint))
    case Ready(p) => Genuine(env.hasher, p)
    case Persisted(p) => Genuine(env.hasher, p) && p.fingerprint == CurrentFingerprint(t)
    case _ => true
  }

  ghost predicate InstanceOk(env: Env, t: Tables, written: map<int, Payload>, i: Instance) {
    CachesOk(env, t, i) && PhaseOk(env, t, written, i)
  }

  ghost predicate Inv(env: Env, c: Cluster) {
    && TablesOk(env, c.tables, c.written)
    && Exclusive(env, c)
    && forall k :: 0 <= k < |c.instances| ==> InstanceOk(env, c.tables, c.written, c.instances[k])
  }

  // ----- Each step keeps it -----

  lemma RespondOk(env: Env, t: Tables, written: map<int, Payload>, i: Instance, p: Payload)
    requires Lawful(env.hasher) && CachesOk(env, t, i) && Genuine(env.hasher, p)
    ensures InstanceOk(env, t, written, Respond(env, i, p))
  {
    CachedIndexIsRight(env.hasher, env.lower, i.processed, p);
  }

  lemma SanitizedIsGenuine(env: Env, t: Tables, written: map<int, Payload>, id: int, result: seq<Station>)
    requires TablesOk(env, t, written) && id in written && Selects(t, id, env.collate, result)
    ensures var p := SanitizePayload(env.sanitizers, Assemble(HeaderOf(env.hasher, written[id]), result));
            p.Some? ==> Genuine(env.hasher, p.value) && p.value.fingerprint == written[id].fingerprint
  {
    SelectsFromExact(env.hasher, t, written, id, env.collate, result);
    LoadedIsGenuine(env.hasher, env.sanitizers, env.collate, written[id], result);
  }

  lemma ReadStationsOk(env: Env, t: Tables, written: map<int, Payload>, i: Instance, i': Instance)
    requires Lawful(env.hasher) && TablesOk(env, t, written) && InstanceOk(env, t, written, i)
    requires ReadStations(env, t, i, i')
    ensures InstanceOk(env, t, written, i')
  {
    var result :| && Selects(t, i.phase.id, env.collate, result)
                  && i' == match SanitizePayload(env.sanitizers, Assemble(i.phase.header, result))
                           case Some(p) => Respond(env, CacheInMemory(env, i, p), p)
                           case None =>
                             match i.phase.initial
                             case Some(since) => i.(phase := Waiting(since))
                             case None => i.(phase := Refreshing);
    SanitizedIsGenuine(env, t, written, i.phase.id, result);
    match SanitizePayload(env.sanitizers, Assemble(i.phase.header, result))
    case Some(p) => RespondOk(env, t, written, CacheInMemory(env, i, p), p);
    case None =>
  }

  lemma FetchOk(env: Env, t: Tables, written: map<int, Payload>, i: Instance, i': Instance)
    requires InstanceOk(env, t, written, i) && FetchAndValidate(env, i, i')
    ensures InstanceOk(env, t, written, i')
  {
    var p, stations :| FetchedPayload(env.hasher, p) && OnlyStreamsRewritten(p.stations, stations)
                       && i' == i.(phase := Ready(p.(stations := stations)));
    ValidatedIsGenuine(env.hasher, p, stations);
  }

  lemma SyncOk(env: Env, t: Tables, i: Instance)
    requires CachesOk(env, t, i)
    ensures CachesOk(env, t, Sync(i, t.stamp))
    ensures Sync(i, t.stamp).memory.Some? ==> i.marker == Some(t.stamp) && Sync(i, t.stamp) == i
  {
  }

  lemma BeginLoadOk(env: Env, t: Tables, written: map<int, Payload>, i: Instance, i': Instance)
    requires InstanceOk(env, t, written, i) && BeginLoad(env, t, i, i')
    ensures InstanceOk(env, t, written, i') && !Critical(i'.phase)
  {
    SyncOk(env, t, i);
  }

  lemma ReadHeaderOk(env: Env, t: Tables, written: map<int, Payload>, i: Instance, i': Instance)
    requires TablesOk(env, t, written) && InstanceOk(env, t, written, i) && ReadHeader(t, i, i')
    ensures InstanceOk(env, t, written, i') && !Critical(i'.phase)
  {
  }

  lemma WaitOk(env: Env, t: Tables, written: map<int, Payload>, i: Instance, i': Instance)
    requires InstanceOk(env, t, written, i) && Wait(t, i, i')
    ensures InstanceOk(env, t, written, i') && !Critical(i'.phase)
  {
    if i.phase.WaitChanged? {
      SyncOk(env, t, i);
      assert CachesOk(env, t, i');
    }
  }

  lemma MemoryHitOk(env: Env, t: Tables, written: map<int, Payload>, i: Instance, i': Instance)
    requires Lawful(env.hasher) && InstanceOk(env, t, written, i) && MemoryHit(env, i, i')
    ensures InstanceOk(env, t, written, i') && !Critical(i'.phase)
  {
    RespondOk(env, t, written, i, i.memory.value);
  }

  lemma LocalStepOk(env: Env, t: Tables, written: map<int, Payload>, i: Instance, i': Instance)
    requires Lawful(env.hasher) && TablesOk(env, t, written) && InstanceOk(env, t, written, i)
    requires LocalStep(env, t, i, i')
    ensures InstanceOk(env, t, written, i')
  {
    if BeginLoad(env, t, i, i') {
      BeginLoadOk(env, t, written, i, i');
    } else if MemoryHit(env, i, i') {
      MemoryHitOk(env, t, written, i, i');
    } else if ReadHeader(t, i, i') {
      ReadHeaderOk(env, t, written, i, i');
    } else if ReadStations(env, t, i, i') {
      ReadStationsOk(env, t, written, i, i');
    } else if Wait(t, i, i') {
      WaitOk(env, t, written, i, i');
    } else if FetchAndValidate(env, i, i') {
      FetchOk(env, t, written, i, i');
    }
  }

  /** No local step takes an instance past the lock or back. */
  lemma LocalStepOutside(env: Env, t: Tables, i: Instance, i': Instance)
    requires LocalStep(env, t, i, i')
    ensures Critical(i'.phase) <==> Critical(i.phase)
  {
  }

  /** A commit advances the stamp, and the log it writes contains the log so far. */
  lemma CommitFacts(h: Hasher, t: Tables, written: map<int, Payload>, p: Payload, now: int)
    requires Consistent(h, t, written) && Persist(h, t, p, now).Ok?
    ensures TablesAfter(h, t, p, now).stamp == now
    ensures CurrentFingerprint(TablesAfter(h, t, p, now)) == Some(FingerprintOf(h, p))
    ensures var written' := Logged(h, t, written, p, now);
            forall id :: id in written ==> id in written' && written'[id] == written[id]
    ensures var written' := Logged(h, t, written, p, now);
            forall id :: id in written' ==> id in written || written'[id] == p
  {
  }

  /** It passes every marker, so it cannot make a cache look current. */
  lemma CommitKeepsOthers(env: Env, t: Tables, written: map<int, Payload>, i: Instance, t': Tables, written': map<int, Payload>)
    requires InstanceOk(env, t, written, i) && !i.phase.Persisted? && t'.stamp > t.stamp
    requires forall id :: id in written ==> id in written' && written'[id] == written[id]
    ensures InstanceOk(env, t', written', i)
  {
    assert i.marker != Some(t'.stamp);
    assert CachesOk(env, t', i);
  }

  lemma CommitOk(env: Env, c: Cluster, c': Cluster, k: nat)
    requires Inv(env, c) && Commit(env, c, c', k)
    ensures Inv(env, c') && |c'.instances| == |c.instances|
  {
    var p := c.instances[k].phase.payload;
    var now :| && now > c.tables.stamp
               && Persist(env.hasher, c.tables, p, now).Ok?
               && c' == Moved(c, k, Persisted(p)).(
                    tables := TablesAfter(env.hasher, c.tables, p, now),
                    written := Logged(env.hasher, c.tables, c.written, p, now));
    assert InstanceOk(env, c.tables, c.written, c.instances[k]);
    PersistConsistent(env.hasher, c.tables, c.written, p, now);
    CommitFacts(env.hasher, c.tables, c.written, p, now);
    forall j | 0 <= j < |c.instances| ensures InstanceOk(env, c'.tables, c'.written, c'.instances[j]) {
      CommitInstanceOk(env, c, c', k, p, j);
    }
  }

  lemma CommitInstanceOk(env: Env, c: Cluster, c': Cluster, k: nat, p: Payload, j: nat)
    requires Inv(env, c) && k < |c.instances| && j < |c.instances| && c.instances[k].phase == Ready(p)
    requires c'.instances == c.instances[k := c.instances[k].(phase := Persisted(p))]
    requires c'.tables.stamp > c.tables.stamp && CurrentFingerprint(c'.tables) == p.fingerprint
    requires forall id :: id in c.written ==> id in c'.written && c'.written[id] == c.written[id]
    ensures InstanceOk(env, c'.tables, c'.written, c'.instances[j])
  {
    assert InstanceOk(env, c.tables, c.written, c.instances[j]);
    AlonePastLock(env, c, k, j);
    CommitKeepsOthers(env, c.tables, c.written, c.instances[j], c'.tables, c'.written);
  }

  /** While one instance is between lock and answer, no other is. */
  lemma AlonePastLock(env: Env, c: Cluster, k: nat, j: nat)
    requires Exclusive(env, c) && k < |c.instances| && j < |c.instances| && Critical(c.instances[k].phase)
    ensures j != k ==> !Critical(c.instances[j].phase)
  {
    if !env.lockKeyBlank {
      assert PastLock(c, k);
      assert j != k ==> c.lock != Held(j);
      assert PastLock(c, j) ==> c.lock == Held(j);
    }
  }

  lemma LocalOk(env: Env, c: Cluster, c': Cluster, k: nat)
    requires Lawful(env.hasher) && Inv(env, c) && Local(env, c, c', k)
    ensures Inv(env, c') && |c'.instances| == |c.instances|
  {
    var i' :| LocalStep(env, c.tables, c.instances[k], i') && c' == c.(instances := c.instances[k := i']);
    LocalStepOk(env, c.tables, c.written, c.instances[k], i');
    LocalStepOutside(env, c.tables, c.instances[k], i');
  }

  lemma FinishedOk(env: Env, t: Tables, written: map<int, Payload>, i: Instance)
    requires Lawful(env.hasher) && InstanceOk(env, t, written, i) && i.phase.Persisted?
    ensures InstanceOk(env, t, written, Finished(env, i, t.stamp)) && Finished(env, i, t.stamp).phase.Idle?
  {
    var p := i.phase.payload;
    RespondOk(env, t, written, CacheInMemory(env, i.(marker := Some(t.stamp)), p), p);
  }

  lemma FinishOk(env: Env, c: Cluster, c': Cluster, k: nat)
    requires Lawful(env.hasher) && Inv(env, c) && Finish(env, c, c', k)
    ensures Inv(env, c') && |c'.instances| == |c.instances|
  {
    FinishedOk(env, c.tables, c.written, c.instances[k]);
    LeaveOk(env, c, k, Finished(env, c.instances[k], c.tables.stamp));
  }

  lemma LeaveOk(env: Env, c: Cluster, k: nat, i': Instance)
    requires Inv(env, c) && k < |c.instances| && InstanceOk(env, c.tables, c.written, i') && !Critical(i'.phase)
    ensures Inv(env, c.(instances := c.instances[k := i'], lock := Released(c.lock, k)))
  {
    ReleaseExclusive(env, c, k, i');
  }

  /** The lock may be let go by an instance that leaves the part it protects. */
  lemma ReleaseExclusive(env: Env, c: Cluster, k: nat, i': Instance)
    requires Exclusive(env, c) && k < |c.instances| && !Critical(i'.phase)
    ensures Exclusive(env, c.(instances := c.instances[k := i'], lock := Released(c.lock, k)))
  {
  }

  /** Moving to a phase that promises nothing is always fine for the instance. */
  lemma MovedOk(env: Env, c: Cluster, k: nat, phase: Phase)
    requires Inv(env, c) && k < |c.instances|
    requires phase == Idle(None) || phase == Locked || phase == WaitStart
    ensures var c' := Moved(c, k, phase);
            forall j :: 0 <= j < |c'.instances| ==> InstanceOk(env, c'.tables, c'.written, c'.instances[j])
  {
    assert InstanceOk(env, c.tables, c.written, c.instances[k]);
  }

  lemma TryLockOk(env: Env, c: Cluster, c': Cluster, k: nat)
    requires Inv(env, c) && TryLock(env, c, c', k)
    ensures Inv(env, c') && |c'.instances| == |c.instances|
  {
    MovedOk(env, c, k, Locked);
    MovedOk(env, c, k, WaitStart);
  }

  lemma FailOk(env: Env, c: Cluster, c': Cluster, k: nat)
    requires Inv(env, c) && Fail(c, c', k)
    ensures Inv(env, c') && |c'.instances| == |c.instances|
  {
    MovedOk(env, c, k, Idle(None));
  }

  lemma NextOk(env: Env, c: Cluster, c': Cluster, k: nat)
    requires Lawful(env.hasher) && Inv(env, c) && Next(env, c, c', k)
    ensures Inv(env, c') && |c'.instances| == |c.instances|
  {
    if Local(env, c, c', k) {
      LocalOk(env, c, c', k);
    } else if TryLock(env, c, c', k) {
      TryLockOk(env, c, c', k);
    } else if Commit(env, c, c', k) {
      CommitOk(env, c, c', k);
    } else if Finish(env, c, c', k) {
      FinishOk(env, c, c', k);
    } else if Fail(c, c', k) {
      FailOk(env, c, c', k);
    }
  }

  lemma {:induction false} RunOk(env: Env, n: nat, trace: seq<Cluster>, actors: seq<nat>, s: nat)
    requires Lawful(env.hasher) && (env.lockKeyBlank ==> n <= 1)
    requires Run(env, n, trace, actors) && s < |trace|
    ensures Inv(env, trace[s]) && |trace[s].instances| == n
  {
    if s > 0 {
      RunOk(env, n, trace, actors, s - 1);
      NextOk(env, trace[s - 1], trace[s], actors[s - 1]);
    }
  }

  // ----- What every run guarantees -----

  /** Between requests, a cache that looks current holds the payload the database holds. */
  ghost predicate CoherentState(c: Cluster) {
    forall k :: 0 <= k < |c.instances| && c.instances[k].phase.Idle? && c.instances[k].memory.Some?
                && c.instances[k].marker == Some(c.tables.stamp) ==>
                  c.instances[k].memory.value.fingerprint == CurrentFingerprint(c.tables)
  }

  ghost predicate Coherent(env: Env, n: nat) {
    forall trace, actors :: Run(env, n, trace, actors) ==> CoherentState(trace[|trace| - 1])
  }

  /** Every answer is a genuine payload with exactly the index `build` would give it. */
  lemma AnswersAreIndexed(env: Env, n: nat, trace: seq<Cluster>, actors: seq<nat>, s: nat, k: nat)
    requires Lawful(env.hasher) && (env.lockKeyBlank ==> n <= 1)
    requires Run(env, n, trace, actors) && s < |trace| && k < |trace[s].instances|
    requires trace[s].instances[k].phase.Idle? && trace[s].instances[k].phase.answer.Some?
    ensures var a := trace[s].instances[k].phase.answer.value;
            Genuine(env.hasher, a.payload) && a.index == Index(env.lower, Views(a.payload.stations))
  {
    RunOk(env, n, trace, actors, s);
    assert InstanceOk(env, trace[s].tables, trace[s].written, trace[s].instances[k]);
  }

  /** An answer from memory is the payload that was current when the request was synchronised. */
  lemma MemoryAnswersAreFresh(env: Env, n: nat, trace: seq<Cluster>, actors: seq<nat>, s: nat, k: nat)
    requires Lawful(env.hasher) && (env.lockKeyBlank ==> n <= 1)
    requires Run(env, n, trace, actors) && s < |trace| && k < |trace[s].instances|
    requires trace[s].instances[k].phase.Synced? && trace[s].instances[k].memory.Some?
    ensures trace[s].instances[k].memory.value.fingerprint == trace[s].instances[k].phase.seen
  {
    RunOk(env, n, trace, actors, s);
    assert InstanceOk(env, trace[s].tables, trace[s].written, trace[s].instances[k]);
  }

  /** An answer from the database is all that one commit wrote, whatever was committed during the load. */
  lemma LoadedAnswersAreWhole(env: Env, n: nat, trace: seq<Cluster>, actors: seq<nat>, s: nat, k: nat, i': Instance)
    requires Lawful(env.hasher) && (env.lockKeyBlank ==> n <= 1)
    requires Run(env, n, trace, actors) && s < |trace| && k < |trace[s].instances|
    requires ReadStations(env, trace[s].tables, trace[s].instances[k], i')
    requires i'.phase.Idle? && i'.phase.answer.Some?
    ensures var c := trace[s];
            var id := c.instances[k].phase.id;
            && c.tables.current == Some(id) && id in c.written && c.written[id].schemaVersion.Some?
            && exists result :: IsAnswerOf(env, c.written[id], result, i'.phase.answer.value.payload)
  {
    RunOk(env, n, trace, actors, s);
    var c, i := trace[s], trace[s].instances[k];
    assert InstanceOk(env, c.tables, c.written, i);
    var result :| && Selects(c.tables, i.phase.id, env.collate, result)
                  && i' == match SanitizePayload(env.sanitizers, Assemble(i.phase.header, result))
                           case Some(p) => Respond(env, CacheInMemory(env, i, p), p)
                           case None =>
                             match i.phase.initial
                             case Some(since) => i.(phase := Waiting(since))
                             case None => i.(phase := Refreshing);
    SelectsFromExact(env.hasher, c.tables, c.written, i.phase.id, env.collate, result);
    EmptyIsRejected(env.sanitizers, Assemble(i.phase.header, []));
    assert result != [];
    AnswerFromWritten(env, c.written[i.phase.id], result, i'.phase.answer.value.payload);
  }

  lemma AnswerFromWritten(env: Env, written: Payload, result: seq<Station>, answer: Payload)
    requires Genuine(env.hasher, written) && ListsByName(env.collate, written.stations, result)
    requires SanitizePayload(env.sanitizers, Assemble(HeaderOf(env.hasher, written), result)) == Some(answer)
    ensures IsAnswerOf(env, written, result, answer)
  {
    GenuineIsClean(env.hasher, written);
    ListsWhatWasWritten(env.collate, written.stations, result);
    HeaderRoundTrip(env.hasher, written, result);
  }

  /** The answer is the written payload, its very stations in order of their names, sanitised. */
  ghost predicate IsAnswerOf(env: Env, written: Payload, stations: seq<Station>, answer: Payload) {
    && multiset(stations) == multiset(written.stations)
    && (forall i, j :: 0 <= i < j < |stations| ==> env.collate(stations[i].name, stations[j].name))
    && SanitizePayload(env.sanitizers, written.(stations := stations)) == Some(answer)
  }

  /** A refresh caches what it committed, and its own commit does not make the next request drop it. */
  lemma RefreshKeepsItsEntry(env: Env, n: nat, trace: seq<Cluster>, actors: seq<nat>, s: nat, k: nat)
    requires Lawful(env.hasher) && (env.lockKeyBlank ==> n <= 1) && !env.memoryTtlZero
    requires Run(env, n, trace, actors) && s < |actors| && Finish(env, trace[s], trace[s + 1], k)
    ensures var p, i, t := trace[s].instances[k].phase.payload, trace[s + 1].instances[k], trace[s + 1].tables;
            && i.memory == Some(p)
            && p.fingerprint == CurrentFingerprint(t)
            && Sync(i, t.stamp) == i
  {
    RunOk(env, n, trace, actors, s);
    assert InstanceOk(env, trace[s].tables, trace[s].written, trace[s].instances[k]);
  }

  /**
   The main result: with settings the service starts with, any number of instances
   keep their caches coherent over every run.
   */
  lemma CachesAreCoherent(hasher: Hasher, lower: string -> string, sanitizers: Sanitizers,
                          collate: (string, string) -> bool, settings: Settings, n: nat)
    requires Lawful(hasher) && Starts(settings)
    ensures Coherent(EnvOf(hasher, lower, sanitizers, collate, settings), n)
  {
    var env := EnvOf(hasher, lower, sanitizers, collate, settings);
    forall trace, actors | Run(env, n, trace, actors) ensures CoherentState(trace[|trace| - 1]) {
      RunOk(env, n, trace, actors, |trace| - 1);
    }
  }

  // ----- The caches do get used -----

  lemma Extend(env: Env, n: nat, trace: seq<Cluster>, actors: seq<nat>, c': Cluster, k: nat)
    requires Run(env, n, trace, actors) && Next(env, trace[|trace| - 1], c', k)
    ensures Run(env, n, trace + [c'], actors + [k])
  {
  }

  /** A station with nothing but an id and a stream. */
  function Plain(id: string): Station {
    Station(id, id, "https://radio.example/" + id, None, None, None, None, None, [], [], None, None, None, false, true,
            None, None, 0, 0, 0)
  }

  function PlainPayload(h: Hasher, id: string): Payload {
    Payload(Some(SCHEMA_VERSION), 0, None, [], 1, [Plain(id)], Some(SetFingerprint(h, [Plain(id)])))
  }

  lemma PlainIsFetched(h: Hasher, id: string)
    requires '\n' !in id
    ensures FetchedPayload(h, PlainPayload(h, id))
    ensures OnlyStreamsRewritten([Plain(id)], [Plain(id)])
  {
    assert OnlyStreamsRewritten([Plain(id)][..0], [Plain(id)][..0]);
  }

  /** Instance `k` has taken the lock, if there is one. */
  function Taken(env: Env, c: Cluster, k: nat): Cluster {
    if env.lockKeyBlank then c else c.(lock := Held(k))
  }

  lemma ReachLocked(env: Env, n: nat, trace: seq<Cluster>, actors: seq<nat>, k: nat)
    returns (trace': seq<Cluster>, actors': seq<nat>)
    requires Run(env, n, trace, actors) && (env.lockKeyBlank || trace[|trace| - 1].lock.Free?)
    requires k < |trace[|trace| - 1].instances| && trace[|trace| - 1].instances[k].phase.Idle?
    ensures Run(env, n, trace', actors') && trace <= trace'
    ensures trace'[|trace'| - 1] == Taken(env, Moved(trace[|trace| - 1], k, Locked), k)
  {
    var c := trace[|trace| - 1];
    var started := Moved(c, k, Refreshing);
    assert LocalStep(env, c.tables, c.instances[k], started.instances[k]);
    Extend(env, n, trace, actors, started, k);
    var locked := Taken(env, Moved(started, k, Locked), k);
    assert TryLock(env, started, locked, k);
    Extend(env, n, trace + [started], actors + [k], locked, k);
    trace', actors' := trace + [started] + [locked], actors + [k] + [k];
    assert Moved(started, k, Locked) == Moved(c, k, Locked);
  }

  /** With the lock free, or without a lock, an idle instance can get a payload ready. */
  lemma ReachReady(env: Env, n: nat, trace: seq<Cluster>, actors: seq<nat>, k: nat, id: string)
    returns (trace': seq<Cluster>, actors': seq<nat>)
    requires Run(env, n, trace, actors) && '\n' !in id
    requires env.lockKeyBlank || trace[|trace| - 1].lock.Free?
    requires k < |trace[|trace| - 1].instances| && trace[|trace| - 1].instances[k].phase.Idle?
    ensures Run(env, n, trace', actors') && trace <= trace'
    ensures trace'[|trace'| - 1] == Taken(env, Moved(trace[|trace| - 1], k, Ready(PlainPayload(env.hasher, id))), k)
  {
    var c := trace[|trace| - 1];
    trace', actors' := ReachLocked(env, n, trace, actors, k);
    var locked := trace'[|trace'| - 1];
    var p := PlainPayload(env.hasher, id);
    var fetched := Moved(locked, k, Ready(p));
    PlainIsFetched(env.hasher, id);
    assert p.(stations := [Plain(id)]) == p;
    assert FetchAndValidate(env, locked.instances[k], fetched.instances[k]);
    assert LocalStep(env, locked.tables, locked.instances[k], fetched.instances[k]);
    Extend(env, n, trace', actors', fetched, k);
    trace', actors' := trace' + [fetched], actors' + [k];
    assert Taken(env, Moved(c, k, Ready(p)), k) == fetched;
  }

  lemma CommitReady(env: Env, n: nat, trace: seq<Cluster>, actors: seq<nat>, k: nat, now: int)
    returns (trace': seq<Cluster>, actors': seq<nat>)
    requires Run(env, n, trace, actors)
    requires var c := trace[|trace| - 1];
             && k < |c.instances| && c.instances[k].phase.Ready? && now > c.tables.stamp
             && Consistent(env.hasher, c.tables, c.written)
             && DistinctIds(c.instances[k].phase.payload.stations) && c.instances[k].phase.payload.schemaVersion.Some?
    ensures Run(env, n, trace', actors') && trace <= trace'
    ensures var c, c' := trace[|trace| - 1], trace'[|trace'| - 1];
            var p := c.instances[k].phase.payload;
            && c'.instances == Moved(c, k, Persisted(p)).instances
            && c'.tables.stamp == now && CurrentFingerprint(c'.tables) == Some(FingerprintOf(env.hasher, p))
            && Consistent(env.hasher, c'.tables, c'.written) && c'.lock == c.lock
  {
    var c := trace[|trace| - 1];
    var p := c.instances[k].phase.payload;
    DistinctIdsInChunks(p.stations);
    PersistConsistent(env.hasher, c.tables, c.written, p, now);
    var c' := Moved(c, k, Persisted(p)).(
      tables := TablesAfter(env.hasher, c.tables, p, now),
      written := Logged(env.hasher, c.tables, c.written, p, now));
    assert Commit(env, c, c', k);
    Extend(env, n, trace, actors, c', k);
    trace', actors' := trace + [c'], actors + [k];
  }

  /** What a refresh by instance `k` leaves: the instance is idle, in step with the database, and holds what it committed. */
  ghost predicate HasRefreshed(env: Env, c: Cluster, k: nat, id: string) {
    && k < |c.instances| && c.instances[k].phase.Idle? && c.instances[k].phase.answer.Some?
    && c.instances[k].phase.answer.value.payload == PlainPayload(env.hasher, id)
    && c.instances[k].marker == Some(c.tables.stamp)
    && (!env.memoryTtlZero ==> c.instances[k].memory == Some(PlainPayload(env.hasher, id)))
    && CurrentFingerprint(c.tables) == PlainPayload(env.hasher, id).fingerprint
  }

  /** Nobody is between lock and answer. */
  ghost predicate NobodyPastLock(c: Cluster) {
    forall k: nat :: !PastLock(c, k)
  }

  ghost predicate OthersUntouched(c: Cluster, c': Cluster, k: nat) {
    |c'.instances| == |c.instances| && forall j :: 0 <= j < |c.instances| && j != k ==> c'.instances[j] == c.instances[j]
  }

  lemma FinishPersisted(env: Env, n: nat, trace: seq<Cluster>, actors: seq<nat>, k: nat, id: string)
    returns (trace': seq<Cluster>, actors': seq<nat>)
    requires Run(env, n, trace, actors)
    requires var c := trace[|trace| - 1];
             && k < |c.instances| && c.instances[k].phase == Persisted(PlainPayload(env.hasher, id))
             && CurrentFingerprint(c.tables) == PlainPayload(env.hasher, id).fingerprint
    ensures Run(env, n, trace', actors') && trace <= trace' && HasRefreshed(env, trace'[|trace'| - 1], k, id)
    ensures var c, c' := trace[|trace| - 1], trace'[|trace'| - 1];
            OthersUntouched(c, c', k)
  {
    var c := trace[|trace| - 1];
    var c' := c.(instances := c.instances[k := Finished(env, c.instances[k], c.tables.stamp)], lock := Released(c.lock, k));
    assert Finish(env, c, c', k);
    Extend(env, n, trace, actors, c', k);
    trace', actors' := trace + [c'], actors + [k];
  }

  lemma NobodyHolds(env: Env, c: Cluster)
    requires Exclusive(env, c) && NobodyPastLock(c) && !env.lockKeyBlank
    ensures !c.lock.Held?
  {
    forall k: nat ensures c.lock != Held(k) {
      assert !PastLock(c, k);
    }
  }

  /** When nobody is past the lock, it is free, or about to be. */
  lemma ReachFree(env: Env, n: nat, trace: seq<Cluster>, actors: seq<nat>)
    returns (trace': seq<Cluster>, actors': seq<nat>)
    requires Run(env, n, trace, actors) && Inv(env, trace[|trace| - 1]) && NobodyPastLock(trace[|trace| - 1])
    ensures Run(env, n, trace', actors') && trace <= trace'
    ensures env.lockKeyBlank || trace'[|trace'| - 1].lock.Free?
    ensures var c, c' := trace[|trace| - 1], trace'[|trace'| - 1];
            c'.instances == c.instances && c'.tables == c.tables && c'.written == c.written
  {
    var c := trace[|trace| - 1];
    trace', actors' := trace, actors;
    if !env.lockKeyBlank {
      NobodyHolds(env, c);
    }
    if !env.lockKeyBlank && c.lock.Lingering? {
      assert Unlock(c, c.(lock := Free));
      Extend(env, n, trace, actors, c.(lock := Free), 0);
      trace', actors' := trace + [c.(lock := Free)], actors + [0];
    }
  }

  lemma ReachCommitted(env: Env, n: nat, trace: seq<Cluster>, actors: seq<nat>, k: nat, id: string)
    returns (trace': seq<Cluster>, actors': seq<nat>)
    requires Run(env, n, trace, actors) && Inv(env, trace[|trace| - 1]) && NobodyPastLock(trace[|trace| - 1]) && '\n' !in id
    requires k < |trace[|trace| - 1].instances| && trace[|trace| - 1].instances[k].phase.Idle?
    ensures Run(env, n, trace', actors') && trace <= trace'
    ensures var c, c' := trace[|trace| - 1], trace'[|trace'| - 1];
            && OthersUntouched(c, c', k)
            && c'.instances[k].phase == Persisted(PlainPayload(env.hasher, id))
            && CurrentFingerprint(c'.tables) == PlainPayload(env.hasher, id).fingerprint
  {
    var free, freeActors := ReachFree(env, n, trace, actors);
    var ready, readyActors := ReachReady(env, n, free, freeActors, k, id);
    trace', actors' := CommitReady(env, n, ready, readyActors, k, trace[|trace| - 1].tables.stamp + 1);
  }

  /**
   The lock always comes free again: from every reachable state in which nobody is
   past the lock, every idle instance can refresh, commit and answer, and then
   nobody is past the lock once more.
   */
  lemma RefreshIsPossible(env: Env, n: nat, trace: seq<Cluster>, actors: seq<nat>, k: nat, id: string)
    returns (trace': seq<Cluster>, actors': seq<nat>)
    requires Lawful(env.hasher) && (env.lockKeyBlank ==> n <= 1) && '\n' !in id
    requires Run(env, n, trace, actors) && NobodyPastLock(trace[|trace| - 1])
    requires k < |trace[|trace| - 1].instances| && trace[|trace| - 1].instances[k].phase.Idle?
    ensures Run(env, n, trace', actors') && trace <= trace'
    ensures HasRefreshed(env, trace'[|trace'| - 1], k, id) && NobodyPastLock(trace'[|trace'| - 1])
    ensures var c, c' := trace[|trace| - 1], trace'[|trace'| - 1];
            OthersUntouched(c, c', k)
  {
    RunOk(env, n, trace, actors, |trace| - 1);
    var c := trace[|trace| - 1];
    var committed, committedActors := ReachCommitted(env, n, trace, actors, k, id);
    trace', actors' := FinishPersisted(env, n, committed, committedActors, k, id);
    StillNobodyPastLock(c, trace'[|trace'| - 1], k);
  }

  lemma StillNobodyPastLock(c: Cluster, c': Cluster, k: nat)
    requires NobodyPastLock(c) && OthersUntouched(c, c', k) && k < |c.instances| && c'.instances[k].phase.Idle?
    ensures NobodyPastLock(c')
  {
    forall j: nat ensures !PastLock(c', j) {
      assert !PastLock(c, j);
    }
  }

  /** Two instances refresh one after the other. */
  lemma TwoRefreshes(env: Env, n: nat)
    returns (trace: seq<Cluster>, actors: seq<nat>, first: nat)
    requires Lawful(env.hasher) && !env.lockKeyBlank && n >= 2
    ensures Run(env, n, trace, actors) && first < |trace|
    ensures HasRefreshed(env, trace[first], 0, "a") && HasRefreshed(env, trace[|trace| - 1], 1, "b")
  {
    var start := Cluster(Tables(map[], map[], None, 0, 1), map[], Free, seq(n, _ => FRESH));
    var trace1, actors1 := RefreshIsPossible(env, n, [start], [], 0, "a");
    trace, actors := RefreshIsPossible(env, n, trace1, actors1, 1, "b");
    first := |trace1| - 1;
  }

  /** Over every run, an instance has the lock exactly while it is between lock and answer. */
  lemma LockIsHeldExactly(env: Env, n: nat, trace: seq<Cluster>, actors: seq<nat>, s: nat, k: nat)
    requires Lawful(env.hasher) && !env.lockKeyBlank && Run(env, n, trace, actors) && s < |trace|
    ensures trace[s].lock == Held(k)
            <==> k < |trace[s].instances| && (trace[s].instances[k].phase.Locked? || trace[s].instances[k].phase.Ready?
                                              || trace[s].instances[k].phase.Persisted?)
  {
    RunOk(env, n, trace, actors, s);
    assert trace[s].lock == Held(k) <==> PastLock(trace[s], k);
  }

  // ----- Why a blank lock key has to be refused -----

  // None of the runs below can happen: the service does not start with a blank key.
  // They show what the check of the key is there for.

  ghost predicate NoMemory(c: Cluster) {
    forall k :: 0 <= k < |c.instances| ==> c.instances[k].memory == None
  }

  lemma LocalNoMemory(env: Env, t: Tables, i: Instance, i': Instance)
    requires env.memoryTtlZero && i.memory == None && LocalStep(env, t, i, i')
    ensures i'.memory == None
  {
  }

  lemma {:induction false} RunNoMemory(env: Env, n: nat, trace: seq<Cluster>, actors: seq<nat>, s: nat)
    requires env.memoryTtlZero && Run(env, n, trace, actors) && s < |trace|
    ensures NoMemory(trace[s])
  {
    if s > 0 {
      RunNoMemory(env, n, trace, actors, s - 1);
      var c, c', k := trace[s - 1], trace[s], actors[s - 1];
      assert Next(env, c, c', k);
      if Local(env, c, c', k) {
        var i' :| LocalStep(env, c.tables, c.instances[k], i') && c' == c.(instances := c.instances[k := i']);
        LocalNoMemory(env, c.tables, c.instances[k], i');
      }
    }
  }

  lemma TwoReady(env: Env, n: nat)
    returns (trace: seq<Cluster>, actors: seq<nat>)
    requires env.lockKeyBlank && n >= 2
    ensures Run(env, n, trace, actors)
    ensures var c := trace[|trace| - 1];
            && c.tables == Tables(map[], map[], None, 0, 1) && c.written == map[] && |c.instances| == n
            && c.instances[0].phase == Ready(PlainPayload(env.hasher, "a"))
            && c.instances[1].phase == Ready(PlainPayload(env.hasher, "b"))
  {
    var start := Cluster(Tables(map[], map[], None, 0, 1), map[], Free, seq(n, _ => FRESH));
    trace, actors := ReachReady(env, n, [start], [], 0, "a");
    trace, actors := ReachReady(env, n, trace, actors, 1, "b");
  }

  lemma TwoCommitted(env: Env, n: nat)
    returns (trace: seq<Cluster>, actors: seq<nat>)
    requires env.lockKeyBlank && n >= 2
    ensures Run(env, n, trace, actors)
    ensures var c := trace[|trace| - 1];
            && |c.instances| == n
            && c.instances[0].phase == Persisted(PlainPayload(env.hasher, "a"))
            && CurrentFingerprint(c.tables) == PlainPayload(env.hasher, "b").fingerprint
  {
    trace, actors := TwoReady(env, n);
    trace, actors := CommitReady(env, n, trace, actors, 0, 1);
    trace, actors := CommitReady(env, n, trace, actors, 1, 2);
  }

  /** Two unlocked refreshes: the first to commit reads its marker after the second has committed. */
  lemma IncoherentRun(env: Env, n: nat)
    returns (trace: seq<Cluster>, actors: seq<nat>)
    requires Lawful(env.hasher) && env.lockKeyBlank && n >= 2 && !env.memoryTtlZero
    ensures Run(env, n, trace, actors) && !CoherentState(trace[|trace| - 1])
  {
    trace, actors := TwoCommitted(env, n);
    var c := trace[|trace| - 1];
    var c' := c.(instances := c.instances[0 := Finished(env, c.instances[0], c.tables.stamp)], lock := Released(c.lock, 0));
    assert Finish(env, c, c', 0);
    Extend(env, n, trace, actors, c', 0);
    trace, actors := trace + [c'], actors + [0];
    PlainFingerprintsDiffer(env.hasher);
    assert c'.instances[0].memory == Some(PlainPayload(env.hasher, "a"));
  }

  lemma PlainFingerprintsDiffer(h: Hasher)
    requires Lawful(h)
    ensures PlainPayload(h, "a").fingerprint != PlainPayload(h, "b").fingerprint
  {
    SetFingerprintExact(h, [Plain("a")], [Plain("b")]);
    assert Plain("a") in multiset([Plain("a")]) && Plain("a") !in multiset([Plain("b")]);
  }

  /**
   Without the check of the settings, the caches would be coherent over every run
   exactly when there is a lock key, or a single instance, or no memory cache at all.
   */
  lemma CoherentExactly(env: Env, n: nat)
    requires Lawful(env.hasher)
    ensures Coherent(env, n) <==> !env.lockKeyBlank || n <= 1 || env.memoryTtlZero
  {
    if !env.lockKeyBlank || n <= 1 {
      forall trace, actors | Run(env, n, trace, actors) ensures CoherentState(trace[|trace| - 1]) {
        RunOk(env, n, trace, actors, |trace| - 1);
      }
    } else if env.memoryTtlZero {
      forall trace, actors | Run(env, n, trace, actors) ensures CoherentState(trace[|trace| - 1]) {
        RunNoMemory(env, n, trace, actors, |trace| - 1);
      }
    } else {
      var trace, actors := IncoherentRun(env, n);
    }
  }

  // ----- The caches of one instance, as the service updates them -----

  class AppState {
    const env: Env
    const ttl: nat
    var marker: Option<int>
    var memory: Option<Payload>
    var expiresAt: int
    var processed: Option<Entry>

    /** The caches as the cluster model sees them. */
    function Snapshot(phase: Phase): Instance
      reads this
    {
      Instance(marker, memory, processed, phase)
    }

    constructor (env: Env, ttl: nat)
      requires env.memoryTtlZero <==> ttl == 0
      ensures this.env == env && this.ttl == ttl
      ensures Snapshot(Idle(None)) == FRESH
    {
      this.env, this.ttl := env, ttl;
      marker, memory, processed, expiresAt := None, None, None, 0;
    }

    /** `ensure_cache_state_sync`, given the stamp the database returned. */
    method EnsureCacheStateSync(stamp: int, ghost phase: Phase)
      modifies this
      ensures Snapshot(phase) == Sync(old(Snapshot(phase)), stamp)
      ensures expiresAt == old(expiresAt)
    {
      var changed := marker != Some(stamp);
      if changed {
        marker := Some(stamp);
        memory := None;
        processed := None;
      }
    }

    /** `update_cache_state_marker`: unlike a sync, it clears nothing. */
    method UpdateCacheStateMarker(stamp: int, ghost phase: Phase)
      modifies `marker
      ensures Snapshot(phase) == old(Snapshot(phase)).(marker := Some(stamp))
    {
      marker := Some(stamp);
    }

    method StoreInMemory(p: Payload, now: int, ghost phase: Phase)
      requires env.memoryTtlZero <==> ttl == 0
      modifies this
      ensures Snapshot(phase) == CacheInMemory(env, old(Snapshot(phase)), p)
      ensures ttl > 0 ==> expiresAt == now + ttl
    {
      if ttl == 0 {
        return;
      }
      memory := Some(p);
      expiresAt := now + ttl;
    }

    /** `get_memory_cache_entry`. */
    method GetMemoryCacheEntry(now: int) returns (r: Option<Payload>)
      ensures r.Some? ==> r == memory && now <= expiresAt
      ensures r.None? <==> ttl == 0 || memory.None? || now > expiresAt
    {
      r := if ttl > 0 && memory.Some? && now <= expiresAt then memory else None;
    }

    /** `ensure_processed`. */
    method EnsureIndex(key: string, stations: seq<Station>) returns (data: Processed)
      modifies `processed
      ensures (data, processed) == EnsureProcessed(env.lower, old(processed), key, stations)
    {
      if Hit(processed, key, stations) {
        return processed.value.data;
      }
      data := Build(env.lower, stations);
      processed := Some(Entry(key, data));
    }

    /** The end of `perform_refresh_with_lock`, after the stamp has been read back. */
    method FinishRefresh(p: Payload, stamp: int, now: int) returns (data: Processed)
      requires env.memoryTtlZero <==> ttl == 0
      modifies this
      ensures Snapshot(Idle(Some(Answer(p, data)))) == Finished(env, old(Snapshot(Persisted(p))), stamp)
    {
      UpdateCacheStateMarker(stamp, Persisted(p));
      StoreInMemory(p, now, Persisted(p));
      data := EnsureIndex(ProcessedCacheKey(env.hasher, p), p.stations);
    }
  }
}
