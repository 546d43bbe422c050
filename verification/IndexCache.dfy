/**
 Why a cached station index may be reused (`ensure_processed` of
 radio-service-rs/src/app_state.rs): the cache key holds a fingerprint taken
 before validation and sanitising, and never recomputed.
 */
module IndexCache {
  import opened Wrappers
  import opened Sequences
  import opened Stations
  import opened Fingerprint
  import opened StationIndex
  import opened StationTables
  import opened PersistedPayload
  import opened StreamValidation

  // ----- Where payloads come from -----

  /** What a fetch delivers: distinct newline-free ids and trimmed lists. */
  ghost predicate Fetched(raw: seq<Station>) {
    DistinctIds(raw) && NewlineFreeIds(raw) && forall i :: 0 <= i < |raw| ==> CleanStation(raw[i])
  }

  /** Every station shows the index what some fetched station shows it. */
  ghost predicate ViewsFrom(raw: seq<Station>, stations: seq<Station>) {
    forall i :: 0 <= i < |stations| ==> HasView(raw, ViewOf(stations[i]))
  }

  predicate HasView(raw: seq<Station>, v: View) {
    exists k :: 0 <= k < |raw| && ViewOf(raw[k]) == v
  }

  /** The fingerprint is that of a fetched list from which the stations were derived. */
  ghost predicate Derived(h: Hasher, fp: string, stations: seq<Station>) {
    DistinctIds(stations) && exists raw :: Fetched(raw) && fp == SetFingerprint(h, raw) && ViewsFrom(raw, stations)
  }

  ghost predicate Genuine(h: Hasher, p: Payload) {
    p.fingerprint.Some? && p.schemaVersion.Some? && Derived(h, p.fingerprint.value, p.stations)
  }

  /** What `fetch_payload_from_host` returns: the fingerprint is that of the stations. */
  ghost predicate FetchedPayload(h: Hasher, p: Payload) {
    Fetched(p.stations) && p.schemaVersion == Some(SCHEMA_VERSION) && p.fingerprint == Some(SetFingerprint(h, p.stations))
  }

  lemma SelfViews(raw: seq<Station>)
    ensures ViewsFrom(raw, raw)
  {
  }

  lemma FetchedIsGenuine(h: Hasher, p: Payload)
    requires FetchedPayload(h, p)
    ensures Genuine(h, p)
  {
    SelfViews(p.stations);
  }

  lemma {:induction false} RewrittenStems(before: seq<Station>, after: seq<Station>, i: nat)
    requires OnlyStreamsRewritten(before, after) && i < |after|
    ensures exists k :: 0 <= k < |before| && ViewOf(before[k]) == ViewOf(after[i])
  {
    var m, n := |before| - 1, |after| - 1;
    if OnlyStreamsRewritten(before[..m], after) {
      RewrittenStems(before[..m], after, i);
      var k :| 0 <= k < m && ViewOf(before[..m][k]) == ViewOf(after[i]);
      assert ViewOf(before[k]) == ViewOf(after[i]);
    } else if i < n {
      RewrittenStems(before[..m], after[..n], i);
      var k :| 0 <= k < m && ViewOf(before[..m][k]) == ViewOf(after[..n][i]);
      assert ViewOf(before[k]) == ViewOf(after[i]);
    } else {
      assert ViewOf(before[m]) == ViewOf(after[n]);
    }
  }

  lemma {:induction false} RewrittenDistinct(before: seq<Station>, after: seq<Station>)
    requires OnlyStreamsRewritten(before, after) && DistinctIds(before)
    ensures DistinctIds(after)
  {
    if after != [] {
      var m, n := |before| - 1, |after| - 1;
      if OnlyStreamsRewritten(before[..m], after) {
        RewrittenDistinct(before[..m], after);
      } else {
        RewrittenDistinct(before[..m], after[..n]);
        forall i | 0 <= i < n ensures after[i].id != after[n].id {
          RewrittenStems(before[..m], after[..n], i);
          var k :| 0 <= k < m && ViewOf(before[..m][k]) == ViewOf(after[..n][i]);
          assert before[k].id != before[m].id;
        }
      }
    }
  }

  /** Validation keeps the stale fingerprint and leaves the payload genuine. */
  lemma ValidatedIsGenuine(h: Hasher, p: Payload, stations: seq<Station>)
    requires FetchedPayload(h, p) && OnlyStreamsRewritten(p.stations, stations)
    ensures Genuine(h, p.(stations := stations))
    ensures forall i :: 0 <= i < |stations| ==> CleanStation(stations[i])
  {
    RewrittenDistinct(p.stations, stations);
    forall i | 0 <= i < |stations| ensures HasView(p.stations, ViewOf(stations[i])) && CleanStation(stations[i]) {
      RewrittenStems(p.stations, stations, i);
    }
  }

  /** Loading and sanitising leave a genuine payload genuine. */
  lemma LoadedIsGenuine(h: Hasher, z: Sanitizers, collate: (string, string) -> bool, p: Payload, result: seq<Station>)
    requires Genuine(h, p) && (result == [] || ListsByName(collate, p.stations, result))
    ensures Derived(h, p.fingerprint.value, SanitizeStations(z, result))
  {
    var raw :| Fetched(raw) && p.fingerprint.value == SetFingerprint(h, raw) && ViewsFrom(raw, p.stations);
    if result != [] {
      ListsEverything(collate, p.stations, result);
    }
    assert DistinctIds(result);
    SanitizedDistinct(z, result);
    forall i | 0 <= i < |SanitizeStations(z, result)| ensures HasView(raw, ViewOf(SanitizeStations(z, result)[i])) {
      SurvivorView(raw, p.stations, z, result, i);
    }
  }

  lemma SurvivorView(raw: seq<Station>, written: seq<Station>, z: Sanitizers, result: seq<Station>, i: nat)
    requires Fetched(raw) && ViewsFrom(raw, written) && i < |SanitizeStations(z, result)|
    requires result == [] || multiset(result) == multiset(Map(written, RowToStation))
    ensures HasView(raw, ViewOf(SanitizeStations(z, result)[i]))
  {
    SanitizedStems(z, result, i);
    var k :| 0 <= k < |result| && Some(SanitizeStations(z, result)[i]) == SanitizeStation(z, result[k]);
    var decoded := Map(written, RowToStation);
    SameElements(result, decoded);
    assert result[k] in decoded;
    var j :| 0 <= j < |decoded| && decoded[j] == result[k];
    ViewSurvives(raw, written[j], z, SanitizeStations(z, result)[i]);
  }

  /** Reading a row and sanitising it does not change what the index sees, lists being trimmed already. */
  lemma ViewSurvives(raw: seq<Station>, s: Station, z: Sanitizers, out: Station)
    requires Fetched(raw) && HasView(raw, ViewOf(s)) && SanitizeStation(z, RowToStation(s)) == Some(out)
    ensures HasView(raw, ViewOf(out))
  {
    var k :| 0 <= k < |raw| && ViewOf(raw[k]) == ViewOf(s);
    assert CleanStation(raw[k]);
    SanitizeClean(s.languages);
    SanitizeClean(s.tags);
    assert ViewOf(out) == ViewOf(raw[k]);
  }

  /** The stations of a genuine payload are clean. */
  lemma GenuineIsClean(h: Hasher, p: Payload)
    requires Genuine(h, p)
    ensures CleanStations(p.stations) && DistinctIds(p.stations)
  {
    var raw :| Fetched(raw) && p.fingerprint.value == SetFingerprint(h, raw) && ViewsFrom(raw, p.stations);
    forall i | 0 <= i < |p.stations| ensures CleanStation(p.stations[i]) {
      assert HasView(raw, ViewOf(p.stations[i]));
    }
  }

  // ----- One key, one index -----

  /**
   Equal cache keys mean equal views: the order fingerprint fixes the ids in order,
   the set fingerprint fixes the fetched record of each id, and nothing that happens
   to a station afterwards changes its view.
   */
  lemma KeyDeterminesViews(h: Hasher, p: Payload, q: Payload)
    requires Lawful(h) && Genuine(h, p) && Genuine(h, q)
    requires ProcessedCacheKey(h, p) == ProcessedCacheKey(h, q)
    ensures Views(p.stations) == Views(q.stations)
  {
    var raw :| Fetched(raw) && p.fingerprint.value == SetFingerprint(h, raw) && ViewsFrom(raw, p.stations);
    var raw' :| Fetched(raw') && q.fingerprint.value == SetFingerprint(h, raw') && ViewsFrom(raw', q.stations);
    NewlineFreeViews(raw, p.stations);
    NewlineFreeViews(raw', q.stations);
    CacheKeyExact(h, p, q);
    SetFingerprintExact(h, raw, raw');
    SameElements(raw, raw');
    SameIdsSameViews(raw, raw', p.stations, q.stations);
  }

  lemma SameIdsSameViews(raw: seq<Station>, raw': seq<Station>, a: seq<Station>, b: seq<Station>)
    requires DistinctIds(raw) && forall s :: s in raw' ==> s in raw
    requires ViewsFrom(raw, a) && ViewsFrom(raw', b) && Ids(a) == Ids(b)
    ensures Views(a) == Views(b)
  {
    assert |a| == |Ids(a)| == |b|;
    forall i | 0 <= i < |a| ensures ViewOf(a[i]) == ViewOf(b[i]) {
      assert Ids(a)[i] == Ids(b)[i];
      assert HasView(raw, ViewOf(a[i])) && HasView(raw', ViewOf(b[i]));
      var k :| 0 <= k < |raw| && ViewOf(raw[k]) == ViewOf(a[i]);
      var l :| 0 <= l < |raw'| && ViewOf(raw'[l]) == ViewOf(b[i]);
      assert raw'[l] in raw;
      SameIdSameStation(raw, raw[k], raw'[l]);
    }
  }

  lemma NewlineFreeViews(raw: seq<Station>, stations: seq<Station>)
    requires NewlineFreeIds(raw) && ViewsFrom(raw, stations)
    ensures NewlineFreeIds(stations)
  {
    forall s | s in stations ensures '\n' !in s.id {
      var i :| 0 <= i < |stations| && stations[i] == s;
      assert HasView(raw, ViewOf(stations[i]));
      var k :| 0 <= k < |raw| && ViewOf(raw[k]) == ViewOf(s);
      assert raw[k] in raw;
    }
  }

  // ----- The cache -----

  datatype Entry = Entry(key: string, data: Processed)

  /** The entry was built for some genuine payload with its key. */
  ghost predicate Sound(h: Hasher, lower: string -> string, cache: Option<Entry>) {
    cache.Some? ==> exists p :: Genuine(h, p) && BuiltFor(h, lower, p, cache.value)
  }

  ghost predicate BuiltFor(h: Hasher, lower: string -> string, p: Payload, e: Entry) {
    e.key == ProcessedCacheKey(h, p) && e.data == Index(lower, Views(p.stations))
  }

  /** The guard under which a cached index is reused. */
  predicate Hit(cache: Option<Entry>, key: string, stations: seq<Station>) {
    && cache.Some?
    && cache.value.key == key
    && cache.value.data.stationCount == |stations|
    && stations != []
    && stations[0].id in cache.value.data.indexById
    && cache.value.data.indexById[stations[0].id] == 0
  }

  /** `ensure_processed`: the index returned, and the cache left behind. */
  ghost function EnsureProcessed(lower: string -> string, cache: Option<Entry>, key: string, stations: seq<Station>)
    : (Processed, Option<Entry>)
  {
    if Hit(cache, key, stations) then (cache.value.data, cache)
    else (Index(lower, Views(stations)), Some(Entry(key, Index(lower, Views(stations)))))
  }

  /** Hit or miss, the index returned is the one `build` would return on the given stations. */
  lemma CachedIndexIsRight(h: Hasher, lower: string -> string, cache: Option<Entry>, p: Payload)
    requires Lawful(h) && Genuine(h, p) && Sound(h, lower, cache)
    ensures var (data, cache') := EnsureProcessed(lower, cache, ProcessedCacheKey(h, p), p.stations);
            data == Index(lower, Views(p.stations)) && Sound(h, lower, cache')
  {
    if Hit(cache, ProcessedCacheKey(h, p), p.stations) {
      var q :| Genuine(h, q) && BuiltFor(h, lower, q, cache.value);
      KeyDeterminesViews(h, p, q);
    } else {
      var e := Entry(ProcessedCacheKey(h, p), Index(lower, Views(p.stations)));
      assert BuiltFor(h, lower, p, e);
    }
  }

  /** Without the derivation the key is not enough: a stale fingerprint can be shared by different views. */
  lemma KeyAloneIsNotEnough(h: Hasher, p: Payload, name: string)
    requires p.stations != [] && name != p.stations[0].name && p.fingerprint.Some?
    ensures var q := p.(stations := p.stations[0 := p.stations[0].(name := name)]);
            ProcessedCacheKey(h, p) == ProcessedCacheKey(h, q) && Views(p.stations) != Views(q.stations)
  {
    var q := p.(stations := p.stations[0 := p.stations[0].(name := name)]);
    assert Ids(p.stations) == Ids(q.stations);
    assert Views(p.stations)[0] != Views(q.stations)[0];
  }

  /** The next request for the same stations is served from the cache. */
  lemma SecondIsHit(lower: string -> string, cache: Option<Entry>, key: string, stations: seq<Station>)
    requires stations != [] && DistinctIds(stations)
    requires cache.Some? ==> cache.value.key != key
    ensures Hit(EnsureProcessed(lower, cache, key, stations).1, key, stations)
  {
    var vs := Views(stations);
    IdIndexExact(vs, stations[0].id);
    assert vs[0].id == stations[0].id;
  }
}
