/** Payload fingerprints (radio-service-rs/src/stations/fingerprint.rs). */
module Fingerprint {
  import opened Wrappers
  import opened Sequences
  import opened Text
  import opened Stations

  /** The digest and the JSON serialiser, with the laws the service relies on. */
  datatype Hasher = Hasher(digest: string -> string, serialize: Station -> string)

  ghost predicate Lawful(h: Hasher) {
    && (forall a, b :: h.digest(a) == h.digest(b) ==> a == b)
    && (forall a :: ':' !in h.digest(a))
    && (forall s, t :: h.serialize(s) == h.serialize(t) ==> s == t)
    && (forall s :: '\n' !in h.serialize(s))
  }

  function ById(): (Station, Station) -> bool {
    (a: Station, b: Station) => StrLe(a.id, b.id)
  }

  lemma ByIdIsTotalPreorder()
    ensures TotalPreorder(ById())
  {
    forall x: Station, y: Station
      ensures ById()(x, y) || ById()(y, x)
    {
      StrLeTotal(x.id, y.id);
    }
    forall x: Station, y: Station, z: Station | ById()(x, y) && ById()(y, z)
      ensures ById()(x, z)
    {
      StrLeTransitive(x.id, y.id, z.id);
    }
  }

  lemma ByIdSeparates(stations: seq<Station>)
    requires DistinctIds(stations)
    ensures Separates(ById(), stations)
  {
    forall i, j | 0 <= i < |stations| && 0 <= j < |stations|
                  && ById()(stations[i], stations[j]) && ById()(stations[j], stations[i])
      ensures stations[i] == stations[j]
    {
      StrLeAntisymmetric(stations[i].id, stations[j].id);
    }
  }

  function Serialized(h: Hasher, stations: seq<Station>): seq<string> {
    Map(stations, h.serialize)
  }

  /** Independent of the order of the list. */
  function SetFingerprint(h: Hasher, stations: seq<Station>): string {
    h.digest(Lines(Serialized(h, SortBy(stations, ById())), '\n'))
  }

  /** Depends on the order of the list, and on nothing but the ids. */
  function OrderFingerprint(h: Hasher, stations: seq<Station>): string {
    h.digest(Lines(Ids(stations), '\n'))
  }

  predicate NewlineFreeIds(stations: seq<Station>) {
    forall s :: s in stations ==> '\n' !in s.id
  }

  lemma LinesConcat(a: seq<string>, b: seq<string>, c: char)
    ensures Lines(a + b, c) == Lines(a, c) + Lines(b, c)
  {
    if a == [] {
      assert a + b == b;
    } else {
      assert (a + b)[1..] == a[1..] + b;
      LinesConcat(a[1..], b, c);
    }
  }

  /** The hasher is fed station by station. */
  method BuildStationsFingerprint(h: Hasher, stations: seq<Station>) returns (fp: string)
    ensures fp == SetFingerprint(h, stations)
  {
    var sorted := SortBy(stations, ById());
    var fed := "";
    for i := 0 to |sorted|
      invariant fed == Lines(Serialized(h, sorted[..i]), '\n')
    {
      assert Serialized(h, sorted[..i + 1]) == Serialized(h, sorted[..i]) + [h.serialize(sorted[i])];
      LinesConcat(Serialized(h, sorted[..i]), [h.serialize(sorted[i])], '\n');
      fed := fed + h.serialize(sorted[i]) + "\n";
    }
    assert sorted[..|sorted|] == sorted;
    fp := h.digest(fed);
  }

  method BuildStationsOrderFingerprint(h: Hasher, stations: seq<Station>) returns (fp: string)
    ensures fp == OrderFingerprint(h, stations)
  {
    var fed := "";
    for i := 0 to |stations|
      invariant fed == Lines(Ids(stations[..i]), '\n')
    {
      assert Ids(stations[..i + 1]) == Ids(stations[..i]) + [stations[i].id];
      LinesConcat(Ids(stations[..i]), [stations[i].id], '\n');
      fed := fed + stations[i].id + "\n";
    }
    assert stations[..|stations|] == stations;
    fp := h.digest(fed);
  }

  lemma MapInjective(h: Hasher, a: seq<Station>, b: seq<Station>)
    requires Lawful(h) && Serialized(h, a) == Serialized(h, b)
    ensures a == b
  {
    assert |a| == |Serialized(h, a)| == |b|;
    forall i | 0 <= i < |a| ensures a[i] == b[i] {
      assert h.serialize(a[i]) == Serialized(h, a)[i] == h.serialize(b[i]);
    }
  }

  /** Lists with distinct ids have one set fingerprint exactly when they are permutations. */
  lemma SetFingerprintExact(h: Hasher, a: seq<Station>, b: seq<Station>)
    requires Lawful(h) && DistinctIds(a)
    ensures SetFingerprint(h, a) == SetFingerprint(h, b) <==> multiset(a) == multiset(b)
  {
    var sa, sb := SortBy(a, ById()), SortBy(b, ById());
    if SetFingerprint(h, a) == SetFingerprint(h, b) {
      LinesInjective(Serialized(h, sa), Serialized(h, sb), '\n');
      MapInjective(h, sa, sb);
      assert multiset(a) == multiset(sa) == multiset(b);
    }
    if multiset(a) == multiset(b) {
      ByIdIsTotalPreorder();
      SortBySorted(a, ById());
      SortBySorted(b, ById());
      DistinctIdsRearranged(a, sa);
      ByIdSeparates(sa);
      SortedUnique(sa, sb, ById());
    }
  }

  /** Order fingerprints agree exactly when the id sequences are equal. */
  lemma OrderFingerprintExact(h: Hasher, a: seq<Station>, b: seq<Station>)
    requires Lawful(h) && NewlineFreeIds(a) && NewlineFreeIds(b)
    ensures OrderFingerprint(h, a) == OrderFingerprint(h, b) <==> Ids(a) == Ids(b)
  {
    if OrderFingerprint(h, a) == OrderFingerprint(h, b) {
      LinesInjective(Ids(a), Ids(b), '\n');
    }
  }

  /** `ensure_fingerprint` fills a missing fingerprint and leaves a present one alone. */
  function EnsureFingerprint(h: Hasher, p: Payload): Payload {
    if p.fingerprint == None then p.(fingerprint := Some(SetFingerprint(h, p.stations))) else p
  }

  /** `processed_cache_key`. */
  function ProcessedCacheKey(h: Hasher, p: Payload): string {
    (match p.fingerprint case Some(fp) => fp case None => "unknown") + ":" + OrderFingerprint(h, p.stations)
  }

  /** The cache key determines the stored fingerprint and the order of the ids. */
  lemma CacheKeyExact(h: Hasher, p: Payload, q: Payload)
    requires Lawful(h) && NewlineFreeIds(p.stations) && NewlineFreeIds(q.stations)
    requires p.fingerprint.Some? && q.fingerprint.Some?
    ensures ProcessedCacheKey(h, p) == ProcessedCacheKey(h, q)
            <==> p.fingerprint == q.fingerprint && Ids(p.stations) == Ids(q.stations)
  {
    OrderFingerprintExact(h, p.stations, q.stations);
    var fp, fq := p.fingerprint.value, q.fingerprint.value;
    var op, oq := OrderFingerprint(h, p.stations), OrderFingerprint(h, q.stations);
    assert ProcessedCacheKey(h, p) == fp + [':'] + op;
    assert ProcessedCacheKey(h, q) == fq + [':'] + oq;
    if ProcessedCacheKey(h, p) == ProcessedCacheKey(h, q) {
      LastSeparatorUnique(fp, op, fq, oq, ':');
    }
  }
}
