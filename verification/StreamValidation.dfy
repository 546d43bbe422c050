/**
 The stream validator (radio-service-rs/src/stream_validation.rs): probes finish
 in any order, and verdicts are remembered in a database table. The probe of one
 URL is a function parameter; everything around it is modelled.
 */
module StreamValidation {
  import opened Wrappers
  import opened Sequences
  import opened Text
  import opened Stations

  /** The verdict of `validate_station` on a URL. */
  datatype Verdict = Stream(finalUrl: string, forceHls: bool) | Bad(reason: string)

  datatype Config = Config(cacheTtlSeconds: nat, failureTtlSeconds: nat)

  datatype CacheEntry = CacheEntry(
    ok: bool, reason: Option<string>, finalUrl: Option<string>, forceHls: bool,
    validatedAt: int, signature: Option<string>, ttlSeconds: Option<nat>)

  datatype Update = Update(key: string, entry: CacheEntry)

  datatype Outcome =
    | Accepted(idx: nat, station: Station, update: Option<Update>)
    | Dropped(reason: string, update: Option<Update>)

  /** A surviving station with its position in the input. */
  datatype Kept = Kept(idx: nat, station: Station)

  // ----- One station -----

  /** `build_station_signature`. */
  function Signature(s: Station): string {
    s.streamUrl + "|" + (match s.lastChangedAt case Some(stamp) => stamp case None => "")
  }

  function Rewrite(s: Station, finalUrl: Option<string>, forceHls: bool): Station {
    s.(streamUrl := match finalUrl case Some(u) => u case None => s.streamUrl, hls := s.hls || forceHls)
  }

  predicate IsValid(e: CacheEntry, now: int, signature: string, cfg: Config) {
    var ttl := match e.ttlSeconds case Some(t) => t case None => cfg.cacheTtlSeconds;
    now - e.validatedAt <= ttl * 1000 && e.signature == Some(signature)
  }

  function Success(v: Verdict, signature: string, at: int, cfg: Config): CacheEntry
    requires v.Stream?
  {
    CacheEntry(true, None, Some(v.finalUrl), v.forceHls, at, Some(signature), Some(cfg.cacheTtlSeconds))
  }

  function Failure(reason: string, signature: string, at: int, cfg: Config): CacheEntry {
    CacheEntry(false, Some(reason), None, false, at, Some(signature), Some(cfg.failureTtlSeconds))
  }

  /** `process_station`: answer from a valid cache entry, else probe. */
  function Process(probe: string -> Verdict, cfg: Config, idx: nat, s: Station, cached: Option<CacheEntry>,
                   now: int, at: int): Outcome
  {
    if cached.Some? && IsValid(cached.value, now, Signature(s), cfg) then
      if cached.value.ok then Accepted(idx, Rewrite(s, cached.value.finalUrl, cached.value.forceHls), None)
      else Dropped(match cached.value.reason case Some(r) => r case None => "invalid", None)
    else
      match probe(s.streamUrl)
      case Stream(finalUrl, forceHls) =>
        Accepted(idx, Rewrite(s, Some(finalUrl), forceHls),
                 Some(Update(finalUrl, Success(Stream(finalUrl, forceHls), Signature(s), at, cfg))))
      case Bad(reason) =>
        Dropped(reason, Some(Update(s.streamUrl, Failure(reason, Signature(s), at, cfg))))
  }

  // ----- A whole list -----

  /** One validation: its input, its clock, and the time each probe finishes. */
  datatype Job = Job(stations: seq<Station>, now: int, finishedAt: nat -> int, writtenAt: int)

  function Cached(cache: map<string, CacheEntry>, url: string): Option<CacheEntry> {
    if url in cache then Some(cache[url]) else None
  }

  function OutcomeAt(probe: string -> Verdict, cfg: Config, job: Job, cache: map<string, CacheEntry>, i: nat): Outcome
    requires i < |job.stations|
  {
    var s := job.stations[i];
    Process(probe, cfg, i, s, Cached(cache, s.streamUrl), job.now, job.finishedAt(i))
  }

  /** The outcomes in the order of the input. */
  function InOrder(probe: string -> Verdict, cfg: Config, job: Job, cache: map<string, CacheEntry>): (r: seq<Outcome>)
    ensures |r| == |job.stations|
    ensures forall i :: 0 <= i < |r| ==> r[i] == OutcomeAt(probe, cfg, job, cache, i)
  {
    seq(|job.stations|, i requires 0 <= i < |job.stations| => OutcomeAt(probe, cfg, job, cache, i))
  }

  function AcceptedPairs(outcomes: seq<Outcome>): seq<Kept> {
    if outcomes == [] then []
    else
      var front := AcceptedPairs(outcomes[..|outcomes| - 1]);
      match outcomes[|outcomes| - 1]
      case Accepted(idx, station, _) => front + [Kept(idx, station)]
      case Dropped(_, _) => front
  }

  function KeptStations(pairs: seq<Kept>): (r: seq<Station>)
    ensures |r| == |pairs|
  {
    Map(pairs, (k: Kept) => k.station)
  }

  function IsDropped(): Outcome -> bool {
    (o: Outcome) => o.Dropped?
  }

  function DroppedFor(reason: string): Outcome -> bool {
    (o: Outcome) => o.Dropped? && o.reason == reason
  }

  /** Every reason that occurs, with the number of stations dropped for it. */
  function Reasons(outcomes: seq<Outcome>): map<string, nat> {
    if outcomes == [] then map[]
    else
      var front := Reasons(outcomes[..|outcomes| - 1]);
      match outcomes[|outcomes| - 1]
      case Accepted(_, _, _) => front
      case Dropped(reason, _) => front[reason := (if reason in front then front[reason] else 0) + 1]
  }

  datatype Report = Report(stations: seq<Station>, dropped: nat, reasons: map<string, nat>)

  /** What a validation has to report: the in-order filter-map of its input, and the drops. */
  function Expected(outcomes: seq<Outcome>): Report {
    Report(KeptStations(AcceptedPairs(outcomes)), Count(outcomes, IsDropped()), Reasons(outcomes))
  }

  // ----- The order of completion does not matter -----

  lemma {:induction false} ReasonsExact(outcomes: seq<Outcome>, reason: string)
    ensures reason in Reasons(outcomes) <==> Count(outcomes, DroppedFor(reason)) > 0
    ensures reason in Reasons(outcomes) ==> Reasons(outcomes)[reason] == Count(outcomes, DroppedFor(reason))
  {
    if outcomes != [] {
      ReasonsExact(outcomes[..|outcomes| - 1], reason);
    }
  }

  lemma ReasonsRearranged(a: seq<Outcome>, b: seq<Outcome>)
    requires multiset(a) == multiset(b)
    ensures Reasons(a) == Reasons(b)
  {
    forall reason
      ensures reason in Reasons(a) <==> reason in Reasons(b)
      ensures reason in Reasons(a) ==> Reasons(a)[reason] == Reasons(b)[reason]
    {
      ReasonsExact(a, reason);
      ReasonsExact(b, reason);
      CountRearranged(a, b, DroppedFor(reason));
    }
  }

  lemma {:induction false} PairsConcat(a: seq<Outcome>, b: seq<Outcome>)
    ensures AcceptedPairs(a + b) == AcceptedPairs(a) + AcceptedPairs(b)
  {
    if b == [] {
      assert a + b == a;
    } else {
      assert (a + b)[..|a + b| - 1] == a + b[..|b| - 1];
      PairsConcat(a, b[..|b| - 1]);
    }
  }

  lemma PairsAround(a: seq<Outcome>, o: Outcome, b: seq<Outcome>)
    ensures multiset(AcceptedPairs(a + ([o] + b))) == multiset(AcceptedPairs(a + b)) + multiset(AcceptedPairs([o]))
  {
    PairsConcat(a, [o] + b);
    PairsConcat([o], b);
    PairsConcat(a, b);
  }

  lemma {:induction false} PairsRearranged(a: seq<Outcome>, b: seq<Outcome>)
    requires multiset(a) == multiset(b)
    ensures multiset(AcceptedPairs(a)) == multiset(AcceptedPairs(b))
    decreases |a|
  {
    if a == [] {
      SameElements(a, b);
    } else {
      assert a[0] in multiset(a);
      var i := IndexIn(b, a[0]);
      SameRest(a, b, i);
      assert a == a[..0] + ([a[0]] + a[1..]) && b == b[..i] + ([b[i]] + b[i + 1..]);
      PairsAround(a[..0], a[0], a[1..]);
      PairsAround(b[..i], b[i], b[i + 1..]);
      PairsRearranged(a[..0] + a[1..], b[..i] + b[i + 1..]);
    }
  }

  /** Each outcome of a job carries the position of its station. */
  ghost predicate Numbered(outcomes: seq<Outcome>) {
    forall i :: 0 <= i < |outcomes| && outcomes[i].Accepted? ==> outcomes[i].idx == i
  }

  function ByIdx(): (Kept, Kept) -> bool {
    (a: Kept, b: Kept) => a.idx <= b.idx
  }

  /** Positions grow, and stay below `n`. */
  ghost predicate Increasing(kept: seq<Kept>, n: nat) {
    && (forall i :: 0 <= i < |kept| ==> kept[i].idx < n)
    && (forall i, j :: 0 <= i < j < |kept| ==> kept[i].idx < kept[j].idx)
  }

  lemma {:induction false} PairsIncreasing(outcomes: seq<Outcome>)
    requires Numbered(outcomes)
    ensures Increasing(AcceptedPairs(outcomes), |outcomes|)
  {
    if outcomes != [] {
      var n := |outcomes| - 1;
      PairsIncreasing(outcomes[..n]);
      var front := AcceptedPairs(outcomes[..n]);
      match outcomes[n]
      case Accepted(idx, station, _) => IncreasingSnoc(front, Kept(idx, station), n);
      case Dropped(_, _) => assert Increasing(front, n + 1);
    }
  }

  lemma IncreasingSnoc(front: seq<Kept>, last: Kept, n: nat)
    requires Increasing(front, n) && last.idx == n
    ensures Increasing(front + [last], n + 1)
  {
  }

  /** In whatever order the outcomes arrive, sorting the survivors restores the input order. */
  lemma ArrivalOrderIrrelevant(arrived: seq<Outcome>, inOrder: seq<Outcome>)
    requires multiset(arrived) == multiset(inOrder) && Numbered(inOrder)
    ensures SortBy(AcceptedPairs(arrived), ByIdx()) == AcceptedPairs(inOrder)
  {
    PairsRearranged(arrived, inOrder);
    PairsIncreasing(inOrder);
    SortBySorted(AcceptedPairs(arrived), ByIdx());
    SortedUnique(AcceptedPairs(inOrder), SortBy(AcceptedPairs(arrived), ByIdx()), ByIdx());
  }

  // ----- Conservation -----

  lemma {:induction false} AcceptedPlusDropped(outcomes: seq<Outcome>)
    ensures |AcceptedPairs(outcomes)| + Count(outcomes, IsDropped()) == |outcomes|
  {
    if outcomes != [] {
      AcceptedPlusDropped(outcomes[..|outcomes| - 1]);
    }
  }

  ghost function Total(m: map<string, nat>): nat {
    if m == map[] then 0
    else
      var k :| k in m;
      m[k] + Total(m - {k})
  }

  lemma {:induction false} TotalSplit(m: map<string, nat>, k: string)
    requires k in m
    ensures Total(m) == m[k] + Total(m - {k})
    decreases m
  {
    var j :| j in m && Total(m) == m[j] + Total(m - {j});
    if j != k {
      TotalSplit(m - {j}, k);
      TotalSplit(m - {k}, j);
      assert m - {j} - {k} == m - {k} - {j};
    }
  }

  /** The reason counts add up to the number of drops. */
  lemma {:induction false} ReasonsAddUp(outcomes: seq<Outcome>)
    ensures Total(Reasons(outcomes)) == Count(outcomes, IsDropped())
  {
    if outcomes != [] {
      var front := Reasons(outcomes[..|outcomes| - 1]);
      ReasonsAddUp(outcomes[..|outcomes| - 1]);
      match outcomes[|outcomes| - 1]
      case Accepted(_, _, _) =>
      case Dropped(reason, _) =>
        var all := Reasons(outcomes);
        TotalSplit(all, reason);
        assert all - {reason} == front - {reason};
        if reason in front {
          TotalSplit(front, reason);
        } else {
          assert front - {reason} == front;
        }
    }
  }

  /** No station is lost or counted twice. */
  lemma Conservation(outcomes: seq<Outcome>)
    ensures var r := Expected(outcomes);
            |r.stations| + r.dropped == |outcomes| && Total(r.reasons) == r.dropped
  {
    AcceptedPlusDropped(outcomes);
    ReasonsAddUp(outcomes);
  }

  // ----- The cache table -----

  datatype Row = Row(entry: CacheEntry, expiresAt: int)

  /** `load_cache`: the unexpired rows for the wanted URLs. */
  function Load(rows: map<string, Row>, stations: seq<Station>, now: int): map<string, CacheEntry> {
    map url | url in rows && rows[url].expiresAt > now && (exists s :: s in stations && s.streamUrl == url)
      :: rows[url].entry
  }

  function UpdateOf(o: Outcome): Option<Update> {
    o.update
  }

  /** Some outcome asked for this entry to be stored. */
  predicate Requested(outcomes: seq<Outcome>, key: string, e: CacheEntry) {
    exists i :: 0 <= i < |outcomes| && UpdateOf(outcomes[i]) == Some(Update(key, e))
  }

  /** When several outcomes ask for one key, the one that arrives last wins. */
  ghost predicate Winners(outcomes: seq<Outcome>, updates: map<string, CacheEntry>) {
    && (forall key :: key in updates ==> Requested(outcomes, key, updates[key]))
    && (forall key, e :: Requested(outcomes, key, e) ==> key in updates)
  }

  function Lifetime(e: CacheEntry, cfg: Config): nat {
    match e.ttlSeconds case Some(t) => t case None => if e.ok then cfg.cacheTtlSeconds else cfg.failureTtlSeconds
  }

  /** `write_cache`. */
  function Store(rows: map<string, Row>, updates: map<string, CacheEntry>, cfg: Config, at: int): map<string, Row> {
    rows + map key | key in updates :: Row(updates[key], at + Lifetime(updates[key], cfg) * 1000)
  }

  function Outcomes(probe: string -> Verdict, cfg: Config, rows: map<string, Row>, job: Job): seq<Outcome> {
    InOrder(probe, cfg, job, Load(rows, job.stations, job.now))
  }

  /** One validation, as it changes the table. */
  ghost predicate Step(probe: string -> Verdict, cfg: Config, rows: map<string, Row>, job: Job, rows': map<string, Row>) {
    exists updates ::
      Winners(Outcomes(probe, cfg, rows, job), updates) && rows' == Store(rows, updates, cfg, job.writtenAt)
  }

  /** The report of a validation that starts from these rows. */
  function ReportOf(probe: string -> Verdict, cfg: Config, rows: map<string, Row>, job: Job): Report {
    Expected(Outcomes(probe, cfg, rows, job))
  }

  // ----- The validator -----

  class StreamValidator {
    const enabled: bool
    const cfg: Config
    /** The rows of `radio_stream_validation_cache`. */
    var rows: map<string, Row>

    constructor (enabled: bool, cfg: Config)
      ensures this.enabled == enabled && this.cfg == cfg && rows == map[]
    {
      this.enabled, this.cfg := enabled, cfg;
      rows := map[];
    }

    /** `buffer_unordered`: every station is processed, in an order nobody controls. */
    method ProbeAll(probe: string -> Verdict, job: Job) returns (arrived: seq<Outcome>)
      ensures multiset(arrived) == multiset(Outcomes(probe, cfg, rows, job))
    {
      var cache := Load(rows, job.stations, job.now);
      ghost var all := InOrder(probe, cfg, job, cache);
      var pending: seq<nat> := seq(|job.stations|, i => i);
      PickAll(all, pending);
      arrived := [];
      while pending != []
        invariant Below(pending, |job.stations|)
        invariant multiset(arrived) + multiset(Pick(all, pending)) == multiset(all)
        decreases |pending|
      {
        var k :| 0 <= k < |pending|;
        PickOne(all, arrived, pending, k);
        var outcome := OutcomeAt(probe, cfg, job, cache, pending[k]);
        arrived, pending := arrived + [outcome], pending[..k] + pending[k + 1..];
      }
    }

    /**
     `validate`: whatever the order of completion, the report is the one expected
     of the stations in order, and the table takes a step. A disabled validator
     lets everything through.
     */
    method Validate(probe: string -> Verdict, job: Job) returns (r: Report)
      modifies this
      ensures enabled ==> r == ReportOf(probe, cfg, old(rows), job) && Step(probe, cfg, old(rows), job, rows)
      ensures enabled && old(rows) == map[] ==> ReportsProbes(probe, job.stations, r)
      ensures !enabled ==> r == Report(job.stations, 0, map[]) && rows == old(rows)
    {
      if !enabled {
        return Report(job.stations, 0, map[]);
      }
      FreshReport(probe, cfg, job);
      ghost var inOrder := Outcomes(probe, cfg, rows, job);
      var arrived := ProbeAll(probe, job);
      var accepted, dropped, reasons, updates := Tally(arrived);
      ArrivalOrderIrrelevant(arrived, inOrder);
      CountRearranged(arrived, inOrder, IsDropped());
      ReasonsRearranged(arrived, inOrder);
      WinnersRearranged(arrived, inOrder, updates);
      r := Report(KeptStations(SortBy(accepted, ByIdx())), dropped, reasons);
      rows := Store(rows, updates, cfg, job.writtenAt);
    }
  }

  predicate Below(positions: seq<nat>, n: nat) {
    forall k :: 0 <= k < |positions| ==> positions[k] < n
  }

  /** The elements at these positions. */
  function Pick<T>(all: seq<T>, positions: seq<nat>): (r: seq<T>)
    requires Below(positions, |all|)
    ensures |r| == |positions| && forall k :: 0 <= k < |r| ==> r[k] == all[positions[k]]
  {
    seq(|positions|, k requires 0 <= k < |positions| => all[positions[k]])
  }

  lemma PickAll<T>(all: seq<T>, positions: seq<nat>)
    requires |positions| == |all| && forall k :: 0 <= k < |all| ==> positions[k] == k
    ensures Below(positions, |all|) && Pick(all, positions) == all
  {
  }

  /** Taking one of the pending elements loses nothing. */
  lemma PickOne<T>(all: seq<T>, taken: seq<T>, pending: seq<nat>, k: nat)
    requires Below(pending, |all|) && k < |pending|
    ensures var rest := pending[..k] + pending[k + 1..];
            && Below(rest, |all|)
            && multiset(taken + [all[pending[k]]]) + multiset(Pick(all, rest)) == multiset(taken) + multiset(Pick(all, pending))
  {
    var picked := Pick(all, pending);
    var rest := pending[..k] + pending[k + 1..];
    assert Pick(all, rest) == picked[..k] + picked[k + 1..];
    assert picked == picked[..k] + ([picked[k]] + picked[k + 1..]);
  }

  /** The loop of `validate` over the outcomes as they arrived. */
  method Tally(arrived: seq<Outcome>)
    returns (accepted: seq<Kept>, dropped: nat, reasons: map<string, nat>, updates: map<string, CacheEntry>)
    ensures accepted == AcceptedPairs(arrived)
    ensures dropped == Count(arrived, IsDropped())
    ensures reasons == Reasons(arrived)
    ensures Winners(arrived, updates)
  {
    accepted, dropped, reasons, updates := [], 0, map[], map[];
    for k := 0 to |arrived|
      invariant accepted == AcceptedPairs(arrived[..k])
      invariant dropped == Count(arrived[..k], IsDropped())
      invariant reasons == Reasons(arrived[..k])
      invariant Winners(arrived[..k], updates)
    {
      assert arrived[..k + 1][..k] == arrived[..k];
      WinnersStep(arrived, k, updates);
      if arrived[k].update.Some? {
        var update := arrived[k].update.value;
        updates := updates[update.key := update.entry];
      }
      match arrived[k] {
        case Accepted(idx, station, _) =>
          accepted := accepted + [Kept(idx, station)];
        case Dropped(reason, _) =>
          reasons := reasons[reason := (if reason in reasons then reasons[reason] else 0) + 1];
          dropped := dropped + 1;
      }
    }
    assert arrived[..|arrived|] == arrived;
  }

  lemma RequestedStep(arrived: seq<Outcome>, k: nat, key: string, e: CacheEntry)
    requires k < |arrived|
    ensures Requested(arrived[..k + 1], key, e)
            <==> Requested(arrived[..k], key, e) || UpdateOf(arrived[k]) == Some(Update(key, e))
  {
    var front, all := arrived[..k], arrived[..k + 1];
    if Requested(front, key, e) {
      var i :| 0 <= i < |front| && UpdateOf(front[i]) == Some(Update(key, e));
      assert UpdateOf(all[i]) == Some(Update(key, e));
    }
    if UpdateOf(arrived[k]) == Some(Update(key, e)) {
      assert UpdateOf(all[k]) == Some(Update(key, e));
    }
    if Requested(all, key, e) {
      var i :| 0 <= i < |all| && UpdateOf(all[i]) == Some(Update(key, e));
      assert i < k ==> UpdateOf(front[i]) == Some(Update(key, e));
    }
  }

  lemma WinnersStep(arrived: seq<Outcome>, k: nat, updates: map<string, CacheEntry>)
    requires k < |arrived| && Winners(arrived[..k], updates)
    ensures Winners(arrived[..k + 1],
                    match arrived[k].update case Some(u) => updates[u.key := u.entry] case None => updates)
  {
    var all := arrived[..k + 1];
    forall key: string, e: CacheEntry
      ensures Requested(all, key, e) <==> Requested(arrived[..k], key, e) || UpdateOf(arrived[k]) == Some(Update(key, e))
    {
      RequestedStep(arrived, k, key, e);
    }
  }

  lemma WinnersRearranged(a: seq<Outcome>, b: seq<Outcome>, updates: map<string, CacheEntry>)
    requires multiset(a) == multiset(b) && Winners(a, updates)
    ensures Winners(b, updates)
  {
    SameElements(a, b);
    forall key, e ensures Requested(a, key, e) <==> Requested(b, key, e) {
      RequestedRearranged(a, b, key, e);
      RequestedRearranged(b, a, key, e);
    }
  }

  lemma RequestedRearranged(a: seq<Outcome>, b: seq<Outcome>, key: string, e: CacheEntry)
    requires forall o :: o in a ==> o in b
    ensures Requested(a, key, e) ==> Requested(b, key, e)
  {
    if Requested(a, key, e) {
      var i :| 0 <= i < |a| && UpdateOf(a[i]) == Some(Update(key, e));
      assert a[i] in b;
      var j :| 0 <= j < |b| && b[j] == a[i];
      assert UpdateOf(b[j]) == Some(Update(key, e));
    }
  }

  // ----- The cache changes nothing -----

  /** The entry holds the verdict of the probe on this URL. */
  predicate HoldsVerdict(probe: string -> Verdict, e: CacheEntry, url: string) {
    match probe(url)
    case Stream(finalUrl, forceHls) => e.ok && e.finalUrl == Some(finalUrl) && e.forceHls == forceHls
    case Bad(reason) => !e.ok && e.reason == Some(reason)
  }

  /** The entry records the verdict of the probe on the URL its signature starts with. */
  ghost predicate Recorded(probe: string -> Verdict, e: CacheEntry, s: Station) {
    e.signature == Some(Signature(s)) && HoldsVerdict(probe, e, s.streamUrl)
  }

  /** Every row stems from a station of the universe. */
  ghost predicate Honest(probe: string -> Verdict, universe: set<Station>, rows: map<string, Row>) {
    forall key :: key in rows ==> exists s :: s in universe && Recorded(probe, rows[key].entry, s)
  }

  /** Two stations of the universe with one signature have one URL. */
  ghost predicate SignaturesSeparate(universe: set<Station>) {
    forall s, t :: s in universe && t in universe && Signature(s) == Signature(t) ==> s.streamUrl == t.streamUrl
  }

  /** A change stamp without the separator makes the signature unambiguous. */
  lemma BarFreeStampsSeparate(universe: set<Station>)
    requires forall s :: s in universe && s.lastChangedAt.Some? ==> '|' !in s.lastChangedAt.value
    ensures SignaturesSeparate(universe)
  {
    forall s, t | s in universe && t in universe && Signature(s) == Signature(t)
      ensures s.streamUrl == t.streamUrl
    {
      var a := match s.lastChangedAt case Some(stamp) => stamp case None => "";
      var b := match t.lastChangedAt case Some(stamp) => stamp case None => "";
      assert s.streamUrl + ['|'] + a == Signature(s) && t.streamUrl + ['|'] + b == Signature(t);
      LastSeparatorUnique(s.streamUrl, a, t.streamUrl, b, '|');
    }
  }

  /** Without bars in the change stamps, a signature tells URL and stamp. */
  lemma SignatureTells(s: Station, t: Station)
    requires s.lastChangedAt.Some? ==> '|' !in s.lastChangedAt.value
    requires t.lastChangedAt.Some? ==> '|' !in t.lastChangedAt.value
    ensures Signature(s) == Signature(t)
            <==> && s.streamUrl == t.streamUrl
                 && (s.lastChangedAt == t.lastChangedAt || {s.lastChangedAt, t.lastChangedAt} == {None, Some("")})
  {
    var a := match s.lastChangedAt case Some(stamp) => stamp case None => "";
    var b := match t.lastChangedAt case Some(stamp) => stamp case None => "";
    assert s.streamUrl + ['|'] + a == Signature(s) && t.streamUrl + ['|'] + b == Signature(t);
    if Signature(s) == Signature(t) {
      LastSeparatorUnique(s.streamUrl, a, t.streamUrl, b, '|');
      if s.lastChangedAt != t.lastChangedAt {
        assert None in {s.lastChangedAt, t.lastChangedAt};
      }
    }
    if {s.lastChangedAt, t.lastChangedAt} == {None, Some("")} {
      assert s.lastChangedAt in {None, Some("")} && t.lastChangedAt in {None, Some("")};
    }
  }

  ghost predicate Within(universe: set<Station>, job: Job) {
    forall s :: s in job.stations ==> s in universe
  }

  /** Apart from the update, the outcome is the one without a cache. */
  predicate SameVerdict(a: Outcome, b: Outcome) {
    match (a, b)
    case (Accepted(i, s, _), Accepted(j, t, _)) => i == j && s == t
    case (Dropped(r, _), Dropped(q, _)) => r == q
    case _ => false
  }

  lemma CachedVerdict(probe: string -> Verdict, cfg: Config, universe: set<Station>, rows: map<string, Row>, job: Job, i: nat)
    requires SignaturesSeparate(universe) && Honest(probe, universe, rows) && Within(universe, job)
    requires i < |job.stations|
    ensures SameVerdict(OutcomeAt(probe, cfg, job, Load(rows, job.stations, job.now), i),
                        OutcomeAt(probe, cfg, job, map[], i))
  {
    var s := job.stations[i];
    var cached := Cached(Load(rows, job.stations, job.now), s.streamUrl);
    if cached.Some? && IsValid(cached.value, job.now, Signature(s), cfg) {
      var t :| t in universe && Recorded(probe, rows[s.streamUrl].entry, t);
      assert Signature(t) == Signature(s) && s in universe;
    }
  }

  lemma {:induction false} SameVerdictsSameReport(a: seq<Outcome>, b: seq<Outcome>)
    requires |a| == |b| && forall i :: 0 <= i < |a| ==> SameVerdict(a[i], b[i])
    ensures Expected(a) == Expected(b)
    ensures AcceptedPairs(a) == AcceptedPairs(b)
  {
    if a != [] {
      SameVerdictsSameReport(a[..|a| - 1], b[..|b| - 1]);
      assert SameVerdict(a[|a| - 1], b[|b| - 1]);
    }
  }

  /** With honest rows, a validation reports what it would report with no rows at all. */
  lemma HonestRowsChangeNothing(probe: string -> Verdict, cfg: Config, universe: set<Station>,
                                rows: map<string, Row>, job: Job)
    requires SignaturesSeparate(universe) && Honest(probe, universe, rows) && Within(universe, job)
    ensures ReportOf(probe, cfg, rows, job) == ReportOf(probe, cfg, map[], job)
  {
    var a, b := Outcomes(probe, cfg, rows, job), Outcomes(probe, cfg, map[], job);
    assert Load(map[], job.stations, job.now) == map[];
    forall i | 0 <= i < |a| ensures SameVerdict(a[i], b[i]) {
      CachedVerdict(probe, cfg, universe, rows, job, i);
    }
    SameVerdictsSameReport(a, b);
  }

  lemma UpdateIsRecorded(probe: string -> Verdict, cfg: Config, job: Job, cache: map<string, CacheEntry>,
                         i: nat, key: string, e: CacheEntry)
    requires i < |job.stations|
    requires UpdateOf(OutcomeAt(probe, cfg, job, cache, i)) == Some(Update(key, e))
    ensures Recorded(probe, e, job.stations[i])
  {
  }

  lemma StepStaysHonest(probe: string -> Verdict, cfg: Config, universe: set<Station>,
                        rows: map<string, Row>, job: Job, rows': map<string, Row>)
    requires Honest(probe, universe, rows) && Within(universe, job) && Step(probe, cfg, rows, job, rows')
    ensures Honest(probe, universe, rows')
  {
    var outcomes := Outcomes(probe, cfg, rows, job);
    var updates :| Winners(outcomes, updates) && rows' == Store(rows, updates, cfg, job.writtenAt);
    forall key | key in rows'
      ensures exists s :: s in universe && Recorded(probe, rows'[key].entry, s)
    {
      if key in updates {
        assert rows'[key].entry == updates[key];
        assert Requested(outcomes, key, updates[key]);
        var i :| 0 <= i < |outcomes| && UpdateOf(outcomes[i]) == Some(Update(key, updates[key]));
        UpdateIsRecorded(probe, cfg, job, Load(rows, job.stations, job.now), i, key, updates[key]);
        assert job.stations[i] in universe;
      } else {
        assert rows'[key] == rows[key];
      }
    }
  }

  /** A run of validations from an empty table. */
  ghost predicate Run(probe: string -> Verdict, cfg: Config, jobs: seq<Job>, tables: seq<map<string, Row>>) {
    && |tables| == |jobs| + 1
    && tables[0] == map[]
    && forall i :: 0 <= i < |jobs| ==> Step(probe, cfg, tables[i], jobs[i], tables[i + 1])
  }

  lemma {:induction false} RunStaysHonest(probe: string -> Verdict, cfg: Config, universe: set<Station>,
                                          jobs: seq<Job>, tables: seq<map<string, Row>>, n: nat)
    requires Run(probe, cfg, jobs, tables) && n <= |jobs|
    requires forall i :: 0 <= i < |jobs| ==> Within(universe, jobs[i])
    ensures Honest(probe, universe, tables[n])
  {
    if n > 0 {
      RunStaysHonest(probe, cfg, universe, jobs, tables, n - 1);
      StepStaysHonest(probe, cfg, universe, tables[n - 1], jobs[n - 1], tables[n]);
    }
  }

  /** Over every run, every validation reports what a validation without a cache would. */
  lemma CacheIsTransparent(probe: string -> Verdict, cfg: Config, universe: set<Station>,
                           jobs: seq<Job>, tables: seq<map<string, Row>>, n: nat)
    requires SignaturesSeparate(universe)
    requires Run(probe, cfg, jobs, tables) && n < |jobs|
    requires forall i :: 0 <= i < |jobs| ==> Within(universe, jobs[i])
    ensures ReportOf(probe, cfg, tables[n], jobs[n]) == ReportOf(probe, cfg, map[], jobs[n])
  {
    RunStaysHonest(probe, cfg, universe, jobs, tables, n);
    HonestRowsChangeNothing(probe, cfg, universe, tables[n], jobs[n]);
  }

  // ----- Servers that answer by URL need no law of stamps -----

  /** A stream that is found through a redirect is found at its own URL as well. */
  ghost predicate RedirectsAgree(probe: string -> Verdict) {
    forall url: string :: probe(url).Stream? ==> probe(probe(url).finalUrl) == probe(url)
  }

  /** Each row holds the verdict on the URL it is stored under. */
  ghost predicate OwnVerdicts(probe: string -> Verdict, rows: map<string, Row>) {
    forall key :: key in rows ==> HoldsVerdict(probe, rows[key].entry, key)
  }

  lemma OwnVerdictsChangeNothing(probe: string -> Verdict, cfg: Config, rows: map<string, Row>, job: Job)
    requires OwnVerdicts(probe, rows)
    ensures ReportOf(probe, cfg, rows, job) == ReportOf(probe, cfg, map[], job)
  {
    var a, b := Outcomes(probe, cfg, rows, job), Outcomes(probe, cfg, map[], job);
    assert Load(map[], job.stations, job.now) == map[];
    forall i | 0 <= i < |a| ensures SameVerdict(a[i], b[i]) {
      var url := job.stations[i].streamUrl;
      assert url in rows ==> HoldsVerdict(probe, rows[url].entry, url);
    }
    SameVerdictsSameReport(a, b);
  }

  lemma UpdateHoldsVerdict(probe: string -> Verdict, cfg: Config, job: Job, cache: map<string, CacheEntry>,
                           i: nat, key: string, e: CacheEntry)
    requires RedirectsAgree(probe) && i < |job.stations|
    requires UpdateOf(OutcomeAt(probe, cfg, job, cache, i)) == Some(Update(key, e))
    ensures HoldsVerdict(probe, e, key)
  {
    var url := job.stations[i].streamUrl;
    assert probe(url).Stream? ==> probe(probe(url).finalUrl) == probe(url);
  }

  lemma StepKeepsOwnVerdicts(probe: string -> Verdict, cfg: Config, rows: map<string, Row>, job: Job, rows': map<string, Row>)
    requires RedirectsAgree(probe) && OwnVerdicts(probe, rows) && Step(probe, cfg, rows, job, rows')
    ensures OwnVerdicts(probe, rows')
  {
    var outcomes := Outcomes(probe, cfg, rows, job);
    var updates :| Winners(outcomes, updates) && rows' == Store(rows, updates, cfg, job.writtenAt);
    forall key | key in rows' ensures HoldsVerdict(probe, rows'[key].entry, key) {
      if key in updates {
        assert rows'[key].entry == updates[key];
        assert Requested(outcomes, key, updates[key]);
        var i :| 0 <= i < |outcomes| && UpdateOf(outcomes[i]) == Some(Update(key, updates[key]));
        UpdateHoldsVerdict(probe, cfg, job, Load(rows, job.stations, job.now), i, key, updates[key]);
      } else {
        assert rows'[key] == rows[key];
      }
    }
  }

  lemma {:induction false} RunKeepsOwnVerdicts(probe: string -> Verdict, cfg: Config, jobs: seq<Job>,
                                               tables: seq<map<string, Row>>, n: nat)
    requires RedirectsAgree(probe) && Run(probe, cfg, jobs, tables) && n <= |jobs|
    ensures OwnVerdicts(probe, tables[n])
  {
    if n > 0 {
      RunKeepsOwnVerdicts(probe, cfg, jobs, tables, n - 1);
      StepKeepsOwnVerdicts(probe, cfg, tables[n - 1], jobs[n - 1], tables[n]);
    }
  }

  /**
   If streams found through redirects are found at their own URLs, then over every run,
   whatever the change stamps, every validation reports what one without a cache would.
   */
  lemma AgreeingRedirectsAreTransparent(probe: string -> Verdict, cfg: Config, jobs: seq<Job>,
                                        tables: seq<map<string, Row>>, n: nat)
    requires RedirectsAgree(probe) && Run(probe, cfg, jobs, tables) && n < |jobs|
    ensures ReportOf(probe, cfg, tables[n], jobs[n]) == ReportOf(probe, cfg, map[], jobs[n])
  {
    RunKeepsOwnVerdicts(probe, cfg, jobs, tables, n);
    OwnVerdictsChangeNothing(probe, cfg, tables[n], jobs[n]);
  }

  // ----- What a report says, in terms of the probe alone -----

  function FindsStream(probe: string -> Verdict): Station -> bool {
    (s: Station) => probe(s.streamUrl).Stream?
  }

  function Fails(probe: string -> Verdict): Station -> bool {
    (s: Station) => probe(s.streamUrl).Bad?
  }

  function FailsWith(probe: string -> Verdict, reason: string): Station -> bool {
    (s: Station) => probe(s.streamUrl) == Bad(reason)
  }

  /** The station with the URL its probe ended at, as an HLS stream if it was one or was found to be one. */
  function AtItsStream(probe: string -> Verdict): Station -> Station {
    (s: Station) =>
      match probe(s.streamUrl)
      case Stream(finalUrl, forceHls) => s.(streamUrl := finalUrl, hls := s.hls || forceHls)
      case Bad(_) => s
  }

  /**
   The stations are those whose probes found a stream, in order, each at the URL it
   was found at and otherwise unchanged; the others are dropped, and counted by the
   reasons their probes gave.
   */
  ghost predicate ReportsProbes(probe: string -> Verdict, stations: seq<Station>, r: Report) {
    && r.stations == Map(Filter(stations, FindsStream(probe)), AtItsStream(probe))
    && r.dropped == Count(stations, Fails(probe))
    && (forall reason :: reason in r.reasons <==> Count(stations, FailsWith(probe, reason)) > 0)
    && (forall reason :: reason in r.reasons ==> r.reasons[reason] == Count(stations, FailsWith(probe, reason)))
  }

  /** The outcome of one station when nothing is remembered. */
  predicate Fresh(probe: string -> Verdict, s: Station, o: Outcome) {
    match probe(s.streamUrl)
    case Stream(finalUrl, forceHls) => o.Accepted? && o.station == s.(streamUrl := finalUrl, hls := s.hls || forceHls)
    case Bad(reason) => o.Dropped? && o.reason == reason
  }

  predicate AllFresh(probe: string -> Verdict, stations: seq<Station>, outcomes: seq<Outcome>) {
    |stations| == |outcomes| && forall i :: 0 <= i < |stations| ==> Fresh(probe, stations[i], outcomes[i])
  }

  lemma FreshSnoc(probe: string -> Verdict, stations: seq<Station>, s: Station, o: Outcome)
    requires Fresh(probe, s, o)
    ensures Map(Filter(stations + [s], FindsStream(probe)), AtItsStream(probe))
            == Map(Filter(stations, FindsStream(probe)), AtItsStream(probe)) + if o.Accepted? then [o.station] else []
  {
    FilterSnoc(stations, s, FindsStream(probe));
    MapSnoc(Filter(stations, FindsStream(probe)), s, AtItsStream(probe));
  }

  lemma {:induction false} FreshStations(probe: string -> Verdict, stations: seq<Station>, outcomes: seq<Outcome>)
    requires AllFresh(probe, stations, outcomes)
    ensures KeptStations(AcceptedPairs(outcomes)) == Map(Filter(stations, FindsStream(probe)), AtItsStream(probe))
  {
    if stations != [] {
      var n := |stations| - 1;
      FreshFront(probe, stations, outcomes);
      FreshStations(probe, stations[..n], outcomes[..n]);
      KeptSnoc(outcomes[..n], outcomes[n]);
      FreshSnoc(probe, stations[..n], stations[n], outcomes[n]);
    }
  }

  lemma FreshFront(probe: string -> Verdict, stations: seq<Station>, outcomes: seq<Outcome>)
    requires AllFresh(probe, stations, outcomes) && stations != []
    ensures var n := |stations| - 1;
            && AllFresh(probe, stations[..n], outcomes[..n]) && Fresh(probe, stations[n], outcomes[n])
            && stations == stations[..n] + [stations[n]] && outcomes == outcomes[..n] + [outcomes[n]]
  {
  }

  lemma {:induction false} FreshDrops(probe: string -> Verdict, stations: seq<Station>, outcomes: seq<Outcome>, reason: string)
    requires AllFresh(probe, stations, outcomes)
    ensures Count(outcomes, IsDropped()) == Count(stations, Fails(probe))
    ensures Count(outcomes, DroppedFor(reason)) == Count(stations, FailsWith(probe, reason))
  {
    if stations != [] {
      var n := |stations| - 1;
      FreshDrops(probe, stations[..n], outcomes[..n], reason);
      assert Fresh(probe, stations[n], outcomes[n]);
    }
  }

  /** Without rows, a validation reports what the probes say. */
  lemma FreshReport(probe: string -> Verdict, cfg: Config, job: Job)
    ensures ReportsProbes(probe, job.stations, ReportOf(probe, cfg, map[], job))
  {
    var outcomes := Outcomes(probe, cfg, map[], job);
    assert Load(map[], job.stations, job.now) == map[];
    assert AllFresh(probe, job.stations, outcomes);
    FreshStations(probe, job.stations, outcomes);
    FreshDrops(probe, job.stations, outcomes, "");
    forall reason
      ensures Count(outcomes, DroppedFor(reason)) == Count(job.stations, FailsWith(probe, reason))
      ensures reason in Reasons(outcomes) <==> Count(outcomes, DroppedFor(reason)) > 0
      ensures reason in Reasons(outcomes) ==> Reasons(outcomes)[reason] == Count(outcomes, DroppedFor(reason))
    {
      FreshDrops(probe, job.stations, outcomes, reason);
      ReasonsExact(outcomes, reason);
    }
  }

  /**
   Over every run from an empty table, every validation reports what the probes say,
   if signatures tell URLs apart or redirects agree.
   */
  lemma RunReportsProbes(probe: string -> Verdict, cfg: Config, universe: set<Station>,
                         jobs: seq<Job>, tables: seq<map<string, Row>>, n: nat)
    requires SignaturesSeparate(universe) || RedirectsAgree(probe)
    requires Run(probe, cfg, jobs, tables) && n < |jobs|
    requires forall i :: 0 <= i < |jobs| ==> Within(universe, jobs[i])
    ensures ReportsProbes(probe, jobs[n].stations, ReportOf(probe, cfg, tables[n], jobs[n]))
  {
    FreshReport(probe, cfg, jobs[n]);
    if SignaturesSeparate(universe) {
      CacheIsTransparent(probe, cfg, universe, jobs, tables, n);
    } else {
      AgreeingRedirectsAreTransparent(probe, cfg, jobs, tables, n);
    }
  }

  // ----- When a remembered verdict is used -----

  /**
   A remembered verdict stands in for a probe exactly while it is no older than its
   lifetime and was given for the same signature.
   */
  lemma RememberedExactly(probe: string -> Verdict, cfg: Config, idx: nat, s: Station, e: CacheEntry, now: int, at: int)
    requires e.ttlSeconds.Some?
    ensures var o := Process(probe, cfg, idx, s, Some(e), now, at);
            var usable := now - e.validatedAt <= e.ttlSeconds.value * 1000 && e.signature == Some(Signature(s));
            && (!usable ==> o == Process(probe, cfg, idx, s, None, now, at))
            && (usable <==> o.update == None)
            && (usable ==> (o.Accepted? <==> e.ok))
  {
  }

  // ----- Exactly when the cache is transparent for every probe -----

  /** No run over stations of the universe, with any probe, ever shows that there is a cache. */
  ghost predicate Transparent(universe: set<Station>, cfg: Config) {
    forall probe: string -> Verdict, jobs: seq<Job>, tables: seq<map<string, Row>>, n: nat ::
      Run(probe, cfg, jobs, tables) && n < |jobs| && (forall i :: 0 <= i < |jobs| ==> Within(universe, jobs[i])) ==>
        ReportOf(probe, cfg, tables[n], jobs[n]) == ReportOf(probe, cfg, map[], jobs[n])
  }

  /**
   A probe that finds the stream at `from`, redirected to `to`, and nothing anywhere
   else: a server that serves `to` only to those it has redirected there.
   */
  function Redirect(from: string, to: string): string -> Verdict {
    (url: string) => if url == from then Stream(to, false) else Bad("network")
  }

  function AtOnce(stations: seq<Station>): Job {
    Job(stations, 0, (i: nat) => 0, 0)
  }

  /** The redirected station leaves a row under the other station's URL, with a matching signature. */
  function Misleading(s: Station, t: Station, cfg: Config): CacheEntry {
    Success(Stream(t.streamUrl, false), Signature(s), 0, cfg)
  }

  lemma MisleadingRun(s: Station, t: Station, cfg: Config)
    requires Signature(s) == Signature(t) && s.streamUrl != t.streamUrl && cfg.cacheTtlSeconds >= 1
    ensures var probe := Redirect(s.streamUrl, t.streamUrl);
            var rows := Store(map[], map[t.streamUrl := Misleading(s, t, cfg)], cfg, 0);
            && Run(probe, cfg, [AtOnce([s]), AtOnce([t])], [map[], rows, rows])
            && ReportOf(probe, cfg, rows, AtOnce([t])).dropped == 0
            && ReportOf(probe, cfg, map[], AtOnce([t])).dropped == 1
  {
    var probe := Redirect(s.streamUrl, t.streamUrl);
    var rows := Store(map[], map[t.streamUrl := Misleading(s, t, cfg)], cfg, 0);
    FirstStep(s, t, cfg);
    SecondStep(s, t, cfg);
    TwoSteps(probe, cfg, AtOnce([s]), AtOnce([t]), rows, rows);
    OneOutcome(Outcomes(probe, cfg, rows, AtOnce([t])));
    OneOutcome(Outcomes(probe, cfg, map[], AtOnce([t])));
  }

  lemma TwoSteps(probe: string -> Verdict, cfg: Config, first: Job, second: Job, rows: map<string, Row>, rows': map<string, Row>)
    requires Step(probe, cfg, map[], first, rows) && Step(probe, cfg, rows, second, rows')
    ensures Run(probe, cfg, [first, second], [map[], rows, rows'])
  {
  }

  lemma OneOutcome(outcomes: seq<Outcome>)
    requires |outcomes| == 1
    ensures Expected(outcomes).dropped == if outcomes[0].Dropped? then 1 else 0
  {
    assert outcomes[..0] == [];
  }

  lemma FirstStep(s: Station, t: Station, cfg: Config)
    ensures var probe := Redirect(s.streamUrl, t.streamUrl);
            Step(probe, cfg, map[], AtOnce([s]), Store(map[], map[t.streamUrl := Misleading(s, t, cfg)], cfg, 0))
  {
    var probe := Redirect(s.streamUrl, t.streamUrl);
    var updates := map[t.streamUrl := Misleading(s, t, cfg)];
    var outcomes := Outcomes(probe, cfg, map[], AtOnce([s]));
    assert UpdateOf(outcomes[0]) == Some(Update(t.streamUrl, Misleading(s, t, cfg)));
    assert Winners(outcomes, updates);
  }

  lemma SecondStep(s: Station, t: Station, cfg: Config)
    requires Signature(s) == Signature(t) && s.streamUrl != t.streamUrl && cfg.cacheTtlSeconds >= 1
    ensures var probe := Redirect(s.streamUrl, t.streamUrl);
            var rows := Store(map[], map[t.streamUrl := Misleading(s, t, cfg)], cfg, 0);
            && Step(probe, cfg, rows, AtOnce([t]), rows)
            && Outcomes(probe, cfg, rows, AtOnce([t]))[0].Accepted?
            && Outcomes(probe, cfg, map[], AtOnce([t]))[0].Dropped?
  {
    var probe := Redirect(s.streamUrl, t.streamUrl);
    var rows := Store(map[], map[t.streamUrl := Misleading(s, t, cfg)], cfg, 0);
    var outcomes := Outcomes(probe, cfg, rows, AtOnce([t]));
    assert t in [t];
    assert t.streamUrl in Load(rows, [t], 0);
    assert UpdateOf(outcomes[0]) == None;
    assert Winners(outcomes, map[]);
    assert Store(rows, map[], cfg, 0) == rows;
  }

  lemma NotTransparent(universe: set<Station>, cfg: Config, s: Station, t: Station)
    requires s in universe && t in universe && cfg.cacheTtlSeconds >= 1
    requires Signature(s) == Signature(t) && s.streamUrl != t.streamUrl
    ensures !Transparent(universe, cfg)
  {
    MisleadingRun(s, t, cfg);
    var probe := Redirect(s.streamUrl, t.streamUrl);
    var rows := Store(map[], map[t.streamUrl := Misleading(s, t, cfg)], cfg, 0);
    var jobs, tables := [AtOnce([s]), AtOnce([t])], [map[], rows, rows];
    assert Within(universe, jobs[0]) && Within(universe, jobs[1]);
    assert ReportOf(probe, cfg, tables[1], jobs[1]) != ReportOf(probe, cfg, map[], jobs[1]);
  }

  /**
   The cache is transparent for every probe exactly when signatures tell URLs apart,
   which change stamps without the separator guarantee.
   */
  lemma TransparentExactly(universe: set<Station>, cfg: Config)
    requires cfg.cacheTtlSeconds >= 1
    ensures Transparent(universe, cfg) <==> SignaturesSeparate(universe)
  {
    if SignaturesSeparate(universe) {
      forall probe: string -> Verdict, jobs: seq<Job>, tables: seq<map<string, Row>>, n: nat
        | Run(probe, cfg, jobs, tables) && n < |jobs| && (forall i :: 0 <= i < |jobs| ==> Within(universe, jobs[i]))
        ensures ReportOf(probe, cfg, tables[n], jobs[n]) == ReportOf(probe, cfg, map[], jobs[n])
      {
        CacheIsTransparent(probe, cfg, universe, jobs, tables, n);
      }
    } else {
      var s, t :| s in universe && t in universe && Signature(s) == Signature(t) && s.streamUrl != t.streamUrl;
      NotTransparent(universe, cfg, s, t);
    }
  }

  // ----- What validation leaves alone -----

  /** `after` lists stations of `before`, in order, with at most `streamUrl` and `hls` rewritten. */
  ghost predicate OnlyStreamsRewritten(before: seq<Station>, after: seq<Station>) {
    if after == [] then true
    else if before == [] then false
    else
      var b, a := before[|before| - 1], after[|after| - 1];
      || OnlyStreamsRewritten(before[..|before| - 1], after)
      || (a == b.(streamUrl := a.streamUrl, hls := a.hls)
          && OnlyStreamsRewritten(before[..|before| - 1], after[..|after| - 1]))
  }

  lemma ValidationOnlyRewritesStreams(probe: string -> Verdict, cfg: Config, rows: map<string, Row>, job: Job)
    ensures OnlyStreamsRewritten(job.stations, ReportOf(probe, cfg, rows, job).stations)
  {
    OutcomesRewrite(job.stations, Outcomes(probe, cfg, rows, job));
  }

  lemma {:induction false} UntouchedIsRewritten(stations: seq<Station>)
    ensures OnlyStreamsRewritten(stations, stations)
  {
    if stations != [] {
      UntouchedIsRewritten(stations[..|stations| - 1]);
    }
  }

  lemma RewrittenSnoc(before: seq<Station>, after: seq<Station>, b: Station, a: Station)
    requires OnlyStreamsRewritten(before, after)
    ensures OnlyStreamsRewritten(before + [b], after)
    ensures a == b.(streamUrl := a.streamUrl, hls := a.hls) ==> OnlyStreamsRewritten(before + [b], after + [a])
  {
    assert (before + [b])[..|before|] == before;
    assert (after + [a])[..|after|] == after;
  }

  lemma KeptSnoc(outcomes: seq<Outcome>, o: Outcome)
    ensures KeptStations(AcceptedPairs(outcomes + [o]))
            == KeptStations(AcceptedPairs(outcomes)) + if o.Accepted? then [o.station] else []
  {
    assert (outcomes + [o])[..|outcomes|] == outcomes;
  }

  predicate RewrittenFrom(s: Station, o: Outcome) {
    o.Accepted? ==> o.station == s.(streamUrl := o.station.streamUrl, hls := o.station.hls)
  }

  lemma {:induction false} OutcomesRewrite(stations: seq<Station>, outcomes: seq<Outcome>)
    requires |stations| == |outcomes| && forall i :: 0 <= i < |stations| ==> RewrittenFrom(stations[i], outcomes[i])
    ensures OnlyStreamsRewritten(stations, KeptStations(AcceptedPairs(outcomes)))
  {
    if stations != [] {
      var n := |stations| - 1;
      var s, o := stations[n], outcomes[n];
      OutcomesRewrite(stations[..n], outcomes[..n]);
      assert stations == stations[..n] + [s] && outcomes == outcomes[..n] + [o] && RewrittenFrom(s, o);
      KeptSnoc(outcomes[..n], o);
      var kept := KeptStations(AcceptedPairs(outcomes[..n]));
      RewrittenSnoc(stations[..n], kept, s, if o.Accepted? then o.station else s);
      assert kept + [] == kept;
    }
  }

  // ----- What is remembered, and for how long -----

  /** A verdict is stored under the URL it is about, with the time of the probe and the lifetime of its kind. */
  lemma StoredExactly(probe: string -> Verdict, cfg: Config, idx: nat, s: Station, now: int, at: int)
    ensures var o := Process(probe, cfg, idx, s, None, now, at);
            && o.update.Some?
            && (var (key, e) := (o.update.value.key, o.update.value.entry);
                && e.validatedAt == at && e.signature == Some(Signature(s)) && (e.ok <==> probe(s.streamUrl).Stream?)
                && key == (match probe(s.streamUrl) case Stream(finalUrl, _) => finalUrl case Bad(_) => s.streamUrl)
                && e.ttlSeconds == Some(if probe(s.streamUrl).Stream? then cfg.cacheTtlSeconds else cfg.failureTtlSeconds))
  {
  }

  /** What is written is found again, by whoever wants the URL, until its lifetime has passed. */
  lemma FoundUntilExpiry(rows: map<string, Row>, updates: map<string, CacheEntry>, cfg: Config, at: int,
                         stations: seq<Station>, now: int, key: string, ttl: nat)
    requires key in updates && updates[key].ttlSeconds == Some(ttl)
    ensures key in Load(Store(rows, updates, cfg, at), stations, now)
            <==> now < at + ttl * 1000 && exists s :: s in stations && s.streamUrl == key
    ensures key in Load(Store(rows, updates, cfg, at), stations, now) ==>
              Load(Store(rows, updates, cfg, at), stations, now)[key] == updates[key]
  {
  }
}
