/**
 Fetching the catalogue page by page (radio-service-rs/src/radio_browser.rs), and
 what the fetch itself guarantees about the payload it returns.
 */
module RadioBrowser {
  import opened Wrappers
  import opened Sequences
  import opened Text
  import opened Stations
  import opened Fingerprint
  import opened StationTables
  import opened IndexCache

  /** `RadioBrowserStation`: a record as the upstream sends it. */
  datatype Raw = Raw(
    stationUuid: string, name: string, url: Option<string>, urlResolved: Option<string>, homepage: Option<string>,
    favicon: Option<string>, country: Option<string>, countryCode: Option<string>, state: Option<string>,
    language: Option<string>, tags: Option<string>, lat: Option<Float64>, lon: Option<Float64>, bitrate: Option<int>,
    codec: Option<string>, hls: Option<int>, lastCheckOk: Option<int>, lastCheckTime: Option<string>,
    lastCheckTimeIso: Option<string>, lastChangeTimeIso: Option<string>, sslError: Option<int>,
    clickCount: Option<int>, clickTrend: Option<int>, votes: Option<int>)

  datatype Config = Config(limit: int, pageSize: int, maxPages: int)

  /** The upstream's answer to an offset and a limit, and the URL that asks for it. */
  datatype Upstream = Upstream(
    answer: (nat, nat) -> Result<seq<Raw>, ()>, pageUrl: (nat, nat) -> string, source: string)

  /** URL sanitisers, the block list, and ASCII upper case. */
  datatype Cleaners = Cleaners(
    stream: string -> Option<string>, blocked: string -> bool, site: Option<string> -> Option<string>,
    upper: string -> string)

  function AtLeastOne(n: int): (r: nat)
    ensures r >= 1
  {
    if n < 1 then 1 else n
  }

  function OrElse(a: Option<string>, b: Option<string>): Option<string> {
    if a.Some? then a else b
  }

  function OrZero(n: Option<int>): int {
    match n case Some(v) => v case None => 0
  }

  function OrEmpty(s: Option<string>): string {
    match s case Some(v) => v case None => ""
  }

  // ----- One record -----

  /** `split_list`. */
  function SplitList(value: Option<string>): (r: seq<string>)
    ensures CleanList(r)
  {
    SanitizeList(Split(OrEmpty(value), ','))
  }

  /** `normalize_station`. */
  function NormalizeStation(c: Cleaners, raw: Raw): Option<Station> {
    if OrZero(raw.lastCheckOk) != 1 || Trim(raw.stationUuid) == "" || OrZero(raw.sslError) != 0 then None
    else
      match c.stream(OrEmpty(OrElse(raw.urlResolved, raw.url)))
      case None => None
      case Some(url) =>
        if c.blocked(url) then None
        else
          Some(Station(
            raw.stationUuid, raw.name, url, c.site(raw.homepage), c.site(raw.favicon), raw.country,
            match raw.countryCode case Some(code) => Some(c.upper(code)) case None => None,
            raw.state, SplitList(raw.language), SplitList(raw.tags),
            if raw.lat.Some? && raw.lon.Some? then Some(Coordinates(raw.lat.value, raw.lon.value)) else None,
            raw.bitrate, raw.codec, OrZero(raw.hls) == 1, true,
            match OrElse(raw.lastCheckTimeIso, raw.lastCheckTime) case Some(t) => Some(Trim(t)) case None => None,
            raw.lastChangeTimeIso, OrZero(raw.clickCount), OrZero(raw.clickTrend), OrZero(raw.votes)))
  }

  /** The records that survive, in order. */
  function Survivors(c: Cleaners, raws: seq<Raw>): seq<Station> {
    if raws == [] then []
    else
      var front := Survivors(c, raws[..|raws| - 1]);
      match NormalizeStation(c, raws[|raws| - 1]) case Some(s) => front + [s] case None => front
  }

  // ----- Pages -----

  function OffsetOf(cfg: Config, page: nat): nat {
    page * AtLeastOne(cfg.pageSize)
  }

  function LimitOf(cfg: Config, page: nat): nat
    requires OffsetOf(cfg, page) < AtLeastOne(cfg.limit)
  {
    Min(AtLeastOne(cfg.limit) - OffsetOf(cfg, page), AtLeastOne(cfg.pageSize))
  }

  /** Another page may be asked for. */
  predicate PageLeft(cfg: Config, page: nat) {
    page < AtLeastOne(cfg.maxPages) && OffsetOf(cfg, page) < AtLeastOne(cfg.limit)
  }

  function PageAt(cfg: Config, up: Upstream, page: nat): Result<seq<Raw>, ()>
    requires PageLeft(cfg, page)
  {
    up.answer(OffsetOf(cfg, page), LimitOf(cfg, page))
  }

  /** The first `n` pages could be asked for, and each brought records. */
  ghost predicate Delivered(cfg: Config, up: Upstream, n: nat) {
    forall p: nat :: p < n ==> PageLeft(cfg, p) && PageAt(cfg, up, p).Ok? && PageAt(cfg, up, p).value != []
  }

  /** All their records. */
  function Records(cfg: Config, up: Upstream, n: nat): seq<Raw>
    requires Delivered(cfg, up, n)
  {
    if n == 0 then [] else Records(cfg, up, n - 1) + PageAt(cfg, up, n - 1).value
  }

  function Urls(cfg: Config, up: Upstream, n: nat): seq<string>
    requires Delivered(cfg, up, n)
  {
    if n == 0 then []
    else
      assert PageLeft(cfg, n - 1);
      Urls(cfg, up, n - 1) + [up.pageUrl(OffsetOf(cfg, n - 1), LimitOf(cfg, n - 1))]
  }

  /** Nothing more is asked for: the pages are used up, the next one is empty, or there are enough stations. */
  predicate Done(cfg: Config, up: Upstream, n: nat, stations: seq<Station>) {
    !PageLeft(cfg, n) || PageAt(cfg, up, n) == Ok([]) || |stations| >= AtLeastOne(cfg.limit)
  }

  /** What `n` delivered pages come to. */
  function Gathered(c: Cleaners, cfg: Config, up: Upstream, n: nat): seq<Station>
    requires Delivered(cfg, up, n)
  {
    Take(Survivors(c, Records(cfg, up, n)), AtLeastOne(cfg.limit))
  }

  /** The payload gathered from the first `n` pages, fingerprinted as it stands. */
  ghost predicate GatheredPayload(h: Hasher, c: Cleaners, cfg: Config, up: Upstream, n: nat, p: Payload) {
    && Delivered(cfg, up, n) && Done(cfg, up, n, p.stations)
    && p.stations == Gathered(c, cfg, up, n) && p.stations != [] && p.total == |p.stations|
    && p.requests == Urls(cfg, up, n) && p.source == Some(up.source)
    && p.schemaVersion == Some(SCHEMA_VERSION) && p.fingerprint == Some(SetFingerprint(h, p.stations))
  }

  /** A page failed before there were enough stations, or there was nothing to return. */
  ghost predicate Failed(c: Cleaners, cfg: Config, up: Upstream, n: nat) {
    && Delivered(cfg, up, n)
    && ((PageLeft(cfg, n) && PageAt(cfg, up, n).Err? && |Gathered(c, cfg, up, n)| < AtLeastOne(cfg.limit))
        || (Done(cfg, up, n, []) && Gathered(c, cfg, up, n) == []))
  }

  lemma SurvivorsSnoc(c: Cleaners, raws: seq<Raw>, raw: Raw)
    ensures Survivors(c, raws + [raw])
            == Survivors(c, raws) + (match NormalizeStation(c, raw) case Some(s) => [s] case None => [])
  {
    assert (raws + [raw])[..|raws|] == raws;
  }

  lemma {:induction false} SurvivorsConcat(c: Cleaners, a: seq<Raw>, b: seq<Raw>)
    ensures Survivors(c, a + b) == Survivors(c, a) + Survivors(c, b)
  {
    if b == [] {
      assert a + b == a;
    } else {
      var front, last := b[..|b| - 1], b[|b| - 1];
      assert a + b == (a + front) + [last] && b == front + [last];
      SurvivorsConcat(c, a, front);
      SurvivorsSnoc(c, a + front, last);
      SurvivorsSnoc(c, front, last);
    }
  }

  lemma EnoughSurvivors(c: Cleaners, stations: seq<Station>, raws: seq<Raw>, i: nat, total: nat)
    requires i <= |raws| && |stations + Survivors(c, raws[..i])| == total
    ensures Take(stations + Survivors(c, raws), total) == stations + Survivors(c, raws[..i])
  {
    assert raws == raws[..i] + raws[i..];
    SurvivorsConcat(c, raws[..i], raws[i..]);
    TakeFront(stations, Survivors(c, raws[..i]), Survivors(c, raws[i..]));
  }

  lemma TakeFront<T>(a: seq<T>, b: seq<T>, rest: seq<T>)
    ensures Take(a + (b + rest), |a + b|) == a + b
  {
    assert a + (b + rest) == (a + b) + rest;
  }

  lemma SurvivorsPrefix(c: Cleaners, raws: seq<Raw>, i: nat)
    requires i < |raws|
    ensures Survivors(c, raws[..i + 1])
            == Survivors(c, raws[..i]) + (match NormalizeStation(c, raws[i]) case Some(s) => [s] case None => [])
  {
    assert raws[..i + 1] == raws[..i] + [raws[i]];
    SurvivorsSnoc(c, raws[..i], raws[i]);
  }

  /** The inner loop: push survivors until there are enough. */
  method PushPage(c: Cleaners, stations: seq<Station>, raws: seq<Raw>, total: nat) returns (r: seq<Station>)
    requires |stations| < total
    ensures r == Take(stations + Survivors(c, raws), total)
  {
    r := stations;
    for i := 0 to |raws|
      invariant r == stations + Survivors(c, raws[..i])
      invariant |r| < total
    {
      SurvivorsPrefix(c, raws, i);
      match NormalizeStation(c, raws[i]) {
        case Some(s) =>
          r := r + [s];
          if |r| >= total {
            EnoughSurvivors(c, stations, raws, i + 1, total);
            return;
          }
        case None =>
      }
    }
    assert raws[..|raws|] == raws;
  }

  /** One more delivered page, when there is room for more stations. */
  lemma GatheredStep(c: Cleaners, cfg: Config, up: Upstream, n: nat)
    requires Delivered(cfg, up, n) && PageLeft(cfg, n) && PageAt(cfg, up, n).Ok? && PageAt(cfg, up, n).value != []
    requires |Gathered(c, cfg, up, n)| < AtLeastOne(cfg.limit)
    ensures Delivered(cfg, up, n + 1)
    ensures Gathered(c, cfg, up, n + 1)
            == Take(Gathered(c, cfg, up, n) + Survivors(c, PageAt(cfg, up, n).value), AtLeastOne(cfg.limit))
  {
    assert Delivered(cfg, up, n + 1);
    SurvivorsConcat(c, Records(cfg, up, n), PageAt(cfg, up, n).value);
  }

  /** `fetch_payload_from_host`. */
  method FetchPayloadFromHost(h: Hasher, c: Cleaners, cfg: Config, up: Upstream, now: int) returns (r: Result<Payload, ()>)
    ensures r.Ok? ==> r.value.updatedAt == now && exists n: nat :: GatheredPayload(h, c, cfg, up, n, r.value)
    ensures r.Err? ==> exists n: nat :: Failed(c, cfg, up, n)
  {
    var total := AtLeastOne(cfg.limit);
    var stations, requests := [], [];
    var page: nat := 0;
    while PageLeft(cfg, page)
      invariant Delivered(cfg, up, page)
      invariant stations == Gathered(c, cfg, up, page) && |stations| < total
      invariant requests == Urls(cfg, up, page)
      decreases AtLeastOne(cfg.maxPages) - page
    {
      var answer := PageAt(cfg, up, page);
      if answer.Err? {
        assert Failed(c, cfg, up, page);
        return Err(());
      }
      if answer.value == [] {
        break;
      }
      GatheredStep(c, cfg, up, page);
      requests := requests + [up.pageUrl(OffsetOf(cfg, page), LimitOf(cfg, page))];
      stations := PushPage(c, stations, answer.value, total);
      page := page + 1;
      if |stations| >= total {
        break;
      }
    }
    if stations == [] {
      assert Failed(c, cfg, up, page);
      return Err(());
    }
    var p := EnsureFingerprint(h, Payload(Some(SCHEMA_VERSION), now, Some(up.source), requests, |stations|, stations, None));
    assert GatheredPayload(h, c, cfg, up, page, p);
    r := Ok(p);
  }

  // ----- What the fetch guarantees, and what it takes on trust -----

  lemma {:induction false} SurvivorsClean(c: Cleaners, raws: seq<Raw>)
    ensures forall i :: 0 <= i < |Survivors(c, raws)| ==> CleanStation(Survivors(c, raws)[i])
  {
    if raws != [] {
      SurvivorsClean(c, raws[..|raws| - 1]);
    }
  }

  /**
   Lists of languages and tags come out trimmed whatever the upstream sends; that
   ids are distinct and free of newlines is the upstream's doing, since the fetch
   does not compare the records of its pages.
   */
  lemma FetchedExactly(h: Hasher, c: Cleaners, cfg: Config, up: Upstream, n: nat, p: Payload)
    requires GatheredPayload(h, c, cfg, up, n, p)
    ensures FetchedPayload(h, p) <==> DistinctIds(p.stations) && NewlineFreeIds(p.stations)
  {
    SurvivorsClean(c, Records(cfg, up, n));
  }

  // ----- What becomes of a record -----

  /** The stream a record names: the resolved URL if there is one, else the plain one. */
  function Candidate(raw: Raw): string {
    if raw.urlResolved.Some? then raw.urlResolved.value else if raw.url.Some? then raw.url.value else ""
  }

  /** The record passed its last check, has an id and no TLS error, and its stream is acceptable and not blocked. */
  predicate Acceptable(c: Cleaners, raw: Raw) {
    && raw.lastCheckOk == Some(1) && (exists i :: 0 <= i < |raw.stationUuid| && !IsSpace(raw.stationUuid[i]))
    && (raw.sslError == None || raw.sslError == Some(0))
    && c.stream(Candidate(raw)).Some? && !c.blocked(c.stream(Candidate(raw)).value)
  }

  ghost predicate CarriesTexts(c: Cleaners, raw: Raw, s: Station) {
    && s.id == raw.stationUuid && s.name == raw.name && c.stream(Candidate(raw)) == Some(s.streamUrl)
    && s.homepage == c.site(raw.homepage) && s.favicon == c.site(raw.favicon)
    && s.country == raw.country && s.state == raw.state && s.codec == raw.codec
    && (s.countryCode.Some? <==> raw.countryCode.Some?)
    && (raw.countryCode.Some? ==> s.countryCode.value == c.upper(raw.countryCode.value))
    && TrimmedList(Split(OrEmpty(raw.language), ','), s.languages)
    && TrimmedList(Split(OrEmpty(raw.tags), ','), s.tags)
  }

  ghost predicate CarriesNumbers(raw: Raw, s: Station) {
    && s.bitrate == raw.bitrate && s.isOnline && (s.hls <==> raw.hls == Some(1))
    && (s.coordinates.Some? <==> raw.lat.Some? && raw.lon.Some?)
    && (s.coordinates.Some? ==> s.coordinates.value.lat == raw.lat.value && s.coordinates.value.lon == raw.lon.value)
    && s.clickCount == OrZero(raw.clickCount) && s.clickTrend == OrZero(raw.clickTrend) && s.votes == OrZero(raw.votes)
    && s.lastChangedAt == raw.lastChangeTimeIso
    && (raw.lastCheckTimeIso.Some? ==> s.lastCheckedAt == Some(Trim(raw.lastCheckTimeIso.value)))
  }

  lemma KeptExactly(c: Cleaners, raw: Raw)
    ensures NormalizeStation(c, raw).Some? <==> Acceptable(c, raw)
  {
    BlankExactly(raw.stationUuid);
  }

  lemma KeptTexts(c: Cleaners, raw: Raw)
    requires NormalizeStation(c, raw).Some?
    ensures CarriesTexts(c, raw, NormalizeStation(c, raw).value)
  {
    SanitizeIsTrimming(Split(OrEmpty(raw.language), ','));
    SanitizeIsTrimming(Split(OrEmpty(raw.tags), ','));
  }

  lemma KeptNumbers(c: Cleaners, raw: Raw)
    requires NormalizeStation(c, raw).Some?
    ensures CarriesNumbers(raw, NormalizeStation(c, raw).value)
  {
  }

  /** A record becomes a station exactly when it is acceptable, and the station carries its fields. */
  lemma NormalizedExactly(c: Cleaners, raw: Raw)
    ensures NormalizeStation(c, raw).Some? <==> Acceptable(c, raw)
    ensures NormalizeStation(c, raw).Some? ==>
              CarriesTexts(c, raw, NormalizeStation(c, raw).value) && CarriesNumbers(raw, NormalizeStation(c, raw).value)
  {
    KeptExactly(c, raw);
    if NormalizeStation(c, raw).Some? {
      KeptTexts(c, raw);
      KeptNumbers(c, raw);
    }
  }

  /** The pages asked for lie end to end and stop at the configured limit. */
  lemma PagesTile(cfg: Config, page: nat)
    requires PageLeft(cfg, page)
    ensures OffsetOf(cfg, 0) == 0
    ensures OffsetOf(cfg, page) + LimitOf(cfg, page) == Min(OffsetOf(cfg, page + 1), AtLeastOne(cfg.limit))
  {
    assert OffsetOf(cfg, page + 1) == OffsetOf(cfg, page) + AtLeastOne(cfg.pageSize) by {
      OneMorePage(page, AtLeastOne(cfg.pageSize));
    }
  }

  lemma OneMorePage(page: nat, size: nat)
    ensures (page + 1) * size == page * size + size
  {
  }
}
