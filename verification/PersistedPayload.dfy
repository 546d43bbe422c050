/** Cleaning a payload that comes back from the database (radio-service-rs/src/stations/persisted.rs). */
module PersistedPayload {
  import opened Wrappers
  import opened Stations
  import opened StationTables

  /** URL sanitisers: for streams, for station pages and icons, and for the payload's own URLs. */
  datatype Sanitizers = Sanitizers(
    stream: string -> Option<string>, site: string -> Option<string>, web: string -> Option<string>)

  function AndThen(value: Option<string>, f: string -> Option<string>): Option<string> {
    match value case Some(v) => f(v) case None => None
  }

  /** `sanitize_station_record`, without its `changed` flag. */
  function SanitizeStation(z: Sanitizers, s: Station): Option<Station> {
    if !s.isOnline then None
    else
      match z.stream(s.streamUrl)
      case None => None
      case Some(url) =>
        Some(s.(streamUrl := url, homepage := AndThen(s.homepage, z.site), favicon := AndThen(s.favicon, z.site),
                languages := SanitizeList(s.languages), tags := SanitizeList(s.tags)))
  }

  function SanitizeStations(z: Sanitizers, stations: seq<Station>): seq<Station> {
    if stations == [] then []
    else
      var front := SanitizeStations(z, stations[..|stations| - 1]);
      match SanitizeStation(z, stations[|stations| - 1]) case Some(s) => front + [s] case None => front
  }

  function SanitizeUrls(z: Sanitizers, urls: seq<string>): seq<string> {
    if urls == [] then []
    else
      var front := SanitizeUrls(z, urls[..|urls| - 1]);
      match z.web(urls[|urls| - 1]) case Some(u) => front + [u] case None => front
  }

  /** `sanitize_persisted_payload`: `None` when no station survives. The fingerprint is kept. */
  function SanitizePayload(z: Sanitizers, p: Payload): Option<Payload> {
    var stations := SanitizeStations(z, p.stations);
    if stations == [] then None
    else
      var requests := SanitizeUrls(z, p.requests);
      Some(Payload(Some(SCHEMA_VERSION), p.updatedAt, AndThen(p.source, z.web),
                   if requests != [] then requests else p.requests, |stations|, stations, p.fingerprint))
  }

  lemma SanitizeSnoc(z: Sanitizers, stations: seq<Station>, s: Station)
    ensures SanitizeStations(z, stations + [s])
            == SanitizeStations(z, stations) + (match SanitizeStation(z, s) case Some(out) => [out] case None => [])
  {
    assert (stations + [s])[..|stations|] == stations;
  }

  lemma SameSnoc<T>(a: seq<T>, b: seq<T>, x: T, y: T)
    ensures a + [x] == b + [y] <==> a == b && x == y
  {
    if a + [x] == b + [y] {
      assert (a + [x])[|a|] == x && (b + [y])[|b|] == y;
      assert a == (a + [x])[..|a|] && b == (b + [y])[..|b|];
    }
  }

  /** The service's loop, with the `changed` flag that says whether anything but the total has changed. */
  method Sanitize(z: Sanitizers, p: Payload) returns (r: Option<(Payload, bool)>)
    ensures r.None? <==> SanitizePayload(z, p).None?
    ensures r.Some? ==> Some(r.value.0) == SanitizePayload(z, p)
    ensures r.Some? ==> (r.value.1 <==> r.value.0.(total := p.total) != p)
  {
    var changed := p.schemaVersion != Some(SCHEMA_VERSION);
    var kept: seq<Station> := [];
    for i := 0 to |p.stations|
      invariant kept == SanitizeStations(z, p.stations[..i])
      invariant |kept| <= i
      invariant changed <==> kept != p.stations[..i] || p.schemaVersion != Some(SCHEMA_VERSION)
    {
      SanitizeSnoc(z, p.stations[..i], p.stations[i]);
      assert p.stations[..i + 1] == p.stations[..i] + [p.stations[i]];
      match SanitizeStation(z, p.stations[i]) {
        case Some(s) =>
          SameSnoc(kept, p.stations[..i], s, p.stations[i]);
          changed := changed || s != p.stations[i];
          kept := kept + [s];
        case None =>
          changed := true;
      }
    }
    assert p.stations[..|p.stations|] == p.stations;
    if kept == [] {
      return None;
    }
    var source := AndThen(p.source, z.web);
    var requests := SanitizeUrls(z, p.requests);
    changed := changed || source != p.source || (requests != [] && requests != p.requests);
    var result := Payload(Some(SCHEMA_VERSION), p.updatedAt, source, if requests != [] then requests else p.requests,
                          |kept|, kept, p.fingerprint);
    r := Some((result, changed));
  }

  /** An empty read is never served. */
  lemma EmptyIsRejected(z: Sanitizers, p: Payload)
    requires p.stations == []
    ensures SanitizePayload(z, p) == None
  {
  }

  /** Each sanitised station stems from one of the originals, and their order is kept. */
  lemma {:induction false} SanitizedStems(z: Sanitizers, stations: seq<Station>, i: nat)
    requires i < |SanitizeStations(z, stations)|
    ensures exists k :: 0 <= k < |stations| && Some(SanitizeStations(z, stations)[i]) == SanitizeStation(z, stations[k])
  {
    var n := |stations| - 1;
    var front := SanitizeStations(z, stations[..n]);
    if i < |front| {
      SanitizedStems(z, stations[..n], i);
      var k :| 0 <= k < n && Some(front[i]) == SanitizeStation(z, stations[..n][k]);
      assert Some(front[i]) == SanitizeStation(z, stations[k]);
    } else {
      assert Some(SanitizeStations(z, stations)[i]) == SanitizeStation(z, stations[n]);
    }
  }

  lemma {:induction false} SanitizedDistinct(z: Sanitizers, stations: seq<Station>)
    requires DistinctIds(stations)
    ensures DistinctIds(SanitizeStations(z, stations))
  {
    if stations != [] {
      var n := |stations| - 1;
      var front := SanitizeStations(z, stations[..n]);
      SanitizedDistinct(z, stations[..n]);
      forall i | 0 <= i < |front| ensures front[i].id != stations[n].id {
        SanitizedStems(z, stations[..n], i);
      }
    }
  }

  // ----- What sanitising changes -----

  /** `r` is `s` with its URLs sanitised and its lists trimmed; a stream that is refused, or offline, is not kept. */
  ghost predicate SanitizedFrom(z: Sanitizers, s: Station, r: Station) {
    && s.isOnline && z.stream(s.streamUrl) == Some(r.streamUrl)
    && (s.homepage.None? ==> r.homepage.None?) && (s.homepage.Some? ==> r.homepage == z.site(s.homepage.value))
    && (s.favicon.None? ==> r.favicon.None?) && (s.favicon.Some? ==> r.favicon == z.site(s.favicon.value))
    && TrimmedList(s.languages, r.languages) && TrimmedList(s.tags, r.tags)
    && r == s.(streamUrl := r.streamUrl, homepage := r.homepage, favicon := r.favicon, languages := r.languages, tags := r.tags)
  }

  lemma SanitizedExactly(z: Sanitizers, s: Station)
    ensures SanitizeStation(z, s).Some? <==> s.isOnline && z.stream(s.streamUrl).Some?
    ensures SanitizeStation(z, s).Some? ==> SanitizedFrom(z, s, SanitizeStation(z, s).value)
  {
    SanitizeIsTrimming(s.languages);
    SanitizeIsTrimming(s.tags);
  }

  /** A sanitiser leaves alone what it has let through. */
  ghost predicate Settled(f: string -> Option<string>) {
    forall x :: f(x).Some? ==> f(f(x).value) == f(x)
  }

  ghost predicate AllSettled(z: Sanitizers) {
    Settled(z.stream) && Settled(z.site) && Settled(z.web)
  }

  lemma {:induction false} SanitizeListClean(values: seq<string>)
    ensures CleanList(SanitizeList(values))
  {
  }

  lemma StationSettles(z: Sanitizers, s: Station)
    requires AllSettled(z) && SanitizeStation(z, s).Some?
    ensures SanitizeStation(z, SanitizeStation(z, s).value) == SanitizeStation(z, s)
  {
    SanitizeListClean(s.languages);
    SanitizeListClean(s.tags);
    SanitizeClean(SanitizeList(s.languages));
    SanitizeClean(SanitizeList(s.tags));
  }

  lemma {:induction false} StationsSettle(z: Sanitizers, stations: seq<Station>)
    requires AllSettled(z)
    ensures SanitizeStations(z, SanitizeStations(z, stations)) == SanitizeStations(z, stations)
  {
    if stations != [] {
      var front, last := stations[..|stations| - 1], stations[|stations| - 1];
      StationsSettle(z, front);
      if SanitizeStation(z, last).Some? {
        StationSettles(z, last);
        SanitizeSnoc(z, SanitizeStations(z, front), SanitizeStation(z, last).value);
      }
    }
  }

  lemma {:induction false} UrlsSettle(z: Sanitizers, urls: seq<string>)
    requires Settled(z.web)
    ensures SanitizeUrls(z, SanitizeUrls(z, urls)) == SanitizeUrls(z, urls)
  {
    if urls != [] {
      var front, last := urls[..|urls| - 1], urls[|urls| - 1];
      UrlsSettle(z, front);
      if z.web(last).Some? {
        var done := SanitizeUrls(z, front) + [z.web(last).value];
        assert done[..|done| - 1] == SanitizeUrls(z, front);
      }
    }
  }

  /** What a sanitised payload keeps of the original, and what it says of its stations. */
  ghost predicate PayloadFrom(z: Sanitizers, p: Payload, r: Payload) {
    && r.stations == SanitizeStations(z, p.stations) && r.stations != [] && r.total == |r.stations|
    && r.schemaVersion == Some(SCHEMA_VERSION) && r.updatedAt == p.updatedAt && r.fingerprint == p.fingerprint
    && r.source == AndThen(p.source, z.web)
    && r.requests == if SanitizeUrls(z, p.requests) != [] then SanitizeUrls(z, p.requests) else p.requests
  }

  lemma PayloadExactly(z: Sanitizers, p: Payload, r: Payload)
    ensures SanitizePayload(z, p) == Some(r) <==> PayloadFrom(z, p, r)
  {
  }

  lemma SourceSettles(z: Sanitizers, source: Option<string>)
    requires Settled(z.web)
    ensures AndThen(AndThen(source, z.web), z.web) == AndThen(source, z.web)
  {
  }

  lemma RequestsSettle(z: Sanitizers, urls: seq<string>)
    requires Settled(z.web)
    ensures var kept := if SanitizeUrls(z, urls) != [] then SanitizeUrls(z, urls) else urls;
            kept == if SanitizeUrls(z, kept) != [] then SanitizeUrls(z, kept) else kept
  {
    UrlsSettle(z, urls);
  }

  lemma FromItself(z: Sanitizers, p: Payload, r: Payload)
    requires AllSettled(z) && PayloadFrom(z, p, r)
    ensures PayloadFrom(z, r, r)
  {
    StationsSettle(z, p.stations);
    SourceSettles(z, p.source);
    RequestsSettle(z, p.requests);
  }

  /** With settled URL sanitisers, a sanitised payload is left alone: sanitising it again changes nothing. */
  lemma SanitizeSettles(z: Sanitizers, p: Payload, r: Payload)
    requires AllSettled(z) && SanitizePayload(z, p) == Some(r)
    ensures SanitizePayload(z, r) == Some(r)
  {
    PayloadExactly(z, p, r);
    FromItself(z, p, r);
    PayloadExactly(z, r, r);
  }
}
