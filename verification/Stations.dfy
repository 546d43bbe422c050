/** Stations and the payloads that carry them (radio-service-rs/src/stations/models.rs). */
module Stations {
  import opened Wrappers
  import opened Sequences

  /** A 64-bit float, by its bit pattern; the model never calculates with one. */
  type Float64 = n: nat | n < 0x1_0000_0000_0000_0000

  datatype Coordinates = Coordinates(lat: Float64, lon: Float64)

  datatype Station = Station(
    id: string,
    name: string,
    streamUrl: string,
    homepage: Option<string>,
    favicon: Option<string>,
    country: Option<string>,
    countryCode: Option<string>,
    state: Option<string>,
    languages: seq<string>,
    tags: seq<string>,
    coordinates: Option<Coordinates>,
    bitrate: Option<int>,
    codec: Option<string>,
    hls: bool,
    isOnline: bool,
    lastCheckedAt: Option<string>,
    lastChangedAt: Option<string>,
    clickCount: int,
    clickTrend: int,
    votes: int)

  datatype Payload = Payload(
    schemaVersion: Option<int>,
    updatedAt: int,
    source: Option<string>,
    requests: seq<string>,
    total: nat,
    stations: seq<Station>,
    fingerprint: Option<string>)

  const SCHEMA_VERSION := 3

  function Ids(stations: seq<Station>): (ids: seq<string>)
    ensures |ids| == |stations|
    ensures forall i :: 0 <= i < |ids| ==> ids[i] == stations[i].id
  {
    Map(stations, (s: Station) => s.id)
  }

  predicate DistinctIds(stations: seq<Station>) {
    forall i, j :: 0 <= i < j < |stations| ==> stations[i].id != stations[j].id
  }

  lemma SameIdSameStation(stations: seq<Station>, x: Station, y: Station)
    requires DistinctIds(stations) && x in stations && y in stations && x.id == y.id
    ensures x == y
  {
  }

  /** Distinctness of ids does not depend on the order of the list. */
  lemma DistinctIdsRearranged(a: seq<Station>, b: seq<Station>)
    requires multiset(a) == multiset(b) && DistinctIds(a)
    ensures DistinctIds(b)
  {
    forall i, j | 0 <= i < j < |b|
      ensures b[i].id != b[j].id
    {
      SameElements(a, b);
      if b[i].id == b[j].id {
        SameIdSameStation(a, b[i], b[j]);
        TwiceInMultiset(b, i, j);
        OnceInMultiset(a, b[i]);
      }
    }
  }

  lemma TwiceInMultiset(s: seq<Station>, i: nat, j: nat)
    requires i < j < |s| && s[i] == s[j]
    ensures multiset(s)[s[i]] >= 2
  {
    assert s == s[..j] + [s[j]] + s[j + 1..];
    assert s[i] in s[..j];
    assert multiset(s[..j])[s[i]] >= 1;
  }

  lemma {:induction false} OnceInMultiset(s: seq<Station>, x: Station)
    requires DistinctIds(s)
    ensures multiset(s)[x] <= 1
  {
    if s != [] {
      var t := s[..|s| - 1];
      OnceInMultiset(t, x);
      assert s == t + [s[|s| - 1]];
      assert s[|s| - 1] !in t;
    }
  }

  /** What clients see of a station: `project_station` and `project_station_for_client`. */
  datatype Summary = Summary(
    id: string,
    name: string,
    streamUrl: string,
    homepage: Option<string>,
    favicon: Option<string>,
    country: Option<string>,
    countryCode: Option<string>,
    state: Option<string>,
    languages: seq<string>,
    tags: seq<string>,
    bitrate: Option<int>,
    codec: Option<string>,
    hls: bool,
    isOnline: bool,
    clickCount: int)

  function Project(s: Station): Summary {
    Summary(s.id, s.name, s.streamUrl, s.homepage, s.favicon, s.country, s.countryCode, s.state, s.languages,
            Take(s.tags, 12), s.bitrate, s.codec, s.hls, s.isOnline, s.clickCount)
  }

  /** The item shows the station: each of its fields, and of its tags the first twelve. */
  predicate Summarizes(item: Summary, s: Station) {
    && item.id == s.id && item.name == s.name && item.streamUrl == s.streamUrl
    && item.homepage == s.homepage && item.favicon == s.favicon
    && item.country == s.country && item.countryCode == s.countryCode && item.state == s.state
    && item.languages == s.languages && |item.tags| <= 12 && item.tags <= s.tags && (|s.tags| > 12 ==> |item.tags| == 12)
    && (|s.tags| <= 12 ==> item.tags == s.tags)
    && item.bitrate == s.bitrate && item.codec == s.codec && item.hls == s.hls && item.isOnline == s.isOnline
    && item.clickCount == s.clickCount
  }

  lemma ProjectSummarizes(s: Station)
    ensures Summarizes(Project(s), s)
  {
  }
}
