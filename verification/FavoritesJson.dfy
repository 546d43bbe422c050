/** The stored form of the favourites list, and reading it back (radio-service-rs/src/favorites.rs). */
module FavoritesJson {
  import opened Wrappers
  import opened Sequences
  import opened Stations
  import opened Favorites

  // JSON field names are modelled as constructors; any other name is `Other`.

  datatype Key =
    | Version | Entries | Items | Id | SavedAt | StationField | Name | StreamUrl | Homepage | Favicon | Country
    | CountryCode | State | Languages | Tags | Bitrate | Codec | Hls | IsOnline | ClickCount | Other(name: string)

  const FAVORITES_STORAGE_VERSION := 2

  datatype Json =
    | JNull | JBool(b: bool) | JInt(n: int) | JFloat(x: Float64) | JString(s: string)
    | JArray(items: seq<Json>) | JObject(fields: map<Key, Json>)

  predicate IsI32(n: int) {
    -0x8000_0000 <= n < 0x8000_0000
  }

  predicate IsI64(n: int) {
    -0x8000_0000_0000_0000 <= n < 0x8000_0000_0000_0000
  }

  /** The numbers fit the service's integer types. */
  predicate TypedSummary(s: Summary) {
    IsI32(s.clickCount) && (s.bitrate.Some? ==> IsI32(s.bitrate.value))
  }

  predicate Typed(e: Favorite) {
    IsI64(e.savedAt) && (e.station.Some? ==> TypedSummary(e.station.value))
  }

  function EncodeOptString(v: Option<string>): Json {
    match v case Some(s) => JString(s) case None => JNull
  }

  function EncodeStrings(v: seq<string>): (r: Json)
    ensures r.JArray? && |r.items| == |v|
    ensures forall i :: 0 <= i < |v| ==> r.items[i] == JString(v[i])
  {
    JArray(seq(|v|, i requires 0 <= i < |v| => JString(v[i])))
  }

  const SUMMARY_KEYS := {Id, Name, StreamUrl, Homepage, Favicon, Country, CountryCode, State, Languages, Tags, Bitrate,
                         Codec, Hls, IsOnline, ClickCount}

  function SummaryField(s: Summary, key: Key): Json {
    match key
    case Id => JString(s.id)
    case Name => JString(s.name)
    case StreamUrl => JString(s.streamUrl)
    case Homepage => EncodeOptString(s.homepage)
    case Favicon => EncodeOptString(s.favicon)
    case Country => EncodeOptString(s.country)
    case CountryCode => EncodeOptString(s.countryCode)
    case State => EncodeOptString(s.state)
    case Languages => EncodeStrings(s.languages)
    case Tags => EncodeStrings(s.tags)
    case Bitrate => (match s.bitrate case Some(n) => JInt(n) case None => JNull)
    case Codec => EncodeOptString(s.codec)
    case Hls => JBool(s.hls)
    case IsOnline => JBool(s.isOnline)
    case ClickCount => JInt(s.clickCount)
    case _ => JNull
  }

  function EncodeSummary(s: Summary): Json {
    JObject(map key | key in SUMMARY_KEYS :: SummaryField(s, key))
  }

  function EncodeEntry(e: Favorite): Json {
    JObject(map[
      Id := JString(e.id), SavedAt := JInt(e.savedAt),
      StationField := (match e.station case Some(s) => EncodeSummary(s) case None => JNull)])
  }

  function EncodeEntries(entries: seq<Favorite>): (r: seq<Json>)
    ensures |r| == |entries|
    ensures forall i :: 0 <= i < |r| ==> r[i] == EncodeEntry(entries[i])
  {
    Map(entries, EncodeEntry)
  }

  /** What `write` stores. */
  function EncodeFavorites(entries: seq<Favorite>): Json {
    JObject(map[Version := JInt(FAVORITES_STORAGE_VERSION), Entries := JArray(EncodeEntries(entries))])
  }

  // Decoding: the outer `None` is a type error, as serde reports it.

  function DecodeString(m: map<Key, Json>, key: Key): Option<string> {
    if key in m && m[key].JString? then Some(m[key].s) else None
  }

  function DecodeBool(m: map<Key, Json>, key: Key): Option<bool> {
    if key in m && m[key].JBool? then Some(m[key].b) else None
  }

  function DecodeI32(m: map<Key, Json>, key: Key): Option<int> {
    if key in m && m[key].JInt? && IsI32(m[key].n) then Some(m[key].n) else None
  }

  function DecodeOptString(m: map<Key, Json>, key: Key): Option<Option<string>> {
    if key !in m || m[key].JNull? then Some(None)
    else if m[key].JString? then Some(Some(m[key].s))
    else None
  }

  function DecodeOptInt(m: map<Key, Json>, key: Key, min: int, max: int): Option<Option<int>> {
    if key !in m || m[key].JNull? then Some(None)
    else if m[key].JInt? && min <= m[key].n <= max then Some(Some(m[key].n))
    else None
  }

  predicate AllStrings(items: seq<Json>) {
    forall i :: 0 <= i < |items| ==> items[i].JString?
  }

  function StringsOf(items: seq<Json>): (r: seq<string>)
    requires AllStrings(items)
    ensures |r| == |items|
    ensures forall i :: 0 <= i < |r| ==> r[i] == items[i].s
  {
    seq(|items|, i requires 0 <= i < |items| => items[i].s)
  }

  function DecodeStrings(m: map<Key, Json>, key: Key): Option<seq<string>> {
    if key in m && m[key].JArray? && AllStrings(m[key].items) then Some(StringsOf(m[key].items)) else None
  }

  function DecodeSummary(j: Json): Option<Summary> {
    if !j.JObject? then None
    else
      var m := j.fields;
      var id, name, streamUrl := DecodeString(m, Id), DecodeString(m, Name), DecodeString(m, StreamUrl);
      var homepage, favicon, country := DecodeOptString(m, Homepage), DecodeOptString(m, Favicon), DecodeOptString(m, Country);
      var code, state, codec := DecodeOptString(m, CountryCode), DecodeOptString(m, State), DecodeOptString(m, Codec);
      var languages, tags := DecodeStrings(m, Languages), DecodeStrings(m, Tags);
      var bitrate := DecodeOptInt(m, Bitrate, -0x8000_0000, 0x7FFF_FFFF);
      var hls, online, clicks := DecodeBool(m, Hls), DecodeBool(m, IsOnline), DecodeI32(m, ClickCount);
      if id.Some? && name.Some? && streamUrl.Some? && homepage.Some? && favicon.Some? && country.Some?
         && code.Some? && state.Some? && codec.Some? && languages.Some? && tags.Some? && bitrate.Some?
         && hls.Some? && online.Some? && clicks.Some?
      then Some(Summary(id.value, name.value, streamUrl.value, homepage.value, favicon.value, country.value, code.value,
                        state.value, languages.value, tags.value, bitrate.value, codec.value, hls.value, online.value,
                        clicks.value))
      else None
  }

  /** A bare id string, or an object with at least an id; anything else is skipped. */
  function DecodeEntry(j: Json, now: int): Option<Favorite> {
    match j
    case JString(id) => Some(Favorite(id, now, None))
    case JObject(m) =>
      var id := DecodeOptString(m, Id);
      var savedAt := DecodeOptInt(m, SavedAt, -0x8000_0000_0000_0000, 0x7FFF_FFFF_FFFF_FFFF);
      var station :=
        if StationField !in m || m[StationField].JNull? then Some(None)
        else match DecodeSummary(m[StationField]) case Some(s) => Some(Some(s)) case None => None;
      if id.Some? && savedAt.Some? && station.Some? && id.value.Some?
      then Some(Favorite(id.value.value, match savedAt.value case Some(t) => t case None => now, station.value))
      else None
    case _ => None
  }

  function DecodeItems(items: seq<Json>, now: int): seq<Favorite> {
    if items == [] then []
    else
      var front := DecodeItems(items[..|items| - 1], now);
      match DecodeEntry(items[|items| - 1], now) case Some(e) => front + [e] case None => front
  }

  /** `normalize_entries_from_raw`. */
  function Normalize(j: Json, now: int): seq<Favorite>
    decreases j
  {
    match j
    case JArray(items) => DecodeItems(items, now)
    case JObject(m) =>
      if Entries in m then Normalize(m[Entries], now)
      else if Items in m then Normalize(m[Items], now)
      else []
    case _ => []
  }

  // ----- Reading back what was written -----

  lemma StringsRoundTrip(m: map<Key, Json>, key: Key, v: seq<string>)
    requires key in m && m[key] == EncodeStrings(v)
    ensures DecodeStrings(m, key) == Some(v)
  {
    assert StringsOf(m[key].items) == v;
  }

  /** The required fields of the object are those of the summary. */
  ghost predicate RequiredFields(m: map<Key, Json>, s: Summary) {
    && PlainFields(m, s)
    && DecodeStrings(m, Languages) == Some(s.languages) && DecodeStrings(m, Tags) == Some(s.tags)
  }

  ghost predicate PlainFields(m: map<Key, Json>, s: Summary) {
    && DecodeString(m, Id) == Some(s.id) && DecodeString(m, Name) == Some(s.name)
    && DecodeString(m, StreamUrl) == Some(s.streamUrl)
    && DecodeBool(m, Hls) == Some(s.hls) && DecodeBool(m, IsOnline) == Some(s.isOnline)
    && DecodeI32(m, ClickCount) == Some(s.clickCount)
  }

  /** So are the optional ones. */
  ghost predicate OptionalFields(m: map<Key, Json>, s: Summary) {
    && DecodeOptString(m, Homepage) == Some(s.homepage) && DecodeOptString(m, Favicon) == Some(s.favicon)
    && DecodeOptString(m, Country) == Some(s.country) && DecodeOptString(m, CountryCode) == Some(s.countryCode)
    && DecodeOptString(m, State) == Some(s.state) && DecodeOptString(m, Codec) == Some(s.codec)
    && DecodeOptInt(m, Bitrate, -0x8000_0000, 0x7FFF_FFFF) == Some(s.bitrate)
  }

  lemma FieldStored(s: Summary, key: Key)
    requires key in SUMMARY_KEYS
    ensures var m := EncodeSummary(s).fields;
            key in m && m[key] == SummaryField(s, key)
  {
  }

  lemma OptStringRoundTrip(s: Summary, key: Key, v: Option<string>)
    requires key in SUMMARY_KEYS && SummaryField(s, key) == EncodeOptString(v)
    ensures DecodeOptString(EncodeSummary(s).fields, key) == Some(v)
  {
    FieldStored(s, key);
  }

  lemma BitrateRoundTrip(s: Summary)
    requires TypedSummary(s)
    ensures DecodeOptInt(EncodeSummary(s).fields, Bitrate, -0x8000_0000, 0x7FFF_FFFF) == Some(s.bitrate)
  {
    FieldStored(s, Bitrate);
  }

  lemma PlainRoundTrip(s: Summary)
    requires TypedSummary(s)
    ensures PlainFields(EncodeSummary(s).fields, s)
  {
  }

  lemma RequiredRoundTrip(s: Summary)
    requires TypedSummary(s)
    ensures RequiredFields(EncodeSummary(s).fields, s)
  {
    var m := EncodeSummary(s).fields;
    PlainRoundTrip(s);
    StringsRoundTrip(m, Languages, s.languages);
    StringsRoundTrip(m, Tags, s.tags);
  }

  lemma OptionalRoundTrip(s: Summary)
    requires TypedSummary(s)
    ensures OptionalFields(EncodeSummary(s).fields, s)
  {
    OptStringRoundTrip(s, Homepage, s.homepage);
    OptStringRoundTrip(s, Favicon, s.favicon);
    OptStringRoundTrip(s, Country, s.country);
    OptStringRoundTrip(s, CountryCode, s.countryCode);
    OptStringRoundTrip(s, State, s.state);
    OptStringRoundTrip(s, Codec, s.codec);
    BitrateRoundTrip(s);
  }

  lemma DecodeFromFields(m: map<Key, Json>, s: Summary)
    requires RequiredFields(m, s) && OptionalFields(m, s)
    ensures DecodeSummary(JObject(m)) == Some(s)
  {
  }

  lemma SummaryRoundTrip(s: Summary)
    requires TypedSummary(s)
    ensures DecodeSummary(EncodeSummary(s)) == Some(s)
  {
    RequiredRoundTrip(s);
    OptionalRoundTrip(s);
    DecodeFromFields(EncodeSummary(s).fields, s);
  }

  lemma EntryRoundTrip(e: Favorite, now: int)
    requires Typed(e)
    ensures DecodeEntry(EncodeEntry(e), now) == Some(e)
  {
    if e.station.Some? {
      SummaryRoundTrip(e.station.value);
      assert !EncodeSummary(e.station.value).JNull?;
    }
  }

  lemma {:induction false} ItemsRoundTrip(entries: seq<Favorite>, now: int)
    requires forall i :: 0 <= i < |entries| ==> Typed(entries[i])
    ensures DecodeItems(EncodeEntries(entries), now) == entries
  {
    if entries != [] {
      var n := |entries| - 1;
      ItemsRoundTrip(entries[..n], now);
      EntryRoundTrip(entries[n], now);
      EncodedSplit(entries);
      DecodeSnoc(EncodeEntries(entries[..n]), EncodeEntry(entries[n]), now);
    }
  }

  lemma EncodedSplit(entries: seq<Favorite>)
    requires entries != []
    ensures var n := |entries| - 1;
            EncodeEntries(entries) == EncodeEntries(entries[..n]) + [EncodeEntry(entries[n])]
  {
  }

  lemma DecodeSnoc(items: seq<Json>, j: Json, now: int)
    ensures DecodeItems(items + [j], now)
            == DecodeItems(items, now) + (match DecodeEntry(j, now) case Some(e) => [e] case None => [])
  {
    assert (items + [j])[..|items|] == items;
  }

  predicate AllTyped(entries: seq<Favorite>) {
    forall i :: 0 <= i < |entries| ==> Typed(entries[i])
  }

  /** What `read` makes of a stored value. */
  function ReadJson(j: Json, now: int): seq<Favorite> {
    Deduped(Normalize(j, now), now)
  }

  lemma NormalizeEncoded(entries: seq<Favorite>, now: int)
    requires AllTyped(entries)
    ensures Normalize(EncodeFavorites(entries), now) == entries
  {
    ItemsRoundTrip(entries, now);
    var inner := EncodeFavorites(entries).fields[Entries];
    assert Normalize(inner, now) == DecodeItems(EncodeEntries(entries), now);
  }

  /** A written list reads back unchanged. */
  lemma ReadsBackWhatWasWritten(entries: seq<Favorite>, now: int)
    requires Normal(entries) && AllTyped(entries)
    ensures ReadJson(EncodeFavorites(entries), now) == entries
  {
    NormalizeEncoded(entries, now);
    DedupedOfTidy(entries, now);
  }

  /** Whatever JSON is stored, old formats included, reading it gives a normal list. */
  lemma AnyJsonReadsNormal(j: Json, now: int)
    requires now > 0
    ensures Normal(ReadJson(j, now))
  {
    DedupedIsNormal(Normalize(j, now), now);
  }

  // ----- The stored row over whole runs -----

  const FAVORITES_TTL_SECONDS := 60 * 60 * 24 * 30

  datatype Row = Row(payload: Json, expiresAt: int)

  ghost predicate TypedLive(live: Live) {
    forall id :: live(id).Some? ==> TypedSummary(live(id).value)
  }

  lemma {:induction false} RefreshAllTyped(live: Live, entries: seq<Favorite>)
    requires TypedLive(live) && AllTyped(entries)
    ensures AllTyped(RefreshAll(live, entries))
  {
    if entries != [] {
      RefreshAllTyped(live, entries[..|entries| - 1]);
      assert Typed(entries[|entries| - 1]);
    }
  }

  lemma WithoutTyped(entries: seq<Favorite>, id: string)
    requires AllTyped(entries)
    ensures AllTyped(Without(entries, id))
  {
    var rest := Without(entries, id);
    forall i | 0 <= i < |rest| ensures Typed(rest[i]) {
      assert rest[i] in entries;
    }
  }

  /** A refreshed part of a storable list is storable. */
  lemma RefreshStorable(live: Live, entries: seq<Favorite>)
    requires TypedLive(live) && Normal(entries) && AllTyped(entries)
    ensures Normal(RefreshAll(live, entries)) && AllTyped(RefreshAll(live, entries))
  {
    RefreshAllTidy(live, entries);
    RefreshAllTyped(live, entries);
  }

  /** The list a delete leaves; it is not rewritten when the id is absent and no snapshot has changed. */
  function DeleteList(live: Live, entries: seq<Favorite>, id: string): seq<Favorite> {
    if HasId(entries, id) || Stale(live, entries) then RefreshAll(live, Without(entries, id)) else entries
  }

  lemma PutStorable(live: Live, entries: seq<Favorite>, id: string, slot: Option<nat>, now: int)
    requires TypedLive(live) && Normal(entries) && AllTyped(entries) && SanitizeId(id) == Some(id) && live(id).Some?
    requires now > 0 && IsI64(now)
    ensures Normal(PutList(live, entries, id, slot, now)) && AllTyped(PutList(live, entries, id, slot, now))
  {
    PutIsNormal(live, entries, id, slot, now);
    WithoutTyped(entries, id);
    var rest := Without(entries, id);
    RefreshAllTyped(live, Take(InsertAt(rest, Place(slot, |rest|), Favorite(id, now, live(id))), MAX_FAVORITES));
  }

  /** The row of one favourites key. */
  class FavoritesStore {
    var row: Option<Row>
    /** The list last written. */
    ghost var list: seq<Favorite>

    /** What is stored is a short list of distinct acceptable ids. */
    ghost predicate Valid()
      reads this
    {
      && Normal(list) && AllTyped(list)
      && (row.None? ==> list == [])
      && (row.Some? ==> row.value.payload == EncodeFavorites(list))
    }

    /** The favourites a request at `now` works on. */
    ghost function Contents(now: int): seq<Favorite>
      reads this
    {
      if row.Some? && row.value.expiresAt > now then list else []
    }

    constructor ()
      ensures Valid() && row == None
    {
      row, list := None, [];
    }

    method Read(now: int) returns (r: seq<Favorite>)
      requires Valid()
      ensures r == Contents(now)
    {
      ReadsBackWhatWasWritten(list, now);
      r := if row.Some? && row.value.expiresAt > now then ReadJson(row.value.payload, now) else [];
    }

    method Write(entries: seq<Favorite>, now: int)
      requires Normal(entries) && AllTyped(entries)
      modifies this
      ensures Valid() && list == entries && Contents(now) == entries
      ensures row.Some? && row.value.expiresAt == now + FAVORITES_TTL_SECONDS
    {
      row, list := Some(Row(EncodeFavorites(entries), now + FAVORITES_TTL_SECONDS)), entries;
    }

    method RefreshTtl(now: int)
      requires Valid()
      modifies `row
      ensures Valid() && Contents(now) == old(Contents(now))
      ensures old(row).Some? && old(row).value.expiresAt > now ==>
                row == Some(old(row).value.(expiresAt := now + FAVORITES_TTL_SECONDS))
    {
      if row.Some? && row.value.expiresAt > now {
        row := Some(row.value.(expiresAt := now + FAVORITES_TTL_SECONDS));
      }
    }

    /** `get_favorites`: snapshots are brought up to date, and written back only if one changed. */
    method Get(live: Live, now: int) returns (items: seq<Summary>)
      requires Valid() && TypedLive(live)
      modifies this
      ensures Valid()
      ensures Contents(now) == if Stale(live, old(Contents(now))) then RefreshAll(live, old(Contents(now))) else old(Contents(now))
      ensures Shows(items, RefreshAll(live, old(Contents(now))))
    {
      var entries := Read(now);
      RefreshStorable(live, entries);
      var persist, next;
      items, persist, next := BuildResponse(live, entries);
      assert Take(entries, MAX_FAVORITES) == entries;
      if persist {
        Write(next, now);
      } else {
        RefreshTtl(now);
      }
    }

    /** `upsert_favorite`. */
    method Put(live: Live, rawId: string, slot: Option<nat>, now: int)
      returns (error: Option<FavoriteError>, items: seq<Summary>)
      requires Valid() && TypedLive(live) && now > 0 && IsI64(now)
      modifies this
      ensures Valid()
      ensures error == PutError(live, old(Contents(now)), rawId, slot)
      ensures error.Some? ==> row == old(row) && list == old(list)
      ensures error.None? ==> Contents(now) == PutList(live, old(Contents(now)), SanitizeId(rawId).value, slot, now)
      ensures error.None? ==> Shows(items, Contents(now))
    {
      var entries := Read(now);
      var result;
      result, items := Upsert(live, entries, rawId, slot, now);
      match result {
        case Err(e) => error := Some(e);
        case Ok(next) =>
          SanitizedIdIsFixed(rawId);
          PutStorable(live, entries, SanitizeId(rawId).value, slot, now);
          Write(next, now);
          error := None;
      }
    }

    /** `delete_favorite`. */
    method Delete(live: Live, rawId: string, now: int) returns (error: Option<FavoriteError>, items: seq<Summary>)
      requires Valid() && TypedLive(live)
      modifies this
      ensures Valid()
      ensures error == if SanitizeId(rawId).None? then Some(BadRequest) else None
      ensures error.Some? ==> row == old(row) && list == old(list)
      ensures error.None? ==>
                var before, id := old(Contents(now)), SanitizeId(rawId).value;
                && Contents(now) == DeleteList(live, before, id)
                && !HasId(Contents(now), id)
                && Shows(items, RefreshAll(live, Without(before, id)))
    {
      var sanitized := SanitizeId(rawId);
      if sanitized.None? {
        return Some(BadRequest), [];
      }
      var id := sanitized.value;
      var entries := Read(now);
      DeleteFacts(live, entries, id);
      var rest := Without(entries, id);
      var removed := exists i :: 0 <= i < |entries| && entries[i].id == id;
      var persist, next;
      items, persist, next := BuildResponse(live, rest);
      assert Take(rest, MAX_FAVORITES) == rest;
      if persist || removed {
        Write(next, now);
      } else {
        RefreshTtl(now);
      }
      error := None;
    }
  }

  lemma DeleteFacts(live: Live, entries: seq<Favorite>, id: string)
    requires TypedLive(live) && Normal(entries) && AllTyped(entries)
    ensures var rest := Without(entries, id);
            var next := RefreshAll(live, rest);
            && |rest| <= |entries| && (!HasId(entries, id) ==> rest == entries)
            && Normal(next) && AllTyped(next) && !HasId(next, id)
  {
    WithoutTidy(entries, id);
    WithoutTyped(entries, id);
    RefreshStorable(live, Without(entries, id));
    RefreshedLacks(live, Without(entries, id), id);
    if !HasId(entries, id) {
      WithoutNone(entries, id);
    }
  }

  lemma RefreshedLacks(live: Live, entries: seq<Favorite>, id: string)
    requires !HasId(entries, id)
    ensures !HasId(RefreshAll(live, entries), id)
  {
    var r := RefreshAll(live, entries);
    forall i | 0 <= i < |r| ensures r[i].id != id {
      RefreshAllStems(live, entries, i);
      var k :| 0 <= k < |entries| && Refreshed(live, entries[k]) == Some(r[i]);
      assert entries[k].id == r[i].id;
    }
  }

  // ----- Older stored forms -----

  function BareIds(ids: seq<string>): (r: seq<Json>)
    ensures |r| == |ids| && forall i :: 0 <= i < |r| ==> r[i] == JString(ids[i])
  {
    Map(ids, (id: string) => JString(id))
  }

  function SavedNow(ids: seq<string>, now: int): (r: seq<Favorite>)
    ensures |r| == |ids| && forall i :: 0 <= i < |r| ==> r[i] == Favorite(ids[i], now, None)
  {
    Map(ids, (id: string) => Favorite(id, now, None))
  }

  lemma {:induction false} BareIdsRead(ids: seq<string>, now: int)
    ensures DecodeItems(BareIds(ids), now) == SavedNow(ids, now)
  {
    if ids != [] {
      var n := |ids| - 1;
      BareIdsRead(ids[..n], now);
      assert BareIds(ids) == BareIds(ids[..n]) + [JString(ids[n])];
      DecodeSnoc(BareIds(ids[..n]), JString(ids[n]), now);
    }
  }

  /**
   A list of bare ids is read as favourites saved now; lists are found under
   `entries`, or else under `items`, at any depth; anything else is no favourites.
   */
  lemma OlderFormsRead(ids: seq<string>, m: map<Key, Json>, now: int)
    ensures Normalize(JArray(BareIds(ids)), now) == SavedNow(ids, now)
    ensures Entries in m ==> Normalize(JObject(m), now) == Normalize(m[Entries], now)
    ensures Entries !in m && Items in m ==> Normalize(JObject(m), now) == Normalize(m[Items], now)
    ensures Entries !in m && Items !in m ==> Normalize(JObject(m), now) == []
  {
    BareIdsRead(ids, now);
  }
}
