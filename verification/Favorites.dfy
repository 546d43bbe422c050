/**
 The favourites list (radio-service-rs/src/favorites.rs and the favourite handlers
 of radio-service-rs/src/http.rs): a bounded list without duplicates.
 */
module Favorites {
  import opened Wrappers
  import opened Sequences
  import opened Text
  import opened Stations
  import opened StationIndex

  const MAX_FAVORITES := 6

  datatype Favorite = Favorite(id: string, savedAt: int, station: Option<Summary>)

  // ----- Identifiers -----

  predicate IdChar(c: char) {
    'a' <= c <= 'z' || 'A' <= c <= 'Z' || '0' <= c <= '9' || c == ':' || c == '_' || c == '-'
  }

  /** `sanitize_station_id`. */
  function SanitizeId(value: string): Option<string> {
    var t := Trim(value);
    if 3 <= |t| <= 128 && forall i :: 0 <= i < |t| ==> IdChar(t[i]) then Some(t) else None
  }

  lemma SanitizedIdIsFixed(value: string)
    requires SanitizeId(value).Some?
    ensures SanitizeId(SanitizeId(value).value) == SanitizeId(value)
  {
    TrimTrimmed(Trim(value));
  }

  // ----- Lists -----

  predicate HasId(entries: seq<Favorite>, id: string) {
    exists i :: 0 <= i < |entries| && entries[i].id == id
  }

  /** The cleaned-up form of an entry whose id is acceptable. */
  function CleanEntry(e: Favorite, id: string, now: int): Favorite {
    e.(id := id, savedAt := if e.savedAt > 0 then e.savedAt else now)
  }

  /** The first six distinct acceptable ids, in order. */
  function Deduped(entries: seq<Favorite>, now: int): seq<Favorite> {
    if entries == [] then []
    else
      var kept := Deduped(entries[..|entries| - 1], now);
      var e := entries[|entries| - 1];
      if |kept| >= MAX_FAVORITES then kept
      else
        match SanitizeId(e.id)
        case None => kept
        case Some(id) => if HasId(kept, id) then kept else kept + [CleanEntry(e, id, now)]
  }

  /** `dedupe_entries`: the loop stops once six entries are kept. */
  method DedupeEntries(entries: seq<Favorite>, now: int) returns (r: seq<Favorite>)
    ensures r == Deduped(entries, now)
  {
    r := [];
    var seen: set<string> := {};
    for i := 0 to |entries|
      invariant r == Deduped(entries[..i], now) && |r| < MAX_FAVORITES
      invariant forall id :: id in seen <==> HasId(r, id)
    {
      assert entries[..i + 1][..i] == entries[..i];
      match SanitizeId(entries[i].id) {
        case Some(id) =>
          if id !in seen {
            HasIdSnoc(r, CleanEntry(entries[i], id, now));
            seen := seen + {id};
            r := r + [CleanEntry(entries[i], id, now)];
          }
        case None =>
      }
      if |r| >= MAX_FAVORITES {
        DedupedStops(entries, i + 1, now);
        return;
      }
    }
    assert entries[..|entries|] == entries;
  }

  lemma HasIdSnoc(entries: seq<Favorite>, e: Favorite)
    ensures forall id :: HasId(entries + [e], id) <==> HasId(entries, id) || e.id == id
  {
    var all := entries + [e];
    forall id ensures HasId(all, id) <==> HasId(entries, id) || e.id == id {
      if HasId(entries, id) {
        var i :| 0 <= i < |entries| && entries[i].id == id;
        assert all[i].id == id;
      }
      assert all[|entries|] == e;
    }
  }

  lemma {:induction false} DedupedStops(entries: seq<Favorite>, n: nat, now: int)
    requires n <= |entries| && |Deduped(entries[..n], now)| >= MAX_FAVORITES
    ensures Deduped(entries, now) == Deduped(entries[..n], now)
    decreases |entries|
  {
    if n < |entries| {
      assert entries[..|entries| - 1][..n] == entries[..n];
      DedupedStops(entries[..|entries| - 1], n, now);
    } else {
      assert entries[..n] == entries;
    }
  }

  /** A list as it may be stored: short, without repeated ids, every id acceptable, every time positive. */
  predicate Tidy(entries: seq<Favorite>) {
    Unique(entries) && forall i :: 0 <= i < |entries| ==> Acceptable(entries[i])
  }

  predicate Unique(entries: seq<Favorite>) {
    forall i, j :: 0 <= i < j < |entries| ==> entries[i].id != entries[j].id
  }

  predicate Acceptable(e: Favorite) {
    SanitizeId(e.id) == Some(e.id) && e.savedAt > 0
  }

  predicate Normal(entries: seq<Favorite>) {
    |entries| <= MAX_FAVORITES && Tidy(entries)
  }

  /** Whatever the input, what is kept is normal. */
  lemma {:induction false} DedupedIsNormal(entries: seq<Favorite>, now: int)
    requires now > 0
    ensures Normal(Deduped(entries, now))
  {
    if entries != [] {
      DedupedIsNormal(entries[..|entries| - 1], now);
      var kept, e := Deduped(entries[..|entries| - 1], now), entries[|entries| - 1];
      if SanitizeId(e.id).Some? {
        SanitizedIdIsFixed(e.id);
        forall i | 0 <= i < |kept| ensures HasId(kept, kept[i].id) {
        }
      }
    }
  }

  lemma DedupedSnoc(front: seq<Favorite>, e: Favorite, now: int)
    requires Acceptable(e) && !HasId(Deduped(front, now), e.id)
    ensures Deduped(front + [e], now)
            == Deduped(front, now) + if |Deduped(front, now)| >= MAX_FAVORITES then [] else [e]
  {
    assert (front + [e])[..|front|] == front;
  }

  lemma TidyFront(entries: seq<Favorite>)
    requires Tidy(entries) && entries != []
    ensures var n := |entries| - 1;
            && Tidy(entries[..n]) && Acceptable(entries[n]) && entries == entries[..n] + [entries[n]]
            && !HasId(Take(entries[..n], MAX_FAVORITES), entries[n].id)
  {
  }

  /** A tidy list is only cut off behind its sixth entry. */
  lemma {:induction false} DedupedOfTidy(entries: seq<Favorite>, now: int)
    requires Tidy(entries)
    ensures Deduped(entries, now) == Take(entries, MAX_FAVORITES)
  {
    if entries != [] {
      var n := |entries| - 1;
      TidyFront(entries);
      DedupedOfTidy(entries[..n], now);
      DedupedSnoc(entries[..n], entries[n], now);
    }
  }

  // ----- Putting, deleting, refreshing -----

  function NotNamed(id: string): Favorite -> bool {
    (e: Favorite) => e.id != id
  }

  function Without(entries: seq<Favorite>, id: string): seq<Favorite> {
    Filter(entries, NotNamed(id))
  }

  function InsertAt(entries: seq<Favorite>, index: nat, e: Favorite): seq<Favorite>
    requires index <= |entries|
  {
    entries[..index] + [e] + entries[index..]
  }

  /** What the catalogue knows about an id right now. */
  type Live = string -> Option<Summary>

  /** `get_station_by_id`, projected, as the favourite handlers look stations up. */
  function Lookup(indexById: map<string, nat>, stations: seq<Station>): Live {
    (id: string) =>
      if id in indexById && indexById[id] < |stations| then Some(Project(stations[indexById[id]])) else None
  }

  /** `live` finds the station with the id, if there is one. */
  ghost predicate FindsById(live: Live, stations: seq<Station>, id: string) {
    && (forall i :: 0 <= i < |stations| && stations[i].id == id ==>
          live(id).Some? && Summarizes(live(id).value, stations[i]))
    && (live(id).None? <==> forall i :: 0 <= i < |stations| ==> stations[i].id != id)
  }

  lemma IdIndexFinds(stations: seq<Station>, id: string)
    requires DistinctIds(stations)
    ensures FindsById(Lookup(IdIndex(Views(stations)), stations), stations, id)
  {
    var vs := Views(stations);
    IdIndexExact(vs, id);
    if id in IdIndex(vs) {
      var k := IdIndex(vs)[id];
      ProjectSummarizes(stations[k]);
      forall i | 0 <= i < |stations| && stations[i].id == id ensures i == k {
        assert vs[k].id == stations[k].id;
      }
    } else {
      forall i | 0 <= i < |stations| ensures stations[i].id != id {
        assert vs[i].id == stations[i].id;
      }
    }
  }

  /** With distinct ids, a lookup through the index is a lookup by id. */
  lemma LookupIsById(lower: string -> string, stations: seq<Station>, id: string)
    requires DistinctIds(stations)
    ensures FindsById(Lookup(Index(lower, Views(stations)).indexById, stations), stations, id)
  {
    IdIndexFinds(stations, id);
  }

  /** The entry with its snapshot brought up to date; nothing if there is nothing to show for it. */
  function Refreshed(live: Live, e: Favorite): Option<Favorite> {
    match live(e.id)
    case Some(s) => Some(e.(station := Some(s)))
    case None => if e.station.Some? then Some(e) else None
  }

  function RefreshAll(live: Live, entries: seq<Favorite>): seq<Favorite> {
    if entries == [] then []
    else
      var front := RefreshAll(live, entries[..|entries| - 1]);
      match Refreshed(live, entries[|entries| - 1]) case Some(e) => front + [e] case None => front
  }

  /** Some live station differs from the stored snapshot. */
  predicate Stale(live: Live, entries: seq<Favorite>) {
    exists i :: 0 <= i < |entries| && live(entries[i].id).Some? && entries[i].station != live(entries[i].id)
  }

  /** The stations shown are the snapshots of the entries. */
  predicate Shows(items: seq<Summary>, entries: seq<Favorite>) {
    |items| == |entries| && forall i :: 0 <= i < |items| ==> entries[i].station == Some(items[i])
  }

  /** `build_favorites_response`: the stations shown, whether a snapshot changed, and the entries to keep. */
  method BuildResponse(live: Live, entries: seq<Favorite>)
    returns (items: seq<Summary>, persist: bool, next: seq<Favorite>)
    ensures next == RefreshAll(live, Take(entries, MAX_FAVORITES))
    ensures persist <==> Stale(live, Take(entries, MAX_FAVORITES))
    ensures Shows(items, next)
  {
    var shown := Take(entries, MAX_FAVORITES);
    items, persist, next := [], false, [];
    for i := 0 to |shown|
      invariant next == RefreshAll(live, shown[..i])
      invariant persist <==> Stale(live, shown[..i])
      invariant Shows(items, next)
    {
      assert shown[..i + 1][..i] == shown[..i];
      StaleStep(live, shown, i);
      var e := shown[i];
      match live(e.id) {
        case Some(s) =>
          if e.station != Some(s) {
            persist := true;
          }
          items, next := items + [s], next + [e.(station := Some(s))];
        case None =>
          if e.station.Some? {
            items, next := items + [e.station.value], next + [e];
          }
      }
    }
    assert shown[..|shown|] == shown;
  }

  lemma StaleStep(live: Live, entries: seq<Favorite>, i: nat)
    requires i < |entries|
    ensures Stale(live, entries[..i + 1])
            <==> Stale(live, entries[..i]) || (live(entries[i].id).Some? && entries[i].station != live(entries[i].id))
  {
    var front, all := entries[..i], entries[..i + 1];
    if Stale(live, front) {
      var k :| 0 <= k < |front| && live(front[k].id).Some? && front[k].station != live(front[k].id);
      assert all[k] == front[k];
    }
    if Stale(live, all) {
      var k :| 0 <= k < |all| && live(all[k].id).Some? && all[k].station != live(all[k].id);
      assert k < i ==> front[k] == all[k];
    }
    assert all[i] == entries[i];
  }

  datatype FavoriteError = BadRequest | NotFound | Conflict

  /** The list a successful put leaves. */
  function PutList(live: Live, entries: seq<Favorite>, id: string, slot: Option<nat>, now: int): seq<Favorite>
    requires live(id).Some?
  {
    var rest := Without(entries, id);
    RefreshAll(live, Take(InsertAt(rest, Place(slot, |rest|), Favorite(id, now, live(id))), MAX_FAVORITES))
  }

  /** Whether, and with what error, a put is refused. */
  function PutError(live: Live, entries: seq<Favorite>, rawId: string, slot: Option<nat>): Option<FavoriteError> {
    match SanitizeId(rawId)
    case None => Some(BadRequest)
    case Some(id) =>
      if slot.Some? && slot.value >= MAX_FAVORITES then Some(BadRequest)
      else if live(id).None? then Some(NotFound)
      else if slot.None? && |Without(entries, id)| >= MAX_FAVORITES then Some(Conflict)
      else None
  }

  /** Where a put places its entry. */
  function Place(slot: Option<nat>, length: nat): nat {
    match slot case Some(s) => Min(s, length) case None => length
  }

  /** Insert at the slot, or append behind the last entry; with six others and no slot, refuse. */
  method PlaceEntry(rest: seq<Favorite>, slot: Option<nat>, e: Favorite) returns (r: Option<seq<Favorite>>)
    requires |rest| <= MAX_FAVORITES && (slot.Some? ==> slot.value < MAX_FAVORITES)
    ensures r.None? <==> slot.None? && |rest| >= MAX_FAVORITES
    ensures r.Some? ==> r.value == InsertAt(rest, Place(slot, |rest|), e)
  {
    if slot.Some? && slot.value < |rest| {
      return Some(rest[..slot.value] + [e] + rest[slot.value..]);
    }
    if |rest| >= MAX_FAVORITES {
      return None;
    }
    assert rest + [e] == InsertAt(rest, |rest|, e);
    r := Some(rest + [e]);
  }

  /** The list manipulation of `upsert_favorite`. */
  method Upsert(live: Live, entries: seq<Favorite>, rawId: string, slot: Option<nat>, now: int)
    returns (r: Result<seq<Favorite>, FavoriteError>, items: seq<Summary>)
    requires Normal(entries) && now > 0
    ensures r.Err? <==> PutError(live, entries, rawId, slot).Some?
    ensures r.Err? ==> PutError(live, entries, rawId, slot) == Some(r.error)
    ensures r.Ok? ==> r.value == PutList(live, entries, SanitizeId(rawId).value, slot, now) && Shows(items, r.value)
  {
    var sanitized := SanitizeId(rawId);
    if sanitized.None? || (slot.Some? && slot.value >= MAX_FAVORITES) {
      return Err(BadRequest), [];
    }
    var id := sanitized.value;
    var station := live(id);
    if station.None? {
      return Err(NotFound), [];
    }
    WithoutTidy(entries, id);
    SanitizedIdIsFixed(rawId);
    var rest := RemoveFirst(entries, id);
    var e := Favorite(id, now, station);
    var list := PlaceEntry(rest, slot, e);
    if list.None? {
      return Err(Conflict), [];
    }
    InsertTidy(entries, id, Place(slot, |rest|), e);
    DedupedOfTidy(list.value, now);
    var kept := DedupeEntries(list.value, now);
    var shown, _, next := BuildResponse(live, kept);
    assert Take(kept, MAX_FAVORITES) == kept;
    r, items := Ok(next), shown;
  }

  /** Remove the entry with the id, if there is one. */
  method RemoveFirst(entries: seq<Favorite>, id: string) returns (r: seq<Favorite>)
    requires Tidy(entries)
    ensures r == Without(entries, id)
  {
    for i := 0 to |entries|
      invariant forall k :: 0 <= k < i ==> entries[k].id != id
    {
      if entries[i].id == id {
        r := entries[..i] + entries[i + 1..];
        WithoutOne(entries, i, id);
        return;
      }
    }
    r := entries;
    WithoutNone(entries, id);
  }

  predicate Lacks(entries: seq<Favorite>, id: string) {
    forall k :: 0 <= k < |entries| ==> entries[k].id != id
  }

  lemma {:induction false} WithoutNone(entries: seq<Favorite>, id: string)
    requires Lacks(entries, id)
    ensures Without(entries, id) == entries
  {
    if entries != [] {
      WithoutNone(entries[..|entries| - 1], id);
    }
  }

  lemma WithoutConcat(a: seq<Favorite>, b: seq<Favorite>, id: string)
    ensures Without(a + b, id) == Without(a, id) + Without(b, id)
  {
    FilterConcat(a, b, NotNamed(id));
  }

  lemma WithoutSingle(e: Favorite)
    ensures Without([e], e.id) == []
  {
    assert [e][..0] == [];
  }

  lemma WithoutMiddle(front: seq<Favorite>, e: Favorite, back: seq<Favorite>)
    requires Lacks(front, e.id) && Lacks(back, e.id)
    ensures Without(front + ([e] + back), e.id) == front + back
  {
    WithoutConcat(front, [e] + back, e.id);
    WithoutConcat([e], back, e.id);
    WithoutSingle(e);
    WithoutNone(front, e.id);
    WithoutNone(back, e.id);
  }

  lemma OthersLack(entries: seq<Favorite>, i: nat)
    requires Unique(entries) && i < |entries|
    ensures Lacks(entries[..i], entries[i].id) && Lacks(entries[i + 1..], entries[i].id)
    ensures entries == entries[..i] + ([entries[i]] + entries[i + 1..])
  {
  }

  lemma WithoutOne(entries: seq<Favorite>, i: nat, id: string)
    requires Unique(entries) && i < |entries| && entries[i].id == id
    ensures Without(entries, id) == entries[..i] + entries[i + 1..]
  {
    OthersLack(entries, i);
    WithoutMiddle(entries[..i], entries[i], entries[i + 1..]);
  }

  lemma TidyRemove(entries: seq<Favorite>, i: nat)
    requires Tidy(entries) && i < |entries|
    ensures Tidy(entries[..i] + entries[i + 1..]) && !HasId(entries[..i] + entries[i + 1..], entries[i].id)
  {
  }

  lemma WithoutTidy(entries: seq<Favorite>, id: string)
    requires Tidy(entries)
    ensures Tidy(Without(entries, id)) && !HasId(Without(entries, id), id)
    ensures |Without(entries, id)| == |entries| - (if HasId(entries, id) then 1 else 0)
  {
    if HasId(entries, id) {
      var i :| 0 <= i < |entries| && entries[i].id == id;
      WithoutOne(entries, i, id);
      TidyRemove(entries, i);
    } else {
      WithoutNone(entries, id);
    }
  }

  lemma InsertTidy(entries: seq<Favorite>, id: string, index: nat, e: Favorite)
    requires Tidy(entries) && index <= |Without(entries, id)|
    requires e.id == id && SanitizeId(id) == Some(id) && e.savedAt > 0
    ensures Tidy(InsertAt(Without(entries, id), index, e))
  {
    WithoutTidy(entries, id);
    TidyInsert(Without(entries, id), index, e);
  }

  lemma TidyInsert(rest: seq<Favorite>, index: nat, e: Favorite)
    requires Tidy(rest) && !HasId(rest, e.id) && index <= |rest|
    requires SanitizeId(e.id) == Some(e.id) && e.savedAt > 0
    ensures Tidy(InsertAt(rest, index, e))
  {
    forall i | 0 <= i < |rest| ensures rest[i].id != e.id {
      assert !HasId(rest, e.id);
    }
  }

  lemma {:induction false} RefreshAllStems(live: Live, entries: seq<Favorite>, i: nat)
    requires i < |RefreshAll(live, entries)|
    ensures exists k :: 0 <= k < |entries| && Refreshed(live, entries[k]) == Some(RefreshAll(live, entries)[i])
  {
    var n := |entries| - 1;
    var front := RefreshAll(live, entries[..n]);
    if i < |front| {
      RefreshAllStems(live, entries[..n], i);
      var k :| 0 <= k < n && Refreshed(live, entries[..n][k]) == Some(front[i]);
      assert Refreshed(live, entries[k]) == Some(RefreshAll(live, entries)[i]);
    } else {
      assert Refreshed(live, entries[n]) == Some(RefreshAll(live, entries)[i]);
    }
  }

  lemma {:induction false} RefreshAllTidy(live: Live, entries: seq<Favorite>)
    requires Tidy(entries)
    ensures Tidy(RefreshAll(live, entries)) && |RefreshAll(live, entries)| <= |entries|
  {
    if entries != [] {
      var n := |entries| - 1;
      RefreshAllTidy(live, entries[..n]);
      RefreshedIdsDiffer(live, entries, n);
      assert Acceptable(entries[n]);
      if Refreshed(live, entries[n]).Some? {
        TidySnoc(RefreshAll(live, entries[..n]), Refreshed(live, entries[n]).value);
      }
    }
  }

  lemma TidySnoc(front: seq<Favorite>, e: Favorite)
    requires Tidy(front) && !HasId(front, e.id) && Acceptable(e)
    ensures Tidy(front + [e])
  {
    TidyInsert(front, |front|, e);
    assert InsertAt(front, |front|, e) == front + [e];
  }

  lemma RefreshedIdsDiffer(live: Live, entries: seq<Favorite>, n: nat)
    requires Unique(entries) && n < |entries|
    ensures !HasId(RefreshAll(live, entries[..n]), entries[n].id)
  {
    var front := RefreshAll(live, entries[..n]);
    forall i | 0 <= i < |front| ensures front[i].id != entries[n].id {
      RefreshAllStems(live, entries[..n], i);
      var k :| 0 <= k < n && Refreshed(live, entries[..n][k]) == Some(front[i]);
      assert entries[k].id == front[i].id;
    }
  }

  /** A put leaves a normal list. */
  lemma PutIsNormal(live: Live, entries: seq<Favorite>, id: string, slot: Option<nat>, now: int)
    requires Normal(entries) && SanitizeId(id) == Some(id) && live(id).Some? && now > 0
    ensures Normal(PutList(live, entries, id, slot, now))
  {
    var rest := Without(entries, id);
    var e := Favorite(id, now, live(id));
    InsertTidy(entries, id, Place(slot, |rest|), e);
    var list := Take(InsertAt(rest, Place(slot, |rest|), e), MAX_FAVORITES);
    assert Tidy(list);
    RefreshAllTidy(live, list);
  }

  lemma {:induction false} RefreshKeepsLive(live: Live, entries: seq<Favorite>, i: nat)
    requires i < |entries| && live(entries[i].id).Some?
    ensures entries[i].(station := live(entries[i].id)) in RefreshAll(live, entries)
  {
    if i < |entries| - 1 {
      RefreshKeepsLive(live, entries[..|entries| - 1], i);
    }
  }

  /** A put that is not refused keeps what was put, also when the list is full and the last entry has to go. */
  lemma PutIsKept(live: Live, entries: seq<Favorite>, rawId: string, slot: Option<nat>, now: int)
    requires Normal(entries) && PutError(live, entries, rawId, slot).None?
    ensures var id := SanitizeId(rawId).value;
            Favorite(id, now, live(id)) in PutList(live, entries, id, slot, now)
  {
    var id := SanitizeId(rawId).value;
    WithoutTidy(entries, id);
    var rest, e := Without(entries, id), Favorite(id, now, live(id));
    var at := Place(slot, |rest|);
    var list := Take(InsertAt(rest, at, e), MAX_FAVORITES);
    assert at < |list| && list[at] == e;
    RefreshKeepsLive(live, list, at);
  }

  /** A put that names a slot never conflicts, and one that does not conflicts exactly on six other favourites. */
  lemma ConflictExactly(live: Live, entries: seq<Favorite>, rawId: string, slot: Option<nat>)
    requires Normal(entries)
    ensures PutError(live, entries, rawId, slot) == Some(Conflict)
            <==> && slot.None? && SanitizeId(rawId).Some? && live(SanitizeId(rawId).value).Some?
                 && |entries| == MAX_FAVORITES && !HasId(entries, SanitizeId(rawId).value)
  {
    if SanitizeId(rawId).Some? {
      WithoutTidy(entries, SanitizeId(rawId).value);
    }
  }

  // ----- What refreshing keeps -----

  function Showable(live: Live): Favorite -> bool {
    (e: Favorite) => live(e.id).Some? || e.station.Some?
  }

  function UpToDate(live: Live): Favorite -> Favorite {
    (e: Favorite) => if live(e.id).Some? then e.(station := live(e.id)) else e
  }

  /**
   Refreshing keeps, in order, the entries with a live station or a snapshot; a live
   station replaces the snapshot, and without one the snapshot stays.
   */
  lemma {:induction false} RefreshAllExactly(live: Live, entries: seq<Favorite>)
    ensures RefreshAll(live, entries) == Map(Filter(entries, Showable(live)), UpToDate(live))
  {
    if entries != [] {
      var front, e := entries[..|entries| - 1], entries[|entries| - 1];
      RefreshAllExactly(live, front);
      assert entries == front + [e];
      FilterSnoc(front, e, Showable(live));
      MapSnoc(Filter(front, Showable(live)), e, UpToDate(live));
    }
  }

  /** An id is its trimmed text, of three to 128 letters, digits, colons, underscores and hyphens. */
  lemma IdExactly(value: string, id: string)
    ensures SanitizeId(value) == Some(id)
            <==> && id == Trim(value) && 3 <= |id| <= 128
                 && forall i :: 0 <= i < |id| ==>
                      'a' <= id[i] <= 'z' || 'A' <= id[i] <= 'Z' || '0' <= id[i] <= '9' || id[i] in ":_-"
  {
  }
}
