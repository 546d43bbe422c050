/**
 The three station tables and the transactions on them
 (radio-service-rs/src/stations/storage.rs, radio-service-rs/migrations).
 A load is two separate SELECTs; other sessions may commit between them.
 */
module StationTables {
  import opened Wrappers
  import opened Sequences
  import opened Text
  import opened Stations
  import opened Fingerprint

  datatype Header = Header(
    schemaVersion: int, updatedAt: int, source: Option<string>, requests: seq<string>, total: nat, fingerprint: string)

  datatype Row = Row(payloadId: int, station: Station)

  /** `station_payloads`, `stations`, and the one row of `station_state`. */
  datatype Tables = Tables(
    headers: map<int, Header>, rows: map<string, Row>, current: Option<int>, stamp: int, nextId: int)

  datatype StorageError = MissingSchemaVersion | DuplicateFingerprint | DuplicateId

  const INSERT_BATCH_SIZE := 500

  // ----- Writing -----

  function FingerprintOf(h: Hasher, p: Payload): string {
    match p.fingerprint case Some(fp) => fp case None => SetFingerprint(h, p.stations)
  }

  function HeaderOf(h: Hasher, p: Payload): Header
    requires p.schemaVersion.Some?
  {
    Header(p.schemaVersion.value, p.updatedAt, p.source, p.requests, p.total, FingerprintOf(h, p))
  }

  function CurrentFingerprint(t: Tables): Option<string> {
    match t.current
    case None => None
    case Some(id) => if id in t.headers then Some(t.headers[id].fingerprint) else None
  }

  /** One INSERT ... ON CONFLICT DO UPDATE over a chunk. */
  function Upsert(rows: map<string, Row>, id: int, chunk: seq<Station>): map<string, Row> {
    if chunk == [] then rows
    else
      var last := chunk[|chunk| - 1];
      Upsert(rows, id, chunk[..|chunk| - 1])[last.id := Row(id, last)]
  }

  /** Chunk after chunk; a statement may not touch one row twice. */
  function InsertChunks(rows: map<string, Row>, id: int, stations: seq<Station>): Option<map<string, Row>>
    decreases |stations|
  {
    if stations == [] then Some(rows)
    else
      var chunk := Take(stations, INSERT_BATCH_SIZE);
      if !DistinctIds(chunk) then None
      else InsertChunks(Upsert(rows, id, chunk), id, stations[|chunk|..])
  }

  /** The row set after deleting every other payload, with the foreign key cascading. */
  function Cascade(rows: map<string, Row>, id: int): map<string, Row> {
    map k | k in rows && rows[k].payloadId == id :: rows[k]
  }

  /** `persist_payload` as one transaction: the tables it commits, and whether the payload is new. */
  function Persist(h: Hasher, t: Tables, p: Payload, now: int): Result<(Tables, bool), StorageError> {
    var fp := FingerprintOf(h, p);
    if CurrentFingerprint(t) == Some(fp) then Ok((t.(stamp := now), false))
    else if p.schemaVersion.None? then Err(MissingSchemaVersion)
    else if exists id :: id in t.headers && t.headers[id].fingerprint == fp then Err(DuplicateFingerprint)
    else
      match InsertChunks(t.rows, t.nextId, p.stations)
      case None => Err(DuplicateId)
      case Some(rows) =>
        Ok((Tables(map[t.nextId := HeaderOf(h, p)], Cascade(rows, t.nextId), Some(t.nextId), now, t.nextId + 1), true))
  }

  // ----- Reading -----

  /** `normalize_string_array`, and `sanitize_list` of persisted.rs. */
  function SanitizeList(values: seq<string>): (r: seq<string>)
    ensures forall i :: 0 <= i < |r| ==> Trimmed(r[i]) && r[i] != ""
  {
    if values == [] then []
    else
      var front := SanitizeList(values[..|values| - 1]);
      var v := Trim(values[|values| - 1]);
      if v == "" then front else front + [v]
  }

  predicate CleanList(values: seq<string>) {
    forall i :: 0 <= i < |values| ==> Trimmed(values[i]) && values[i] != ""
  }

  lemma {:induction false} SanitizeClean(values: seq<string>)
    requires CleanList(values)
    ensures SanitizeList(values) == values
  {
    if values != [] {
      SanitizeClean(values[..|values| - 1]);
      TrimTrimmed(values[|values| - 1]);
    }
  }

  /** `row_to_station`. */
  function RowToStation(s: Station): Station {
    s.(languages := SanitizeList(s.languages), tags := SanitizeList(s.tags))
  }

  function Visible(): string -> bool {
    (v: string) => v != ""
  }

  /** The values trimmed, without those that are then empty, in order. */
  predicate TrimmedList(values: seq<string>, trimmed: seq<string>) {
    trimmed == Filter(Map(values, Trim), Visible())
  }

  /** `r` is the station `s` as a load returns it: nothing but blanks around languages and tags is lost. */
  predicate ReadBack(s: Station, r: Station) {
    && r == s.(languages := r.languages, tags := r.tags)
    && TrimmedList(s.languages, r.languages) && TrimmedList(s.tags, r.tags)
  }

  lemma {:induction false} SanitizeIsTrimming(values: seq<string>)
    ensures TrimmedList(values, SanitizeList(values))
  {
    if values != [] {
      var front, last := values[..|values| - 1], values[|values| - 1];
      SanitizeIsTrimming(front);
      assert Map(values, Trim) == Map(front, Trim) + [Trim(last)];
      FilterSnoc(Map(front, Trim), Trim(last), Visible());
    }
  }

  lemma RowReadsBack(s: Station, r: Station)
    ensures ReadBack(s, r) <==> r == RowToStation(s)
  {
    SanitizeIsTrimming(s.languages);
    SanitizeIsTrimming(s.tags);
  }

  /** A clean station is read back as it was written. */
  lemma CleanReadsBack(s: Station, r: Station)
    requires CleanStation(s) && ReadBack(s, r)
    ensures r == s
  {
    RowReadsBack(s, r);
    SanitizeClean(s.languages);
    SanitizeClean(s.tags);
  }

  predicate CleanStation(s: Station) {
    CleanList(s.languages) && CleanList(s.tags)
  }

  /** What a SELECT on `stations` may return: the rows of the payload, ordered by name, ties in any order. */
  ghost predicate Selects(t: Tables, id: int, collate: (string, string) -> bool, result: seq<Station>) {
    && (forall i, j :: 0 <= i < j < |result| ==> result[i].id != result[j].id && collate(result[i].name, result[j].name))
    && (forall i :: 0 <= i < |result| ==> HasRow(t, id, result[i].id) && ReadBack(t.rows[result[i].id].station, result[i]))
    && (forall key :: HasRow(t, id, key) ==> exists i :: 0 <= i < |result| && result[i].id == key)
  }

  predicate HasRow(t: Tables, id: int, key: string) {
    key in t.rows && t.rows[key].payloadId == id
  }

  /** The payload a load builds from a header and the station rows it read later. */
  function Assemble(header: Header, stations: seq<Station>): Payload {
    Payload(Some(header.schemaVersion), header.updatedAt, header.source, header.requests, header.total, stations,
            Some(header.fingerprint))
  }

  // ----- What chunked insertion does -----

  predicate HasId(stations: seq<Station>, key: string) {
    exists i :: 0 <= i < |stations| && stations[i].id == key
  }

  lemma HasIdSnoc(stations: seq<Station>, key: string)
    requires stations != []
    ensures HasId(stations, key) <==> HasId(stations[..|stations| - 1], key) || stations[|stations| - 1].id == key
  {
    var n := |stations| - 1;
    if HasId(stations[..n], key) {
      var i :| 0 <= i < n && stations[..n][i].id == key;
      assert stations[i].id == key;
    }
    if HasId(stations, key) {
      var i :| 0 <= i < |stations| && stations[i].id == key;
      assert i < n ==> stations[..n][i].id == key;
    }
  }

  /** The last station with the id. */
  function LastWith(stations: seq<Station>, key: string): (s: Station)
    requires HasId(stations, key)
    ensures s.id == key && s in stations
  {
    var last := stations[|stations| - 1];
    if last.id == key then last
    else
      HasIdSnoc(stations, key);
      LastWith(stations[..|stations| - 1], key)
  }

  lemma {:induction false} LastOfDistinct(stations: seq<Station>, i: nat)
    requires DistinctIds(stations) && i < |stations|
    ensures HasId(stations, stations[i].id) && LastWith(stations, stations[i].id) == stations[i]
  {
    if i < |stations| - 1 {
      LastOfDistinct(stations[..|stations| - 1], i);
    }
  }

  lemma {:induction false} UpsertKeys(rows: map<string, Row>, id: int, chunk: seq<Station>, key: string)
    ensures key in Upsert(rows, id, chunk) <==> key in rows || HasId(chunk, key)
    ensures key in rows && !HasId(chunk, key) ==> Upsert(rows, id, chunk)[key] == rows[key]
  {
    if chunk != [] {
      UpsertKeys(rows, id, chunk[..|chunk| - 1], key);
      HasIdSnoc(chunk, key);
    }
  }

  /** After an upsert, the row of an id is its last station. */
  lemma {:induction false} UpsertLast(rows: map<string, Row>, id: int, stations: seq<Station>, key: string)
    requires HasId(stations, key)
    ensures key in Upsert(rows, id, stations) && Upsert(rows, id, stations)[key] == Row(id, LastWith(stations, key))
  {
    var n := |stations| - 1;
    HasIdSnoc(stations, key);
    if stations[n].id != key {
      UpsertLast(rows, id, stations[..n], key);
    }
  }

  lemma {:induction false} UpsertConcat(rows: map<string, Row>, id: int, a: seq<Station>, b: seq<Station>)
    ensures Upsert(rows, id, a + b) == Upsert(Upsert(rows, id, a), id, b)
  {
    if b == [] {
      assert a + b == a;
    } else {
      assert (a + b)[..|a + b| - 1] == a + b[..|b| - 1];
      UpsertConcat(rows, id, a, b[..|b| - 1]);
    }
  }

  /** An insert in chunks that goes through is one upsert of everything. */
  lemma {:induction false} ChunksAreOneUpsert(rows: map<string, Row>, id: int, stations: seq<Station>)
    ensures InsertChunks(rows, id, stations).Some? ==> InsertChunks(rows, id, stations) == Some(Upsert(rows, id, stations))
    decreases |stations|
  {
    if stations != [] {
      var chunk := Take(stations, INSERT_BATCH_SIZE);
      var rest := stations[|chunk|..];
      assert stations == chunk + rest;
      ChunksAreOneUpsert(Upsert(rows, id, chunk), id, rest);
      UpsertConcat(rows, id, chunk, rest);
    }
  }

  /** Two stations of one chunk never share an id. */
  predicate DistinctInChunks(stations: seq<Station>) {
    forall i, j :: 0 <= i < j < |stations| && i / INSERT_BATCH_SIZE == j / INSERT_BATCH_SIZE ==> stations[i].id != stations[j].id
  }

  lemma DistinctInFirstChunk(stations: seq<Station>)
    requires DistinctInChunks(stations)
    ensures DistinctIds(Take(stations, INSERT_BATCH_SIZE))
  {
    var chunk := Take(stations, INSERT_BATCH_SIZE);
    forall i, j | 0 <= i < j < |chunk| ensures chunk[i].id != chunk[j].id {
      assert i / INSERT_BATCH_SIZE == 0 == j / INSERT_BATCH_SIZE;
    }
  }

  lemma DistinctInRest(stations: seq<Station>)
    requires |stations| > INSERT_BATCH_SIZE && DistinctIds(stations[..INSERT_BATCH_SIZE])
    ensures DistinctInChunks(stations) <==> DistinctInChunks(stations[INSERT_BATCH_SIZE..])
  {
    var rest := stations[INSERT_BATCH_SIZE..];
    if DistinctInChunks(stations) {
      forall i, j | 0 <= i < j < |rest| && i / INSERT_BATCH_SIZE == j / INSERT_BATCH_SIZE ensures rest[i].id != rest[j].id {
        var k, l := i + INSERT_BATCH_SIZE, j + INSERT_BATCH_SIZE;
        assert k / INSERT_BATCH_SIZE == l / INSERT_BATCH_SIZE;
        assert stations[k] == rest[i] && stations[l] == rest[j];
      }
    }
    if DistinctInChunks(rest) {
      forall i, j | 0 <= i < j < |stations| && i / INSERT_BATCH_SIZE == j / INSERT_BATCH_SIZE
        ensures stations[i].id != stations[j].id
      {
        if i < INSERT_BATCH_SIZE {
          assert j < INSERT_BATCH_SIZE;
          assert stations[..INSERT_BATCH_SIZE][i].id != stations[..INSERT_BATCH_SIZE][j].id;
        } else {
          var k, l := i - INSERT_BATCH_SIZE, j - INSERT_BATCH_SIZE;
          assert k / INSERT_BATCH_SIZE == l / INSERT_BATCH_SIZE;
          assert stations[i] == rest[k] && stations[j] == rest[l];
        }
      }
    }
  }

  /** The insert goes through exactly when no chunk repeats an id. */
  lemma {:induction false} InsertSucceedsExactly(rows: map<string, Row>, id: int, stations: seq<Station>)
    ensures InsertChunks(rows, id, stations).Some? <==> DistinctInChunks(stations)
    decreases |stations|
  {
    if stations != [] {
      var chunk := Take(stations, INSERT_BATCH_SIZE);
      if DistinctInChunks(stations) {
        DistinctInFirstChunk(stations);
      }
      if |stations| <= INSERT_BATCH_SIZE {
        assert chunk == stations && stations[|chunk|..] == [];
      } else if DistinctIds(chunk) {
        InsertSucceedsExactly(Upsert(rows, id, chunk), id, stations[INSERT_BATCH_SIZE..]);
        DistinctInRest(stations);
      }
    }
  }

  /**
   After an insert that goes through, the row of every inserted id is its last
   station, and all other rows are as before: a repetition across chunks has
   overwritten a row without a word.
   */
  lemma InsertedRows(rows: map<string, Row>, id: int, stations: seq<Station>, key: string)
    requires DistinctInChunks(stations)
    ensures InsertChunks(rows, id, stations).Some?
    ensures var r := InsertChunks(rows, id, stations).value;
            && (key in r <==> key in rows || HasId(stations, key))
            && (key in r ==> r[key] == if HasId(stations, key) then Row(id, LastWith(stations, key)) else rows[key])
  {
    InsertSucceedsExactly(rows, id, stations);
    ChunksAreOneUpsert(rows, id, stations);
    UpsertKeys(rows, id, stations, key);
    if HasId(stations, key) {
      UpsertLast(rows, id, stations, key);
    }
  }

  lemma DistinctIdsInChunks(stations: seq<Station>)
    requires DistinctIds(stations)
    ensures DistinctInChunks(stations)
  {
  }

  // ----- The table invariant -----

  /** The rows hold, for each id of these stations, its last station under this payload id, and nothing else. */
  ghost predicate HoldsExactly(rows: map<string, Row>, id: int, stations: seq<Station>) {
    && (forall key :: key in rows <==> HasId(stations, key))
    && (forall key :: HasId(stations, key) && key in rows ==> rows[key] == Row(id, LastWith(stations, key)))
  }

  /** `written` remembers, for every payload id ever committed, the payload it was created for. */
  ghost predicate Consistent(h: Hasher, t: Tables, written: map<int, Payload>) {
    && (forall id :: id in written ==> id < t.nextId)
    && match t.current
       case None => t.headers == map[] && t.rows == map[]
       case Some(id) =>
         && id in written
         && written[id].schemaVersion.Some?
         && t.headers == map[id := HeaderOf(h, written[id])]
         && HoldsExactly(t.rows, id, written[id].stations)
  }

  /** The log after a persist: it grows when the payload is new. */
  ghost function Logged(h: Hasher, t: Tables, written: map<int, Payload>, p: Payload, now: int): map<int, Payload> {
    match Persist(h, t, p, now)
    case Ok((t', changed)) => if changed then written[t.nextId := p] else written
    case Err(_) => written
  }

  function TablesAfter(h: Hasher, t: Tables, p: Payload, now: int): Tables {
    match Persist(h, t, p, now) case Ok((t', _)) => t' case Err(_) => t
  }

  lemma CascadeExact(rows: map<string, Row>, id: int, stations: seq<Station>)
    requires forall key :: key in rows ==> rows[key].payloadId != id
    ensures HoldsExactly(Cascade(Upsert(rows, id, stations), id), id, stations)
  {
    var r := Upsert(rows, id, stations);
    forall key
      ensures key in Cascade(r, id) <==> HasId(stations, key)
      ensures HasId(stations, key) ==> key in r && r[key] == Row(id, LastWith(stations, key))
    {
      UpsertKeys(rows, id, stations, key);
      if HasId(stations, key) {
        UpsertLast(rows, id, stations, key);
      }
    }
  }

  /** Every row belongs to the current payload. */
  lemma RowsAreCurrent(h: Hasher, t: Tables, written: map<int, Payload>, key: string)
    requires Consistent(h, t, written) && key in t.rows
    ensures t.current == Some(t.rows[key].payloadId)
  {
    assert HasId(written[t.current.value].stations, key);
  }

  /**
   Every transaction keeps the invariant, whatever the payload; one that brings a
   schema version and a new fingerprint succeeds exactly when no chunk repeats an id.
   */
  lemma PersistConsistent(h: Hasher, t: Tables, written: map<int, Payload>, p: Payload, now: int)
    requires Consistent(h, t, written)
    ensures Consistent(h, TablesAfter(h, t, p, now), Logged(h, t, written, p, now))
    ensures Persist(h, t, p, now).Ok?
            <==> CurrentFingerprint(t) == Some(FingerprintOf(h, p)) || (p.schemaVersion.Some? && DistinctInChunks(p.stations))
  {
    if CurrentFingerprint(t) != Some(FingerprintOf(h, p)) && p.schemaVersion.Some? {
      var id := t.nextId;
      InsertSucceedsExactly(t.rows, id, p.stations);
      ChunksAreOneUpsert(t.rows, id, p.stations);
      forall key | key in t.rows ensures t.rows[key].payloadId != id {
        RowsAreCurrent(h, t, written, key);
      }
      CascadeExact(t.rows, id, p.stations);
    }
  }

  /** After a persist, changed or not, the current payload is the one persisted, as far as fingerprints tell. */
  lemma PersistedIsCurrent(h: Hasher, t: Tables, p: Payload, now: int)
    requires Persist(h, t, p, now).Ok?
    ensures CurrentFingerprint(TablesAfter(h, t, p, now)) == Some(FingerprintOf(h, p))
    ensures TablesAfter(h, t, p, now).stamp == now
  {
  }

  lemma KeepsConsistent(h: Hasher, t: Tables, written: map<int, Payload>, p: Payload, now: int)
    ensures Consistent(h, t, written) ==> Consistent(h, TablesAfter(h, t, p, now), Logged(h, t, written, p, now))
  {
    if Consistent(h, t, written) {
      PersistConsistent(h, t, written, p, now);
    }
  }

  // ----- Torn reads -----

  /** A run of transactions from consistent tables. */
  ghost predicate Commits(h: Hasher, states: seq<Tables>, logs: seq<map<int, Payload>>, payloads: seq<Payload>, times: seq<int>) {
    && |states| == |logs| == |payloads| + 1 && |times| == |payloads|
    && Consistent(h, states[0], logs[0])
    && (forall i :: 0 <= i < |payloads| ==> states[i + 1] == TablesAfter(h, states[i], payloads[i], times[i]))
    && (forall i :: 0 <= i < |payloads| ==> logs[i + 1] == Logged(h, states[i], logs[i], payloads[i], times[i]))
  }

  lemma {:induction false} CommitsConsistent(h: Hasher, states: seq<Tables>, logs: seq<map<int, Payload>>,
                                             payloads: seq<Payload>, times: seq<int>, n: nat)
    requires Commits(h, states, logs, payloads, times) && n <= |payloads|
    ensures Consistent(h, states[n], logs[n])
  {
    if n > 0 {
      CommitsConsistent(h, states, logs, payloads, times, n - 1);
      PersistConsistent(h, states[n - 1], logs[n - 1], payloads[n - 1], times[n - 1]);
    }
  }

  /** A payload id, once written, keeps its meaning. */
  lemma {:induction false} LogsOnlyGrow(h: Hasher, states: seq<Tables>, logs: seq<map<int, Payload>>,
                                        payloads: seq<Payload>, times: seq<int>, i: nat, j: nat, id: int)
    requires Commits(h, states, logs, payloads, times) && i <= j <= |payloads| && id in logs[i]
    ensures id in logs[j] && logs[j][id] == logs[i][id]
    decreases j
  {
    if i < j {
      LogsOnlyGrow(h, states, logs, payloads, times, i, j - 1, id);
      CommitsConsistent(h, states, logs, payloads, times, j - 1);
    }
  }

  /** `result` lists each id of `written` once, with its last station, by name. */
  ghost predicate ListsByName(collate: (string, string) -> bool, written: seq<Station>, result: seq<Station>) {
    && DistinctIds(result)
    && (forall i, j :: 0 <= i < j < |result| ==> collate(result[i].name, result[j].name))
    && (forall i :: 0 <= i < |result| ==> IsLast(written, result[i]))
    && (forall key :: HasId(written, key) ==> HasId(result, key))
  }

  /** The station as it is read back when it is the last one written with its id. */
  ghost predicate IsLast(written: seq<Station>, s: Station) {
    HasId(written, s.id) && ReadBack(LastWith(written, s.id), s)
  }

  /** With distinct ids, that is every station written, once. */
  lemma ListsEverything(collate: (string, string) -> bool, written: seq<Station>, result: seq<Station>)
    requires DistinctIds(written) && ListsByName(collate, written, result)
    ensures multiset(result) == multiset(Map(written, RowToStation)) && |result| == |written|
  {
    var decoded := Map(written, RowToStation);
    assert DistinctIds(decoded);
    forall x | x in decoded ensures x in result {
      var k :| 0 <= k < |decoded| && decoded[k] == x;
      LastOfDistinct(written, k);
      assert HasId(result, written[k].id);
      var i :| 0 <= i < |result| && result[i].id == written[k].id;
      assert IsLast(written, result[i]);
      RowReadsBack(written[k], result[i]);
    }
    forall x | x in result ensures x in decoded {
      var i :| 0 <= i < |result| && result[i] == x;
      assert IsLast(written, result[i]);
      var k :| 0 <= k < |written| && written[k].id == x.id;
      LastOfDistinct(written, k);
      RowReadsBack(written[k], x);
      assert decoded[k] == x;
    }
    SameDistinctLists(decoded, result);
  }

  predicate CleanStations(stations: seq<Station>) {
    forall i :: 0 <= i < |stations| ==> CleanStation(stations[i])
  }

  /** Clean stations with distinct ids come back as they were written, each once. */
  lemma ListsWhatWasWritten(collate: (string, string) -> bool, written: seq<Station>, result: seq<Station>)
    requires DistinctIds(written) && CleanStations(written) && ListsByName(collate, written, result)
    ensures multiset(result) == multiset(written)
  {
    ListsEverything(collate, written, result);
    forall i | 0 <= i < |written| ensures RowToStation(written[i]) == written[i] {
      RowReadsBack(written[i], RowToStation(written[i]));
      CleanReadsBack(written[i], RowToStation(written[i]));
    }
    assert Map(written, RowToStation) == written;
  }

  /** The payload with its stations replaced and its fingerprint filled in. */
  function WithStations(h: Hasher, p: Payload, stations: seq<Station>): Payload {
    p.(stations := stations, fingerprint := Some(FingerprintOf(h, p)))
  }

  /** A header brings back all of its payload but the stations. */
  lemma HeaderRoundTrip(h: Hasher, p: Payload, stations: seq<Station>)
    requires p.schemaVersion.Some?
    ensures Assemble(HeaderOf(h, p), stations) == WithStations(h, p, stations)
  {
  }

  lemma SelectsFromExact(h: Hasher, t: Tables, written: map<int, Payload>, id: int,
                         collate: (string, string) -> bool, result: seq<Station>)
    requires Consistent(h, t, written) && id in written && Selects(t, id, collate, result)
    ensures t.current == Some(id) ==> ListsByName(collate, written[id].stations, result)
    ensures t.current != Some(id) ==> result == []
  {
    if t.current == Some(id) {
      SelectsWritten(t, id, collate, written[id].stations, result);
    } else {
      assert result != [] ==> HasRow(t, id, result[0].id);
      forall key | key in t.rows ensures !HasRow(t, id, key) {
        RowsAreCurrent(h, t, written, key);
      }
    }
  }

  /** A SELECT on rows that hold exactly these stations lists them by name. */
  lemma SelectsWritten(t: Tables, id: int, collate: (string, string) -> bool, stations: seq<Station>, result: seq<Station>)
    requires HoldsExactly(t.rows, id, stations) && Selects(t, id, collate, result)
    ensures ListsByName(collate, stations, result)
  {
    forall i | 0 <= i < |result| ensures IsLast(stations, result[i]) {
      assert HasRow(t, id, result[i].id);
    }
    forall key | HasId(stations, key) ensures HasId(result, key) {
      assert key in t.rows && HasRow(t, id, key);
    }
  }

  lemma SameDistinctLists(a: seq<Station>, b: seq<Station>)
    requires DistinctIds(a) && DistinctIds(b)
    requires forall x :: x in a <==> x in b
    ensures multiset(a) == multiset(b)
    ensures |a| == |b|
  {
    forall x ensures multiset(a)[x] == multiset(b)[x] {
      OnceInMultiset(a, x);
      OnceInMultiset(b, x);
      assert x in a <==> x in multiset(a);
      assert x in b <==> x in multiset(b);
    }
    assert |multiset(a)| == |a| && |multiset(b)| == |b|;
  }

  /**
   However many transactions commit between the header SELECT at state `i` and
   the stations SELECT at state `j`, the stations read are all the stations
   written for the header's payload id, by name, or none at all.
   */
  lemma NoTornReads(h: Hasher, states: seq<Tables>, logs: seq<map<int, Payload>>, payloads: seq<Payload>, times: seq<int>,
                    i: nat, j: nat, collate: (string, string) -> bool, result: seq<Station>)
    requires Commits(h, states, logs, payloads, times) && i <= j <= |payloads|
    requires states[i].current.Some? && Selects(states[j], states[i].current.value, collate, result)
    ensures var id := states[i].current.value;
            && id in logs[i] && id in states[i].headers
            && logs[i][id].schemaVersion.Some?
            && states[i].headers[id] == HeaderOf(h, logs[i][id])
            && Assemble(states[i].headers[id], result) == WithStations(h, logs[i][id], result)
            && (states[j].current == Some(id) ==> ListsByName(collate, logs[i][id].stations, result))
            && (states[j].current == Some(id) && DistinctIds(logs[i][id].stations) && CleanStations(logs[i][id].stations) ==>
                  multiset(result) == multiset(logs[i][id].stations))
            && (states[j].current != Some(id) ==> result == [])
  {
    var id := states[i].current.value;
    CommitsConsistent(h, states, logs, payloads, times, i);
    CommitsConsistent(h, states, logs, payloads, times, j);
    LogsOnlyGrow(h, states, logs, payloads, times, i, j, id);
    SelectsFromExact(h, states[j], logs[j], id, collate, result);
    if states[j].current == Some(id) && DistinctIds(logs[i][id].stations) && CleanStations(logs[i][id].stations) {
      ListsWhatWasWritten(collate, logs[i][id].stations, result);
    }
  }

  // ----- The store -----

  class StationStorage {
    const hasher: Hasher
    /** The database's ordering of names. */
    const collate: (string, string) -> bool
    var headers: map<int, Header>
    var rows: map<string, Row>
    var current: Option<int>
    var stamp: int
    var nextId: int
    /** The payload each id was created for. */
    ghost var written: map<int, Payload>

    function Snapshot(): Tables
      reads this
    {
      Tables(headers, rows, current, stamp, nextId)
    }

    ghost predicate Valid()
      reads this
    {
      TotalPreorder(collate) && Consistent(hasher, Snapshot(), written)
    }

    constructor (hasher: Hasher, collate: (string, string) -> bool, now: int)
      requires TotalPreorder(collate)
      ensures Valid() && this.hasher == hasher && this.collate == collate
      ensures Snapshot() == Tables(map[], map[], None, now, 1)
    {
      this.hasher, this.collate := hasher, collate;
      headers, rows, current, stamp, nextId := map[], map[], None, now, 1;
      written := map[];
    }

    /** `insert_stations`: one statement per chunk of at most 500 stations. */
    static method InsertStations(before: map<string, Row>, id: int, stations: seq<Station>)
      returns (r: Option<map<string, Row>>)
      ensures r == InsertChunks(before, id, stations)
    {
      var after := before;
      var rest := stations;
      while rest != []
        invariant InsertChunks(before, id, stations) == InsertChunks(after, id, rest)
        decreases |rest|
      {
        var chunk := Take(rest, INSERT_BATCH_SIZE);
        if !DistinctIds(chunk) {
          return None;
        }
        after := Upsert(after, id, chunk);
        rest := rest[|chunk|..];
      }
      r := Some(after);
    }

    /** `persist_payload`: the transaction commits as a whole or leaves the tables alone. */
    method PersistPayload(p: Payload, now: int) returns (r: Result<(int, bool), StorageError>)
      modifies this
      ensures Snapshot() == TablesAfter(hasher, old(Snapshot()), p, now)
      ensures written == Logged(hasher, old(Snapshot()), old(written), p, now)
      ensures match Persist(hasher, old(Snapshot()), p, now)
              case Ok((_, changed)) => r.Ok? && r.value.1 == changed && current == Some(r.value.0)
              case Err(e) => r == Err(e)
      ensures old(Valid()) ==> Valid()
    {
      KeepsConsistent(hasher, Snapshot(), written, p, now);
      var fp := FingerprintOf(hasher, p);
      if current.Some? && current.value in headers && headers[current.value].fingerprint == fp {
        stamp := now;
        return Ok((current.value, false));
      }
      if p.schemaVersion.None? {
        return Err(MissingSchemaVersion);
      }
      if exists id :: id in headers && headers[id].fingerprint == fp {
        return Err(DuplicateFingerprint);
      }
      var inserted := InsertStations(rows, nextId, p.stations);
      if inserted.None? {
        return Err(DuplicateId);
      }
      written := written[nextId := p];
      headers, rows := map[nextId := HeaderOf(hasher, p)], Cascade(inserted.value, nextId);
      current, stamp, nextId := Some(nextId), now, nextId + 1;
      r := Ok((current.value, true));
    }

    /** Transactions of other sessions, as many and as different as they like. */
    method OtherSessions()
      requires Valid()
      modifies this
      ensures Valid()
      ensures forall id :: id in old(written) ==> id in written && written[id] == old(written)[id]
    {
      var n: nat := *;
      while n > 0
        invariant Valid()
        invariant forall id :: id in old(written) ==> id in written && written[id] == old(written)[id]
      {
        var p: Payload := *;
        var now: int := *;
        var _ := PersistPayload(p, now);
        n := n - 1;
      }
    }

    /** The rows of one payload, ordered by name; the order of equal names is the database's choice. */
    method SelectStations(id: int) returns (result: seq<Station>)
      requires Valid()
      ensures Selects(Snapshot(), id, collate, result)
    {
      var found: seq<Station> := [];
      var todo := set key | key in rows && rows[key].payloadId == id;
      while todo != {}
        invariant forall key :: key in todo ==> HasRow(Snapshot(), id, key)
        invariant Found(Snapshot(), id, found)
        invariant forall key :: HasRow(Snapshot(), id, key) ==> key in todo || HasId(found, key)
        invariant forall i :: 0 <= i < |found| ==> found[i].id !in todo
        decreases |todo|
      {
        var key :| key in todo;
        RowIsKeyed(hasher, Snapshot(), written, key);
        RowReadsBack(rows[key].station, RowToStation(rows[key].station));
        FoundMore(Snapshot(), id, found, key);
        todo := todo - {key};
        found := found + [RowToStation(rows[key].station)];
      }
      result := SortBy(found, ByName(collate));
      FoundSorted(Snapshot(), id, collate, found);
    }

    /** The header SELECT: the payload the state row points to. */
    method SelectHeader() returns (r: Option<(int, Header)>)
      ensures r.Some? <==> current.Some? && current.value in headers
      ensures r.Some? ==> r.value == (current.value, headers[current.value])
    {
      r := if current.Some? && current.value in headers then Some((current.value, headers[current.value])) else None;
    }

    /**
     `load_latest_payload`, with any number of transactions of other sessions between
     its two SELECTs: all the stations of one written payload under its own header,
     or that header and no stations.
     */
    method LoadLatestPayload() returns (r: Option<Payload>)
      requires Valid()
      modifies this
      ensures Valid()
      ensures r.None? <==> old(current).None?
      ensures r.Some? ==>
                var p := old(written)[old(current).value];
                && r.value == WithStations(hasher, p, r.value.stations)
                && (r.value.stations == [] || ListsByName(collate, p.stations, r.value.stations))
                && (r.value.stations != [] && DistinctIds(p.stations) && CleanStations(p.stations) ==>
                      multiset(r.value.stations) == multiset(p.stations))
    {
      var header := SelectHeader();
      if header.None? {
        return None;
      }
      OtherSessions();
      var stations := SelectStations(header.value.0);
      SelectsFromExact(hasher, Snapshot(), written, header.value.0, collate, stations);
      ReadsWhatWasWritten(collate, written[header.value.0].stations, stations);
      r := Some(Assemble(header.value.1, stations));
    }
  }

  lemma ReadsWhatWasWritten(collate: (string, string) -> bool, written: seq<Station>, result: seq<Station>)
    requires result == [] || ListsByName(collate, written, result)
    ensures result != [] && DistinctIds(written) && CleanStations(written) ==> multiset(result) == multiset(written)
  {
    if result != [] && DistinctIds(written) && CleanStations(written) {
      ListsWhatWasWritten(collate, written, result);
    }
  }

  function ByName(collate: (string, string) -> bool): (Station, Station) -> bool {
    (a: Station, b: Station) => collate(a.name, b.name)
  }

  lemma ByNameOrder(collate: (string, string) -> bool)
    requires TotalPreorder(collate)
    ensures TotalPreorder(ByName(collate))
  {
    forall x: Station, y: Station ensures ByName(collate)(x, y) || ByName(collate)(y, x) {
      assert collate(x.name, y.name) || collate(y.name, x.name);
    }
    forall x: Station, y: Station, z: Station | ByName(collate)(x, y) && ByName(collate)(y, z)
      ensures ByName(collate)(x, z)
    {
      assert collate(x.name, y.name) && collate(y.name, z.name);
    }
  }

  /** Stations read so far: distinct rows of the payload. */
  ghost predicate Found(t: Tables, id: int, found: seq<Station>) {
    && DistinctIds(found)
    && (forall i :: 0 <= i < |found| ==>
          HasRow(t, id, found[i].id) && ReadBack(t.rows[found[i].id].station, found[i]))
  }

  lemma FoundMore(t: Tables, id: int, found: seq<Station>, key: string)
    requires Found(t, id, found) && HasRow(t, id, key) && !HasId(found, key) && t.rows[key].station.id == key
    ensures var more := found + [RowToStation(t.rows[key].station)];
            && Found(t, id, more)
            && (forall k :: HasId(more, k) <==> HasId(found, k) || k == key)
  {
    var more := found + [RowToStation(t.rows[key].station)];
    RowReadsBack(t.rows[key].station, RowToStation(t.rows[key].station));
    assert more[..|found|] == found;
    forall i | 0 <= i < |found| ensures found[i].id != key {
      assert HasId(found, found[i].id);
    }
    forall k ensures HasId(more, k) <==> HasId(found, k) || k == key {
      HasIdSnoc(more, k);
    }
  }

  lemma FoundSorted(t: Tables, id: int, collate: (string, string) -> bool, found: seq<Station>)
    requires TotalPreorder(collate) && Found(t, id, found)
    requires forall key :: HasRow(t, id, key) ==> HasId(found, key)
    ensures Selects(t, id, collate, SortBy(found, ByName(collate)))
  {
    var result := SortBy(found, ByName(collate));
    ByNameOrder(collate);
    SortBySorted(found, ByName(collate));
    DistinctIdsRearranged(found, result);
    SameElements(found, result);
    forall i | 0 <= i < |result|
      ensures HasRow(t, id, result[i].id) && ReadBack(t.rows[result[i].id].station, result[i])
    {
      assert result[i] in found;
    }
    forall key | HasRow(t, id, key)
      ensures exists i :: 0 <= i < |result| && result[i].id == key
    {
      assert HasId(found, key);
      var k :| 0 <= k < |found| && found[k].id == key;
      assert found[k] in result;
    }
  }

  lemma RowIsKeyed(h: Hasher, t: Tables, written: map<int, Payload>, key: string)
    requires Consistent(h, t, written) && key in t.rows
    ensures t.rows[key].station.id == key
  {
    assert HasId(written[t.current.value].stations, key);
  }
}
