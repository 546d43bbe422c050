/**
 Answering a station query from the index (radio-service-rs/src/http.rs and
 `intersect_lists`, `search_matches` of stations/processed.rs), and why that
 equals a linear scan of the list.
 */
module StationQuery {
  import opened Wrappers
  import opened Sequences
  import opened Text
  import opened Stations
  import opened StationIndex

  /** The page size as the client put it. */
  datatype RequestedLimit = Number(n: nat) | All

  datatype Query = Query(
    country: Option<string>, language: Option<string>, tag: Option<string>, genre: Option<string>,
    search: Option<string>, limit: nat, offset: nat, page: nat, requestedLimit: Option<RequestedLimit>)

  /** What the service needs of Unicode lowercasing. */
  ghost predicate LowerLaws(lower: string -> string) {
    && (forall s :: lower(lower(s)) == lower(s))
    && (forall a, b :: EqIgnoreAsciiCase(a, b) ==> lower(a) == lower(b))
    && (forall s :: Trimmed(s) && s != "" ==> Trimmed(lower(s)) && lower(s) != "")
  }

  /** What `normalize_filter_value` leaves: visible at both ends and in lower case. */
  ghost predicate NormalToken(lower: string -> string, t: Option<string>) {
    t.Some? ==> Trimmed(t.value) && t.value != "" && lower(t.value) == t.value
  }

  ghost predicate NormalQuery(lower: string -> string, q: Query) {
    NormalToken(lower, q.country) && NormalToken(lower, q.language) && NormalToken(lower, q.tag) && NormalToken(lower, q.genre)
  }

  // ----- The linear scan -----

  predicate AnyEq(values: seq<string>, t: string) {
    exists v :: v in values && EqIgnoreAsciiCase(v, t)
  }

  predicate CountryMatches(s: Station, t: string) {
    || (s.country.Some? && EqIgnoreAsciiCase(s.country.value, t))
    || (s.countryCode.Some? && EqIgnoreAsciiCase(s.countryCode.value, t))
  }

  /** `station_matches_filters`. */
  predicate MatchesFilters(s: Station, q: Query) {
    && (q.country.Some? ==> CountryMatches(s, q.country.value))
    && (q.language.Some? ==> AnyEq(s.languages, q.language.value))
    && (q.tag.Some? ==> AnyEq(s.tags, q.tag.value))
    && (q.genre.Some? ==> AnyEq(s.tags, q.genre.value))
  }

  predicate MatchesSearch(lower: string -> string, s: Station, q: Query) {
    q.search.Some? ==> Contains(SearchText(lower, ViewOf(s)), lower(q.search.value))
  }

  predicate Matches(lower: string -> string, s: Station, q: Query) {
    MatchesFilters(s, q) && MatchesSearch(lower, s, q)
  }

  function Range(n: nat): (r: seq<nat>)
    ensures |r| == n
    ensures forall i :: 0 <= i < n ==> r[i] == i
  {
    seq(n, i requires 0 <= i < n => i)
  }

  function MatchesAt(lower: string -> string, stations: seq<Station>, q: Query): nat -> bool {
    (i: nat) => i < |stations| && Matches(lower, stations[i], q)
  }

  /** Positions of all matching stations, in list order: the answer a scan would give. */
  function Scan(lower: string -> string, stations: seq<Station>, q: Query): seq<nat> {
    Filter(Range(|stations|), MatchesAt(lower, stations, q))
  }

  // ----- Intersecting candidate lists -----

  function ByLength(): (seq<nat>, seq<nat>) -> bool {
    (a: seq<nat>, b: seq<nat>) => |a| <= |b|
  }

  /** The first of the shortest lists. */
  function Shortest(lists: seq<seq<nat>>): (r: seq<nat>)
    requires lists != []
    ensures r in lists
    ensures forall l :: l in lists ==> |r| <= |l|
  {
    if |lists| == 1 then lists[0]
    else
      var r := Shortest(lists[1..]);
      assert lists == [lists[0]] + lists[1..];
      if |lists[0]| <= |r| then lists[0] else r
  }

  lemma {:induction false} SortedByLengthHead(lists: seq<seq<nat>>)
    requires lists != []
    ensures SortBy(lists, ByLength())[0] == Shortest(lists)
  {
    if |lists| > 1 {
      SortedByLengthHead(lists[1..]);
    }
  }

  predicate InAll(lists: seq<seq<nat>>, i: nat) {
    forall l :: l in lists ==> i in l
  }

  function Common(lists: seq<seq<nat>>): nat -> bool {
    (i: nat) => InAll(lists, i)
  }

  function Intersection(lists: seq<seq<nat>>, stationCount: nat): seq<nat> {
    if lists == [] then Range(stationCount) else Filter(Shortest(lists), Common(lists))
  }

  function In(list: seq<nat>): nat -> bool {
    (i: nat) => i in list
  }

  lemma CommonStep(lists: seq<seq<nat>>, k: nat)
    requires k < |lists|
    ensures forall i: nat :: Both(Common(lists[..k]), In(lists[k]))(i) == Common(lists[..k + 1])(i)
  {
    assert lists[..k + 1] == lists[..k] + [lists[k]];
  }

  lemma RetainStep(base: seq<nat>, lists: seq<seq<nat>>, k: nat)
    requires k < |lists|
    ensures Filter(Filter(base, Common(lists[..k])), In(lists[k])) == Filter(base, Common(lists[..k + 1]))
  {
    FilterFilter(base, Common(lists[..k]), In(lists[k]));
    CommonStep(lists, k);
    FilterSame(base, Both(Common(lists[..k]), In(lists[k])), Common(lists[..k + 1]));
  }

  lemma EmptyStaysEmpty(base: seq<nat>, lists: seq<seq<nat>>, k: nat)
    requires k <= |lists| && Filter(base, Common(lists[..k])) == []
    ensures Filter(base, Common(lists)) == []
  {
    forall i | i in base
      ensures !Common(lists)(i)
    {
      assert !Common(lists[..k])(i);
      var l :| l in lists[..k] && i !in l;
      assert l in lists;
    }
    FilterNone(base, Common(lists));
  }

  lemma StartFromShortest(lists: seq<seq<nat>>)
    requires lists != []
    ensures var ordered := SortBy(lists, ByLength());
            ordered[0] == Shortest(lists) && Filter(ordered[0], Common(ordered[..1])) == ordered[0]
  {
    SortedByLengthHead(lists);
    var ordered := SortBy(lists, ByLength());
    assert ordered[..1] == [ordered[0]];
    FilterAll(ordered[0], Common([ordered[0]]));
  }

  lemma OrderOfListsIrrelevant(base: seq<nat>, lists: seq<seq<nat>>, ordered: seq<seq<nat>>)
    requires multiset(lists) == multiset(ordered)
    ensures Filter(base, Common(ordered)) == Filter(base, Common(lists))
  {
    SameElements(ordered, lists);
    FilterSame(base, Common(ordered), Common(lists));
  }

  /** Retain what the remaining lists contain, stopping early once nothing is left. */
  method RetainCommon(ordered: seq<seq<nat>>) returns (r: seq<nat>)
    requires ordered != []
    requires Filter(ordered[0], Common(ordered[..1])) == ordered[0]
    ensures r == Filter(ordered[0], Common(ordered))
  {
    ghost var base := ordered[0];
    r := ordered[0];
    for k := 1 to |ordered|
      invariant r == Filter(base, Common(ordered[..k]))
    {
      RetainStep(base, ordered, k);
      r := Filter(r, In(ordered[k]));
      if r == [] {
        EmptyStaysEmpty(base, ordered, k + 1);
        return;
      }
    }
    assert ordered[..|ordered|] == ordered;
  }

  /** `intersect_lists`. */
  method IntersectLists(lists: seq<seq<nat>>, stationCount: nat) returns (r: seq<nat>)
    ensures r == Intersection(lists, stationCount)
  {
    if lists == [] {
      return Range(stationCount);
    }
    StartFromShortest(lists);
    var ordered := SortBy(lists, ByLength());
    r := RetainCommon(ordered);
    OrderOfListsIrrelevant(ordered[0], lists, ordered);
  }

  // ----- Selecting -----

  function AddCandidate(acc: Option<seq<seq<nat>>>, m: map<string, seq<nat>>, lower: string -> string,
                        token: Option<string>): Option<seq<seq<nat>>>
  {
    if acc.None? || token.None? then acc
    else if lower(token.value) in m then Some(acc.value + [m[lower(token.value)]])
    else None
  }

  /** One candidate list per filter, or `None` when some token is not indexed. */
  function Candidates(lower: string -> string, p: Processed, q: Query): Option<seq<seq<nat>>> {
    AddCandidate(AddCandidate(AddCandidate(AddCandidate(
      Some([]), p.byCountry, lower, q.country), p.byLanguage, lower, q.language),
      p.byTag, lower, q.tag), p.byTag, lower, q.genre)
  }

  function SearchAt(lower: string -> string, p: Processed, q: Query): nat -> bool {
    (i: nat) => q.search.Some? ==> i < |p.searchTexts| && Contains(p.searchTexts[i], lower(q.search.value))
  }

  function FiltersAt(stations: seq<Station>, q: Query): nat -> bool {
    (i: nat) => i < |stations| && MatchesFilters(stations[i], q)
  }

  /** The positions `project_stations` selects. */
  function Selected(lower: string -> string, p: Processed, stations: seq<Station>, q: Query): seq<nat> {
    match Candidates(lower, p, q)
    case None => []
    case Some(lists) =>
      Filter(Filter(Intersection(lists, p.stationCount), SearchAt(lower, p, q)), FiltersAt(stations, q))
  }

  // ----- Every matching station is in every candidate list -----

  lemma TokenOfMatch(lower: string -> string, value: string, t: string)
    requires LowerLaws(lower) && NormalToken(lower, Some(t)) && EqIgnoreAsciiCase(value, t)
    ensures NormalizeToken(lower, value) == Some(t)
  {
    EqIgnoreCaseKeepsTrimmed(value, t);
    TrimTrimmed(value);
    assert lower(value) == lower(t);
  }

  lemma {:induction false} ListTokensContain(lower: string -> string, values: seq<string>, v: string, t: string)
    requires v in values && NormalizeToken(lower, v) == Some(t)
    ensures t in ListTokens(lower, values)
  {
    if v != values[|values| - 1] {
      assert v in values[..|values| - 1];
      ListTokensContain(lower, values[..|values| - 1], v, t);
    }
  }

  lemma AnyEqYields(lower: string -> string, values: seq<string>, t: string)
    requires LowerLaws(lower) && NormalToken(lower, Some(t)) && AnyEq(values, t)
    ensures t in ListTokens(lower, values)
  {
    var v :| v in values && EqIgnoreAsciiCase(v, t);
    TokenOfMatch(lower, v, t);
    ListTokensContain(lower, values, v, t);
  }

  lemma CountryYields(lower: string -> string, s: Station, t: string)
    requires LowerLaws(lower) && NormalToken(lower, Some(t)) && CountryMatches(s, t)
    ensures t in CountryTokens(lower, ViewOf(s))
  {
    if s.country.Some? && EqIgnoreAsciiCase(s.country.value, t) {
      TokenOfMatch(lower, s.country.value, t);
      TrimTrimmed(Trim(s.country.value));
    } else {
      TokenOfMatch(lower, s.countryCode.value, t);
    }
  }

  predicate InRange(l: seq<nat>, n: nat) {
    forall k :: 0 <= k < |l| ==> l[k] < n
  }

  predicate Ordered(l: seq<nat>) {
    forall i, j :: 0 <= i < j < |l| ==> l[i] <= l[j]
  }

  /** `l` is in order and names positions below `n` only. */
  ghost predicate PositionList(l: seq<nat>, n: nat) {
    Ordered(l) && InRange(l, n)
  }

  /** The candidates collected so far are position lists that miss no wanted position. */
  ghost predicate Covers(acc: Option<seq<seq<nat>>>, wanted: nat -> bool, n: nat) {
    match acc
    case None => forall i: nat :: i < n ==> !wanted(i)
    case Some(lists) =>
      && (forall l :: l in lists ==> PositionList(l, n))
      && (forall i: nat :: i < n && wanted(i) ==> InAll(lists, i))
  }

  lemma IndexedList(lists: seq<seq<string>>, token: string)
    requires token in IndexOf(lists)
    ensures PositionList(IndexOf(lists)[token], |lists|)
    ensures forall i :: 0 <= i < |lists| && token in lists[i] ==> i in IndexOf(lists)[token]
  {
    IndexOfExact(lists, token);
    PositionsExact(lists, token);
    var ps := Positions(lists, token);
    forall i | 0 <= i < |lists| && token in lists[i] ensures i in ps {
      assert Occurrences(ps, i) == multiset(lists[i])[token];
      assert i in multiset(ps);
    }
  }

  /** Every wanted station yields the token. */
  ghost predicate Yield(lists: seq<seq<string>>, token: Option<string>, wanted: nat -> bool) {
    token.Some? ==> forall i: nat :: i < |lists| && wanted(i) ==> token.value in lists[i]
  }

  lemma AddCandidateCovers(acc: Option<seq<seq<nat>>>, lists: seq<seq<string>>, lower: string -> string,
                           token: Option<string>, wanted: nat -> bool)
    requires NormalToken(lower, token)
    requires Covers(acc, wanted, |lists|) && Yield(lists, token, wanted)
    ensures Covers(AddCandidate(acc, IndexOf(lists), lower, token), wanted, |lists|)
  {
    if acc.Some? && token.Some? {
      var t := token.value;
      IndexOfExact(lists, t);
      if t in IndexOf(lists) {
        IndexedList(lists, t);
      }
    }
  }

  lemma CountryYield(lower: string -> string, stations: seq<Station>, q: Query)
    requires LowerLaws(lower) && NormalQuery(lower, q)
    ensures Yield(CountryTokenLists(lower, Views(stations)), q.country, MatchesAt(lower, stations, q))
  {
    if q.country.Some? {
      forall i: nat | i < |stations| && MatchesAt(lower, stations, q)(i)
        ensures q.country.value in CountryTokenLists(lower, Views(stations))[i]
      {
        CountryYields(lower, stations[i], q.country.value);
      }
    }
  }

  lemma LanguageYield(lower: string -> string, stations: seq<Station>, q: Query)
    requires LowerLaws(lower) && NormalQuery(lower, q)
    ensures Yield(LanguageTokenLists(lower, Views(stations)), q.language, MatchesAt(lower, stations, q))
  {
    if q.language.Some? {
      forall i: nat | i < |stations| && MatchesAt(lower, stations, q)(i)
        ensures q.language.value in LanguageTokenLists(lower, Views(stations))[i]
      {
        AnyEqYields(lower, stations[i].languages, q.language.value);
      }
    }
  }

  lemma TagYield(lower: string -> string, stations: seq<Station>, q: Query, token: Option<string>)
    requires LowerLaws(lower) && NormalQuery(lower, q) && (token == q.tag || token == q.genre)
    ensures Yield(TagTokenLists(lower, Views(stations)), token, MatchesAt(lower, stations, q))
  {
    if token.Some? {
      forall i: nat | i < |stations| && MatchesAt(lower, stations, q)(i)
        ensures token.value in TagTokenLists(lower, Views(stations))[i]
      {
        AnyEqYields(lower, stations[i].tags, token.value);
      }
    }
  }

  lemma TwoCandidatesCover(acc: Option<seq<seq<nat>>>, first: seq<seq<string>>, second: seq<seq<string>>,
                           lower: string -> string, t: Option<string>, u: Option<string>, wanted: nat -> bool)
    requires NormalToken(lower, t) && NormalToken(lower, u) && |first| == |second|
    requires Covers(acc, wanted, |first|) && Yield(first, t, wanted) && Yield(second, u, wanted)
    ensures Covers(AddCandidate(AddCandidate(acc, IndexOf(first), lower, t), IndexOf(second), lower, u), wanted, |first|)
  {
    AddCandidateCovers(acc, first, lower, t, wanted);
    AddCandidateCovers(AddCandidate(acc, IndexOf(first), lower, t), second, lower, u, wanted);
  }

  lemma CandidatesCover(lower: string -> string, stations: seq<Station>, q: Query)
    requires LowerLaws(lower) && NormalQuery(lower, q)
    ensures Covers(Candidates(lower, Index(lower, Views(stations)), q), MatchesAt(lower, stations, q), |stations|)
  {
    var vs, wanted := Views(stations), MatchesAt(lower, stations, q);
    var c, l, t := CountryTokenLists(lower, vs), LanguageTokenLists(lower, vs), TagTokenLists(lower, vs);
    CountryYield(lower, stations, q);
    LanguageYield(lower, stations, q);
    TagYield(lower, stations, q, q.tag);
    TagYield(lower, stations, q, q.genre);
    TwoCandidatesCover(Some([]), c, l, lower, q.country, q.language, wanted);
    var half := AddCandidate(AddCandidate(Some([]), IndexOf(c), lower, q.country), IndexOf(l), lower, q.language);
    TwoCandidatesCover(half, t, t, lower, q.tag, q.genre, wanted);
  }

  // ----- The index answers what the scan answers -----

  lemma {:induction false} FilterInRange(s: seq<nat>, p: nat -> bool, n: nat)
    requires InRange(s, n)
    ensures InRange(Filter(s, p), n)
  {
    if s != [] {
      FilterInRange(s[..|s| - 1], p, n);
    }
  }

  lemma {:induction false} FilterOrdered(s: seq<nat>, p: nat -> bool)
    requires Ordered(s)
    ensures Ordered(Filter(s, p))
  {
    if s != [] {
      var t := s[..|s| - 1];
      FilterOrdered(t, p);
      var r := Filter(t, p);
      forall k | 0 <= k < |r| ensures r[k] <= s[|s| - 1] {
        assert r[k] in t;
        var i :| 0 <= i < |t| && t[i] == r[k];
      }
    }
  }

  /** The list the survivors are taken from: the first of the shortest candidate lists. */
  function Base(lists: seq<seq<nat>>, n: nat): seq<nat> {
    if lists == [] then Range(n) else Shortest(lists)
  }

  lemma FilterPositions(s: seq<nat>, p: nat -> bool, n: nat)
    requires PositionList(s, n)
    ensures PositionList(Filter(s, p), n)
  {
    FilterInRange(s, p, n);
    FilterOrdered(s, p);
  }

  lemma IntersectionExact(lists: seq<seq<nat>>, n: nat, x: nat)
    requires forall l :: l in lists ==> PositionList(l, n)
    ensures PositionList(Intersection(lists, n), n)
    ensures x in Intersection(lists, n) <==> x < n && InAll(lists, x)
    ensures Occurrences(Intersection(lists, n), x) == if InAll(lists, x) then Occurrences(Base(lists, n), x) else 0
  {
    if lists == [] {
      assert x < n ==> Range(n)[x] == x;
    } else {
      FilterPositions(Shortest(lists), Common(lists), n);
      assert InRange(Shortest(lists), n);
      FilterKeepsOccurrences(Shortest(lists), Common(lists), x);
    }
  }

  lemma TwoFilters(s: seq<nat>, p: nat -> bool, q: nat -> bool, n: nat, i: nat)
    requires PositionList(s, n)
    ensures PositionList(Filter(Filter(s, p), q), n)
    ensures i in Filter(Filter(s, p), q) <==> i in s && p(i) && q(i)
    ensures p(i) && q(i) ==> Occurrences(Filter(Filter(s, p), q), i) == Occurrences(s, i)
  {
    FilterPositions(s, p, n);
    FilterPositions(Filter(s, p), q, n);
    FilterKeepsOccurrences(s, p, i);
    FilterKeepsOccurrences(Filter(s, p), q, i);
  }

  /**
   The positions selected through the index are in order and in range, they are
   the positions a scan selects, and each is repeated as often as the shortest
   candidate list repeats it. A token that is not indexed means that nothing matches.
   */
  lemma IndexRefinesScan(lower: string -> string, stations: seq<Station>, q: Query, i: nat)
    requires LowerLaws(lower) && NormalQuery(lower, q)
    ensures var p := Index(lower, Views(stations));
            var c := Candidates(lower, p, q);
            var r := Selected(lower, p, stations, q);
            && PositionList(r, |stations|)
            && (i in r <==> i < |stations| && Matches(lower, stations[i], q))
            && (c.None? ==> i < |stations| ==> !Matches(lower, stations[i], q))
            && (i in r ==> c.Some? && Occurrences(r, i) == Occurrences(Base(c.value, |stations|), i))
  {
    var p := Index(lower, Views(stations));
    CandidatesCover(lower, stations, q);
    match Candidates(lower, p, q)
    case None => assert i < |stations| ==> !MatchesAt(lower, stations, q)(i);
    case Some(lists) =>
      var base := Intersection(lists, |stations|);
      IntersectionExact(lists, |stations|, i);
      TwoFilters(base, SearchAt(lower, p, q), FiltersAt(stations, q), |stations|, i);
      assert i < |stations| ==> MatchesAt(lower, stations, q)(i) == Matches(lower, stations[i], q);
  }

  lemma ScanExact(lower: string -> string, stations: seq<Station>, q: Query, i: nat)
    ensures Ordered(Scan(lower, stations, q))
    ensures Occurrences(Scan(lower, stations, q), i)
            == if i < |stations| && Matches(lower, stations[i], q) then 1 else 0
  {
    var n := |stations|;
    FilterOrdered(Range(n), MatchesAt(lower, stations, q));
    FilterKeepsOccurrences(Range(n), MatchesAt(lower, stations, q), i);
    if i < n {
      RangeOnce(n, i);
    }
  }

  lemma {:induction false} RangeOnce(n: nat, i: nat)
    requires i < n
    ensures Occurrences(Range(n), i) == 1
  {
    assert Range(n) == Range(n - 1) + [n - 1];
    if i < n - 1 {
      RangeOnce(n - 1, i);
    } else {
      assert i !in Range(n - 1);
    }
  }

  lemma OrderedUnique(a: seq<nat>, b: seq<nat>)
    requires Ordered(a) && Ordered(b) && multiset(a) == multiset(b)
    ensures a == b
  {
    var le := (x: nat, y: nat) => x <= y;
    assert Sorted(a, le) && Sorted(b, le) && Separates(le, a);
    SortedUnique(a, b, le);
  }

  // ----- What the filters ask for -----

  ghost predicate SomeEqual(values: seq<string>, t: string) {
    exists k :: 0 <= k < |values| && EqIgnoreAsciiCase(values[k], t)
  }

  lemma AnyEqExactly(values: seq<string>, t: string)
    ensures AnyEq(values, t) <==> SomeEqual(values, t)
  {
    if AnyEq(values, t) {
      var v :| v in values && EqIgnoreAsciiCase(v, t);
      var k :| 0 <= k < |values| && values[k] == v;
    }
  }

  /** Country by name or code, a language, a tag and a genre, each ignoring ASCII case, and each only if it is asked for. */
  ghost predicate Meets(s: Station, q: Query) {
    && (q.country.Some? ==> || (s.country.Some? && EqIgnoreAsciiCase(s.country.value, q.country.value))
                            || (s.countryCode.Some? && EqIgnoreAsciiCase(s.countryCode.value, q.country.value)))
    && (q.language.Some? ==> SomeEqual(s.languages, q.language.value))
    && (q.tag.Some? ==> SomeEqual(s.tags, q.tag.value))
    && (q.genre.Some? ==> SomeEqual(s.tags, q.genre.value))
  }

  lemma FiltersExactly(s: Station, q: Query)
    ensures MatchesFilters(s, q) <==> Meets(s, q)
  {
    if q.language.Some? { AnyEqExactly(s.languages, q.language.value); }
    if q.tag.Some? { AnyEqExactly(s.tags, q.tag.value); }
    if q.genre.Some? { AnyEqExactly(s.tags, q.genre.value); }
  }

  /** Without a search, the positions selected are exactly those of the stations that meet the filters. */
  lemma FiltersSelect(lower: string -> string, stations: seq<Station>, q: Query, i: nat)
    requires LowerLaws(lower) && NormalQuery(lower, q) && q.search.None?
    ensures i in Selected(lower, Index(lower, Views(stations)), stations, q) <==> i < |stations| && Meets(stations[i], q)
  {
    IndexRefinesScan(lower, stations, q, i);
    if i < |stations| {
      FiltersExactly(stations[i], q);
    }
  }

  // ----- What a search finds -----

  ghost predicate SomeMentions(lower: string -> string, values: seq<string>, needle: string) {
    exists k :: 0 <= k < |values| && Occurs(lower(values[k]), needle)
  }

  /** The needle is a slice of the lower-cased name, country, or one of the lower-cased tags and languages. */
  ghost predicate Mentions(lower: string -> string, s: Station, needle: string) {
    || Occurs(lower(s.name), needle)
    || SomeMentions(lower, s.tags, needle)
    || SomeMentions(lower, s.languages, needle)
    || (s.country.Some? && Occurs(lower(s.country.value), needle))
  }

  lemma JoinedParts(parts: seq<string>, needle: string)
    requires parts != []
    ensures (exists k :: 0 <= k < |parts| && Occurs(parts[k], needle)) ==> Contains(Join(parts, ' '), needle)
    ensures ' ' !in needle && Contains(Join(parts, ' '), needle) ==> exists k :: 0 <= k < |parts| && Occurs(parts[k], needle)
  {
    ContainsExactly(Join(parts, ' '), needle);
    if exists k :: 0 <= k < |parts| && Occurs(parts[k], needle) {
      var k :| 0 <= k < |parts| && Occurs(parts[k], needle);
      JoinOccurs(parts, ' ', k, needle);
    }
    if ' ' !in needle && Contains(Join(parts, ' '), needle) {
      OccursInJoin(parts, ' ', needle);
    }
  }

  ghost predicate AnyOccurs(parts: seq<string>, needle: string) {
    exists k :: 0 <= k < |parts| && Occurs(parts[k], needle)
  }

  lemma AnyOccursConcat(a: seq<string>, b: seq<string>, needle: string)
    ensures AnyOccurs(a + b, needle) <==> AnyOccurs(a, needle) || AnyOccurs(b, needle)
  {
    var all := a + b;
    if AnyOccurs(a, needle) {
      var k :| 0 <= k < |a| && Occurs(a[k], needle);
      assert Occurs(all[k], needle);
    }
    if AnyOccurs(b, needle) {
      var k :| 0 <= k < |b| && Occurs(b[k], needle);
      assert Occurs(all[|a| + k], needle);
    }
    if AnyOccurs(all, needle) {
      var k :| 0 <= k < |all| && Occurs(all[k], needle);
      if k < |a| {
        assert Occurs(a[k], needle);
      } else {
        assert Occurs(b[k - |a|], needle);
      }
    }
  }

  lemma LoweredMentions(lower: string -> string, values: seq<string>, needle: string)
    ensures AnyOccurs(Lowered(lower, values), needle) <==> SomeMentions(lower, values, needle)
  {
    var r := Lowered(lower, values);
    if AnyOccurs(r, needle) {
      var k :| 0 <= k < |r| && Occurs(r[k], needle);
      assert Occurs(lower(values[k]), needle);
    }
    if SomeMentions(lower, values, needle) {
      var k :| 0 <= k < |values| && Occurs(lower(values[k]), needle);
      assert Occurs(r[k], needle);
    }
  }

  lemma AnyOccursSingle(part: string, needle: string)
    ensures AnyOccurs([part], needle) <==> Occurs(part, needle)
  {
    assert [part][0] == part;
  }

  lemma PartsMention(lower: string -> string, s: Station, needle: string)
    ensures var country := match s.country case Some(c) => [lower(c)] case None => [];
            AnyOccurs([lower(s.name)] + Lowered(lower, s.tags) + Lowered(lower, s.languages) + country, needle)
            <==> Mentions(lower, s, needle)
  {
    var country := match s.country case Some(c) => [lower(c)] case None => [];
    var name, tags, languages := [lower(s.name)], Lowered(lower, s.tags), Lowered(lower, s.languages);
    AnyOccursConcat(name, tags, needle);
    AnyOccursConcat(name + tags, languages, needle);
    AnyOccursConcat(name + tags + languages, country, needle);
    AnyOccursSingle(lower(s.name), needle);
    LoweredMentions(lower, s.tags, needle);
    LoweredMentions(lower, s.languages, needle);
    if s.country.Some? {
      AnyOccursSingle(lower(s.country.value), needle);
    }
  }

  /** A station passes the search if it mentions the needle, and only then when the needle has no space in it. */
  lemma SearchFinds(lower: string -> string, s: Station, q: Query)
    requires q.search.Some?
    ensures Mentions(lower, s, lower(q.search.value)) ==> MatchesSearch(lower, s, q)
    ensures ' ' !in lower(q.search.value) ==> (MatchesSearch(lower, s, q) <==> Mentions(lower, s, lower(q.search.value)))
  {
    var needle := lower(q.search.value);
    var country := match s.country case Some(c) => [lower(c)] case None => [];
    var parts := [lower(s.name)] + Lowered(lower, s.tags) + Lowered(lower, s.languages) + country;
    PartsMention(lower, s, needle);
    JoinedParts(parts, needle);
    assert SearchText(lower, ViewOf(s)) == Join(parts, ' ');
  }

  /**
   A query with a search is answered with every station that meets its filters and
   mentions the needle; with nothing else, when the needle has no space in it.
   */
  lemma SearchSelects(lower: string -> string, stations: seq<Station>, q: Query, i: nat)
    requires LowerLaws(lower) && NormalQuery(lower, q) && q.search.Some? && i < |stations|
    ensures var found := Meets(stations[i], q) && Mentions(lower, stations[i], lower(q.search.value));
            var r := Selected(lower, Index(lower, Views(stations)), stations, q);
            && (found ==> i in r)
            && (' ' !in lower(q.search.value) ==> (i in r <==> found))
  {
    IndexRefinesScan(lower, stations, q, i);
    FiltersExactly(stations[i], q);
    SearchFinds(lower, stations[i], q);
  }

  /**
   The selection is the scan's very sequence exactly when the shortest candidate
   list repeats no matching station.
   */
  lemma SelectedIsScanExactly(lower: string -> string, stations: seq<Station>, q: Query)
    requires LowerLaws(lower) && NormalQuery(lower, q)
    ensures Selected(lower, Index(lower, Views(stations)), stations, q) == Scan(lower, stations, q)
            <==> forall i: nat :: i < |stations| && Matches(lower, stations[i], q) ==> BaseHasOnce(lower, stations, q, i)
  {
    var r, scan := Selected(lower, Index(lower, Views(stations)), stations, q), Scan(lower, stations, q);
    forall i: nat ensures AgreesWithScan(lower, stations, q, i) {
      ComparedWithScan(lower, stations, q, i);
    }
    if forall i: nat :: i < |stations| && Matches(lower, stations[i], q) ==> BaseHasOnce(lower, stations, q, i) {
      forall i: nat ensures Occurrences(r, i) == Occurrences(scan, i) {
        assert AgreesWithScan(lower, stations, q, i);
      }
      IndexRefinesScan(lower, stations, q, 0);
      ScanExact(lower, stations, q, 0);
      SameOccurrences(r, scan);
      OrderedUnique(r, scan);
    } else {
      var i: nat :| i < |stations| && Matches(lower, stations[i], q) && !BaseHasOnce(lower, stations, q, i);
      assert AgreesWithScan(lower, stations, q, i);
    }
  }

  /** Selection and scan name the position equally often, unless it matches and the shortest list does not name it once. */
  ghost predicate AgreesWithScan(lower: string -> string, stations: seq<Station>, q: Query, i: nat) {
    Occurrences(Selected(lower, Index(lower, Views(stations)), stations, q), i) == Occurrences(Scan(lower, stations, q), i)
    <==> (i < |stations| && Matches(lower, stations[i], q) ==> BaseHasOnce(lower, stations, q, i))
  }

  lemma ComparedWithScan(lower: string -> string, stations: seq<Station>, q: Query, i: nat)
    requires LowerLaws(lower) && NormalQuery(lower, q)
    ensures AgreesWithScan(lower, stations, q, i)
  {
    IndexRefinesScan(lower, stations, q, i);
    ScanExact(lower, stations, q, i);
  }

  /** The shortest candidate list names position `i` once. */
  ghost predicate BaseHasOnce(lower: string -> string, stations: seq<Station>, q: Query, i: nat) {
    var c := Candidates(lower, Index(lower, Views(stations)), q);
    c.Some? && Occurrences(Base(c.value, |stations|), i) == 1
  }

  lemma SameOccurrences(a: seq<nat>, b: seq<nat>)
    requires forall i: nat :: Occurrences(a, i) == Occurrences(b, i)
    ensures multiset(a) == multiset(b)
  {
    var ma: multiset<nat>, mb: multiset<nat> := multiset(a), multiset(b);
    forall i: nat ensures ma[i] == mb[i] {
      assert Occurrences(a, i) == Occurrences(b, i);
    }
    assert ma == mb;
  }

  /** No station yields one token twice. */
  ghost predicate NoRepeats(lists: seq<seq<string>>) {
    forall i, token :: 0 <= i < |lists| ==> multiset(lists[i])[token] <= 1
  }

  /** Without repeated tokens, selecting through the index is scanning. */
  lemma SelectedIsScan(lower: string -> string, stations: seq<Station>, q: Query)
    requires LowerLaws(lower) && NormalQuery(lower, q)
    requires NoRepeats(CountryTokenLists(lower, Views(stations)))
    requires NoRepeats(LanguageTokenLists(lower, Views(stations)))
    requires NoRepeats(TagTokenLists(lower, Views(stations)))
    ensures Selected(lower, Index(lower, Views(stations)), stations, q) == Scan(lower, stations, q)
  {
    var vs := Views(stations);
    var p := Index(lower, vs);
    SelectedIsScanExactly(lower, stations, q);
    forall i: nat | i < |stations| && Matches(lower, stations[i], q)
      ensures BaseHasOnce(lower, stations, q, i)
    {
      IndexRefinesScan(lower, stations, q, i);
      var a1 := AddCandidate(Some([]), p.byCountry, lower, q.country);
      var a2 := AddCandidate(a1, p.byLanguage, lower, q.language);
      var a3 := AddCandidate(a2, p.byTag, lower, q.tag);
      AddCandidateOnce(Some([]), CountryTokenLists(lower, vs), lower, q.country);
      AddCandidateOnce(a1, LanguageTokenLists(lower, vs), lower, q.language);
      AddCandidateOnce(a2, TagTokenLists(lower, vs), lower, q.tag);
      AddCandidateOnce(a3, TagTokenLists(lower, vs), lower, q.genre);
      var lists := Candidates(lower, p, q).value;
      var r := Selected(lower, p, stations, q);
      assert i in multiset(r);
      if lists == [] {
        RangeOnce(|stations|, i);
      } else {
        assert Occurrences(Shortest(lists), i) <= 1;
      }
    }
  }

  ghost predicate AllOnce(acc: Option<seq<seq<nat>>>, n: nat) {
    acc.Some? ==> forall l, i: nat :: l in acc.value && i < n ==> Occurrences(l, i) <= 1
  }

  lemma AddCandidateOnce(acc: Option<seq<seq<nat>>>, lists: seq<seq<string>>, lower: string -> string,
                         token: Option<string>)
    requires NoRepeats(lists) && AllOnce(acc, |lists|)
    ensures AllOnce(AddCandidate(acc, IndexOf(lists), lower, token), |lists|)
  {
    if token.Some? {
      IndexOfExact(lists, lower(token.value));
      PositionsExact(lists, lower(token.value));
    }
  }

  function ByTag(t: string): Query {
    Query(None, None, Some(t), None, None, 1, 0, 1, None)
  }

  /** A tag that a station carries twice makes the index answer with that station twice. */
  lemma RepeatedTagIsRepeated(lower: string -> string, s: Station, t: string)
    requires LowerLaws(lower) && NormalToken(lower, Some(t)) && s.tags == [t, t]
    ensures Occurrences(Selected(lower, Index(lower, Views([s])), [s], ByTag(t)), 0) == 2
    ensures Occurrences(Scan(lower, [s], ByTag(t)), 0) == 1
  {
    assert EqIgnoreAsciiCase(s.tags[0], t);
    assert Matches(lower, s, ByTag(t));
    RepeatedCandidate(lower, s, t);
    IndexRefinesScan(lower, [s], ByTag(t), 0);
    ScanExact(lower, [s], ByTag(t), 0);
  }

  lemma RepeatedCandidate(lower: string -> string, s: Station, t: string)
    requires NormalToken(lower, Some(t)) && s.tags == [t, t]
    ensures var c := Candidates(lower, Index(lower, Views([s])), ByTag(t));
            c.Some? ==> Occurrences(Base(c.value, 1), 0) == 2
  {
    var lists := TagTokenLists(lower, Views([s]));
    TokensOfPair(lower, t);
    assert lists[0] == [t, t] && |lists| == 1;
    TwicePositioned(lists, t);
    CandidatesByTag(lower, Index(lower, Views([s])), t);
  }

  lemma TwicePositioned(lists: seq<seq<string>>, t: string)
    requires lists == [[t, t]]
    ensures t in IndexOf(lists) ==> Occurrences(IndexOf(lists)[t], 0) == 2
  {
    IndexOfExact(lists, t);
    PositionsExact(lists, t);
    assert Occurrences(Positions(lists, t), 0) == multiset(lists[0])[t] == 2;
  }

  lemma CandidatesByTag(lower: string -> string, p: Processed, t: string)
    requires NormalToken(lower, Some(t))
    ensures Candidates(lower, p, ByTag(t)) == if t in p.byTag then Some([p.byTag[t]]) else None
  {
    if t in p.byTag {
      assert [] + [p.byTag[t]] == [p.byTag[t]];
    }
  }

  lemma TokensOfPair(lower: string -> string, t: string)
    requires NormalToken(lower, Some(t))
    ensures ListTokens(lower, [t, t]) == [t, t]
  {
    TrimTrimmed(t);
    assert [t, t][..1] == [t] && [t][..0] == [];
    assert ListTokens(lower, [t]) == [] + [t];
  }

  // ----- The response -----

  datatype Response = Response(
    total: nat, filtered: nat, matches: nat, hasMore: bool, page: nat, limit: nat, maxLimit: nat,
    requestedLimit: Option<RequestedLimit>, offset: nat, cacheSource: string, origin: Option<string>, updatedAt: int,
    countries: seq<string>, genres: seq<string>, items: seq<Summary>)

  /** The slice of the selected positions a request for `limit` from `offset` is given. */
  function PageOf(selected: seq<nat>, limit: nat, offset: nat): seq<nat> {
    var start := Min(offset, |selected|);
    selected[start..Min(start + limit, |selected|)]
  }

  function HasMore(selected: seq<nat>, limit: nat, offset: nat): bool {
    Min(Min(offset, |selected|) + limit, |selected|) < |selected|
  }

  function Projected(stations: seq<Station>, positions: seq<nat>): (r: seq<Summary>)
    requires InRange(positions, |stations|)
    ensures |r| == |positions|
    ensures forall k :: 0 <= k < |r| ==> r[k] == Project(stations[positions[k]])
  {
    seq(|positions|, k requires 0 <= k < |positions| => Project(stations[positions[k]]))
  }

  /** `search_matches`: retain in place. */
  method SearchMatches(lower: string -> string, p: Processed, q: Query, indexes: seq<nat>) returns (r: seq<nat>)
    requires q.search.Some? && InRange(indexes, |p.searchTexts|)
    ensures r == Filter(indexes, SearchAt(lower, p, q))
  {
    var needle := lower(q.search.value);
    r := [];
    for k := 0 to |indexes|
      invariant r == Filter(indexes[..k], SearchAt(lower, p, q))
    {
      assert indexes[..k + 1][..k] == indexes[..k];
      if Contains(p.searchTexts[indexes[k]], needle) {
        r := r + [indexes[k]];
      }
    }
    assert indexes[..|indexes|] == indexes;
  }

  method RetainFiltered(stations: seq<Station>, q: Query, indexes: seq<nat>) returns (r: seq<nat>)
    ensures r == Filter(indexes, FiltersAt(stations, q))
  {
    r := [];
    for k := 0 to |indexes|
      invariant r == Filter(indexes[..k], FiltersAt(stations, q))
    {
      assert indexes[..k + 1][..k] == indexes[..k];
      var idx := indexes[k];
      if idx < |stations| && MatchesFilters(stations[idx], q) {
        r := r + [idx];
      }
    }
    assert indexes[..|indexes|] == indexes;
  }

  /** The positions `project_stations` answers with; `None` stands for its early returns. */
  method SelectPositions(lower: string -> string, p: Processed, stations: seq<Station>, q: Query)
    returns (selected: Option<seq<nat>>)
    requires LowerLaws(lower) && NormalQuery(lower, q)
    requires p == Index(lower, Views(stations))
    ensures selected.None? <==> Candidates(lower, p, q).None?
    ensures selected.Some? ==> selected.value == Selected(lower, p, stations, q)
  {
    CandidatesCover(lower, stations, q);
    match Candidates(lower, p, q) {
      case None => selected := None;
      case Some(lists) =>
        IntersectionExact(lists, |stations|, 0);
        var indexes := IntersectLists(lists, p.stationCount);
        if q.search.Some? {
          indexes := SearchMatches(lower, p, q, indexes);
        } else {
          FilterAll(indexes, SearchAt(lower, p, q));
        }
        var filtered := RetainFiltered(stations, q, indexes);
        selected := Some(filtered);
    }
  }

  /** The items show the stations at these positions, in order. */
  ghost predicate Shown(items: seq<Summary>, stations: seq<Station>, positions: seq<nat>)
    requires InRange(positions, |stations|)
  {
    |items| == |positions| && forall k :: 0 <= k < |items| ==> Summarizes(items[k], stations[positions[k]])
  }

  /** What a response repeats of the query, the payload and the service's state. */
  datatype Context = Context(maxLimit: nat, cacheSource: string)

  ghost predicate Echoes(r: Response, p: Processed, payload: Payload, q: Query, context: Context) {
    && r.total == |payload.stations| && r.origin == payload.source && r.updatedAt == payload.updatedAt
    && r.page == q.page && r.limit == q.limit && r.offset == q.offset && r.requestedLimit == q.requestedLimit
    && r.maxLimit == context.maxLimit && r.cacheSource == context.cacheSource
    && r.countries == p.countries && r.genres == p.genres
  }

  /** `r` answers query `q` with the requested page of the `selected` positions. */
  ghost predicate Describes(r: Response, p: Processed, payload: Payload, q: Query, context: Context, selected: seq<nat>) {
    && InRange(PageOf(selected, q.limit, q.offset), |payload.stations|)
    && Shown(r.items, payload.stations, PageOf(selected, q.limit, q.offset))
    && r.filtered == |r.items|
    && r.matches == |selected|
    && r.hasMore == HasMore(selected, q.limit, q.offset)
    && Echoes(r, p, payload, q, context)
  }

  method Respond(p: Processed, payload: Payload, q: Query, context: Context, selected: seq<nat>) returns (r: Response)
    requires InRange(selected, |payload.stations|)
    ensures Describes(r, p, payload, q, context, selected)
  {
    var start := Min(q.offset, |selected|);
    var end := Min(start + q.limit, |selected|);
    var items := Projected(payload.stations, selected[start..end]);
    r := Response(|payload.stations|, |items|, |selected|, end < |selected|, q.page, q.limit, context.maxLimit,
                  q.requestedLimit, q.offset, context.cacheSource, payload.source, payload.updatedAt,
                  p.countries, p.genres, items);
  }

  /** `empty_stations_response`. */
  method RespondEmpty(p: Processed, payload: Payload, q: Query, context: Context) returns (r: Response)
    ensures Describes(r, p, payload, q, context, [])
  {
    r := Response(|payload.stations|, 0, 0, false, q.page, q.limit, context.maxLimit, q.requestedLimit, q.offset,
                  context.cacheSource, payload.source, payload.updatedAt, p.countries, p.genres, []);
  }

  /**
   `project_stations`, given the index of the very stations: the response describes
   `Selected`, which `IndexRefinesScan` relates to a scan.
   */
  method ProjectStations(lower: string -> string, p: Processed, payload: Payload, q: Query, context: Context)
    returns (r: Response)
    requires LowerLaws(lower) && NormalQuery(lower, q)
    requires p == Index(lower, Views(payload.stations))
    ensures Describes(r, p, payload, q, context, Selected(lower, p, payload.stations, q))
  {
    var positions := SelectPositions(lower, p, payload.stations, q);
    IndexRefinesScan(lower, payload.stations, q, 0);
    match positions {
      case None => r := RespondEmpty(p, payload, q, context);
      case Some(selected) => r := Respond(p, payload, q, context, selected);
    }
  }
}
