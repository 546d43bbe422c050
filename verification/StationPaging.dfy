/**
 Query parameters and paging (`StationsQueryParams::normalized` of
 radio-service-rs/src/http.rs, and the pager of dioxus-app/src/radio.rs that
 follows `offset + limit` while `has_more`).
 */
module StationPaging {
  import opened Wrappers
  import opened Sequences
  import opened Text
  import opened Stations
  import opened StationIndex
  import opened StationQuery

  const MAX_LIMIT_DIGITS := 5
  const MAX_PAGINATION_DIGITS := 6
  const MAX_FILTER_LENGTH := 128
  const MAX_SEARCH_LENGTH := 160
  const MAX_OFFSET := 999_999
  /** `usize::MAX + 1` on the 64-bit targets the service is built for. */
  const USIZE_RANGE := 0x1_0000_0000_0000_0000

  datatype Params = Params(
    limit: Option<string>, offset: Option<string>, page: Option<string>,
    country: Option<string>, language: Option<string>, tag: Option<string>, genre: Option<string>,
    search: Option<string>)

  // ----- Decimal numbers -----

  predicate IsDigit(c: char) {
    '0' <= c <= '9'
  }

  predicate AllDigits(s: string) {
    forall i :: 0 <= i < |s| ==> IsDigit(s[i])
  }

  function ParseDigits(s: string): nat
    requires AllDigits(s)
  {
    if s == [] then 0 else ParseDigits(s[..|s| - 1]) * 10 + (s[|s| - 1] as int - '0' as int)
  }

  function Digit(d: nat): (c: char)
    requires d < 10
    ensures IsDigit(c) && c as int - '0' as int == d
  {
    ('0' as int + d) as char
  }

  /** `n.to_string()`. */
  function Decimal(n: nat): (s: string)
    ensures AllDigits(s) && s != []
    ensures ParseDigits(s) == n
  {
    if n < 10 then
      var s := [Digit(n)];
      assert ParseDigits(s[..0]) == 0;
      s
    else
      var front := Decimal(n / 10);
      var s := front + [Digit(n % 10)];
      assert s[..|s| - 1] == front;
      s
  }

  function Pow10(k: nat): (p: nat)
    ensures p >= 1
  {
    if k == 0 then 1 else 10 * Pow10(k - 1)
  }

  lemma {:induction false} DecimalLength(n: nat, k: nat)
    requires k >= 1
    ensures |Decimal(n)| <= k <==> n < Pow10(k)
    decreases n
  {
    if n >= 10 {
      if k == 1 {
        assert Pow10(1) == 10 * Pow10(0);
      } else {
        DecimalLength(n / 10, k - 1);
        assert Pow10(k) == 10 * Pow10(k - 1);
      }
    } else {
      assert Pow10(k) == 10 * Pow10(k - 1);
    }
  }

  lemma {:induction false} ParseBound(s: string)
    requires AllDigits(s)
    ensures ParseDigits(s) < Pow10(|s|)
  {
    if s != [] {
      ParseBound(s[..|s| - 1]);
    }
  }

  lemma {:induction false} Pow10Monotone(j: nat, k: nat)
    requires j <= k
    ensures Pow10(j) <= Pow10(k)
  {
    if j < k {
      Pow10Monotone(j, k - 1);
    }
  }

  // ----- Parsing parameters -----

  function NormalizeRaw(value: Option<string>): Option<string> {
    match value
    case None => None
    case Some(raw) => if Trim(raw) == "" then None else Some(Trim(raw))
  }

  /** The integer a parameter denotes, or the error it raises. */
  function ParseInteger(value: Option<string>, maxDigits: nat): Result<Option<nat>, ()> {
    match NormalizeRaw(value)
    case None => Ok(None)
    case Some(raw) => if |raw| > maxDigits || !AllDigits(raw) then Err(()) else Ok(Some(ParseDigits(raw)))
  }

  function NormalizeText(lower: string -> string, value: Option<string>, maxLength: nat): Result<Option<string>, ()> {
    match NormalizeRaw(value)
    case None => Ok(None)
    case Some(raw) => if |raw| > maxLength then Err(()) else Ok(Some(lower(raw)))
  }

  function Max(a: nat, b: nat): nat {
    if a >= b then a else b
  }

  /** The page size asked for, clamped to the configured maximum. */
  function ParseLimit(value: Option<string>, defaultLimit: nat, maxLimit: nat): Result<nat, ()> {
    match NormalizeRaw(value)
    case None => Ok(Min(Max(defaultLimit, 1), Max(maxLimit, 1)))
    case Some(raw) =>
      if EqIgnoreAsciiCase(raw, "all") then Ok(Max(maxLimit, 1))
      else if |raw| > MAX_LIMIT_DIGITS || !AllDigits(raw) then Err(())
      else if ParseDigits(raw) == 0 then Err(())
      else Ok(Min(ParseDigits(raw), Max(maxLimit, 1)))
  }

  /** The page size as the client put it, which the response repeats. */
  function RequestedBy(value: Option<string>): Option<RequestedLimit> {
    match NormalizeRaw(value)
    case None => None
    case Some(raw) =>
      if EqIgnoreAsciiCase(raw, "all") then Some(All) else if AllDigits(raw) then Some(Number(ParseDigits(raw))) else None
  }

  /** The offset: given, or derived from a page number, or zero. */
  function OffsetFor(offset: Option<nat>, page: Option<nat>, limit: nat): nat {
    match (offset, page)
    case (Some(o), _) => o
    case (None, Some(p)) => if p > 0 then (p - 1) * limit else 0
    case (None, None) => 0
  }

  /** Every numeric parameter is acceptable. */
  predicate NumbersOk(params: Params, defaultLimit: nat, maxLimit: nat) {
    && ParseLimit(params.limit, defaultLimit, maxLimit).Ok?
    && ParseInteger(params.offset, MAX_PAGINATION_DIGITS).Ok?
    && ParseInteger(params.page, MAX_PAGINATION_DIGITS).Ok?
  }

  /** Every text parameter is acceptable. */
  predicate TextsOk(lower: string -> string, params: Params) {
    && NormalizeText(lower, params.country, MAX_FILTER_LENGTH).Ok?
    && NormalizeText(lower, params.language, MAX_FILTER_LENGTH).Ok?
    && NormalizeText(lower, params.tag, MAX_FILTER_LENGTH).Ok?
    && NormalizeText(lower, params.genre, MAX_FILTER_LENGTH).Ok?
    && NormalizeText(lower, params.search, MAX_SEARCH_LENGTH).Ok?
  }

  /** The query asks for what the parameters say. */
  predicate NumbersAgree(params: Params, defaultLimit: nat, maxLimit: nat, limit: nat, offset: nat)
    requires NumbersOk(params, defaultLimit, maxLimit)
  {
    && limit == ParseLimit(params.limit, defaultLimit, maxLimit).value
    && 1 <= limit <= Max(maxLimit, 1)
    && offset == OffsetFor(ParseInteger(params.offset, MAX_PAGINATION_DIGITS).value,
                           ParseInteger(params.page, MAX_PAGINATION_DIGITS).value, limit)
  }

  predicate TextsAgree(lower: string -> string, params: Params, q: Query) {
    && NormalizeText(lower, params.country, MAX_FILTER_LENGTH) == Ok(q.country)
    && NormalizeText(lower, params.language, MAX_FILTER_LENGTH) == Ok(q.language)
    && NormalizeText(lower, params.tag, MAX_FILTER_LENGTH) == Ok(q.tag)
    && NormalizeText(lower, params.genre, MAX_FILTER_LENGTH) == Ok(q.genre)
    && NormalizeText(lower, params.search, MAX_SEARCH_LENGTH) == Ok(q.search)
  }

  /** `normalized`: every bad parameter is reported, in the order they are examined. */
  method Normalized(lower: string -> string, params: Params, defaultLimit: nat, maxLimit: nat)
    returns (r: Result<Query, seq<string>>)
    requires LowerLaws(lower)
    ensures r.Ok? <==> NumbersOk(params, defaultLimit, maxLimit) && TextsOk(lower, params)
    ensures r.Err? ==> r.error != []
    ensures r.Ok? ==>
              && NormalQuery(lower, r.value)
              && NumbersAgree(params, defaultLimit, maxLimit, r.value.limit, r.value.offset)
              && r.value.page == r.value.offset / r.value.limit + 1
              && r.value.requestedLimit == RequestedBy(params.limit)
              && TextsAgree(lower, params, r.value)
  {
    var limit, start, errors := TakeNumbers(params, defaultLimit, maxLimit);
    var q: Query;
    q, errors := TakeTexts(lower, params, limit, start, errors);
    q := q.(requestedLimit := RequestedBy(params.limit));
    r := if errors != [] then Err(errors) else Ok(q);
  }

  method TakeNumbers(params: Params, defaultLimit: nat, maxLimit: nat)
    returns (limit: nat, offset: nat, errors: seq<string>)
    ensures errors == [] <==> NumbersOk(params, defaultLimit, maxLimit)
    ensures errors == [] ==> NumbersAgree(params, defaultLimit, maxLimit, limit, offset)
    ensures limit >= 1
  {
    errors := [];
    limit := Min(Max(defaultLimit, 1), Max(maxLimit, 1));
    match ParseLimit(params.limit, defaultLimit, maxLimit) {
      case Ok(l) => limit := l;
      case Err(_) => errors := errors + ["limit"];
    }
    var offsetCandidate, page: Option<nat>;
    offsetCandidate, errors := TakeInteger(params.offset, "offset", errors);
    page, errors := TakeInteger(params.page, "page", errors);
    offset := OffsetFor(offsetCandidate, page, limit);
  }

  method TakeTexts(lower: string -> string, params: Params, limit: nat, start: nat, before: seq<string>)
    returns (q: Query, errors: seq<string>)
    requires LowerLaws(lower) && limit >= 1
    ensures q.limit == limit && q.offset == start && q.page == start / limit + 1
    ensures errors == [] <==> before == [] && TextsOk(lower, params)
    ensures errors == [] ==> TextsAgree(lower, params, q) && NormalQuery(lower, q)
  {
    var country, language, tag, genre, search: Option<string>;
    country, errors := TakeText(lower, params.country, "country", MAX_FILTER_LENGTH, before);
    language, errors := TakeText(lower, params.language, "language", MAX_FILTER_LENGTH, errors);
    tag, errors := TakeText(lower, params.tag, "tag", MAX_FILTER_LENGTH, errors);
    genre, errors := TakeText(lower, params.genre, "genre", MAX_FILTER_LENGTH, errors);
    search, errors := TakeText(lower, params.search, "search", MAX_SEARCH_LENGTH, errors);
    q := Query(country, language, tag, genre, search, limit, start, start / limit + 1, None);
  }

  method TakeInteger(value: Option<string>, name: string, errors: seq<string>)
    returns (r: Option<nat>, all: seq<string>)
    ensures match ParseInteger(value, MAX_PAGINATION_DIGITS)
            case Ok(v) => r == v && all == errors
            case Err(_) => all == errors + [name]
  {
    match ParseInteger(value, MAX_PAGINATION_DIGITS)
    case Ok(v) => r, all := v, errors;
    case Err(_) => r, all := None, errors + [name];
  }

  method TakeText(lower: string -> string, value: Option<string>, name: string, maxLength: nat, errors: seq<string>)
    returns (r: Option<string>, all: seq<string>)
    requires LowerLaws(lower)
    ensures match NormalizeText(lower, value, maxLength)
            case Ok(v) => r == v && all == errors && NormalToken(lower, r)
            case Err(_) => all == errors + [name]
  {
    match NormalizeText(lower, value, maxLength)
    case Ok(v) => r, all := v, errors;
    case Err(_) => r, all := None, errors + [name];
  }

  /** A page asked for by number is echoed as that page. */
  lemma PageIsEchoed(p: nat, limit: nat)
    requires p >= 1 && limit >= 1
    ensures OffsetFor(None, Some(p), limit) / limit + 1 == p
  {
    QuotientUnique(p - 1, 0, limit);
  }

  lemma TimesPositive(a: int, d: nat)
    requires d >= 1
    ensures a >= 1 ==> a * d >= d
    ensures a <= -1 ==> a * d <= 0 - d
  {
  }

  lemma QuotientUnique(q: nat, r: nat, d: nat)
    requires r < d
    ensures (q * d + r) / d == q
  {
    var x := q * d + r;
    assert x == (x / d) * d + x % d;
    assert (x / d - q) * d == r - x % d;
    TimesPositive(x / d - q, d);
  }

  /** With a sane maximum page size, neither the offset nor the end of a page overflows. */
  lemma OffsetsFit(params: Params, limit: nat, maxLimit: nat)
    requires 1 <= limit <= Max(maxLimit, 1)
    requires Max(maxLimit, 1) * 1_000_000 <= USIZE_RANGE
    requires ParseInteger(params.offset, MAX_PAGINATION_DIGITS).Ok?
    requires ParseInteger(params.page, MAX_PAGINATION_DIGITS).Ok?
    ensures OffsetFor(ParseInteger(params.offset, MAX_PAGINATION_DIGITS).value,
                      ParseInteger(params.page, MAX_PAGINATION_DIGITS).value, limit) + limit < USIZE_RANGE
  {
    ParsedBelow(params.offset);
    ParsedBelow(params.page);
    match ParseInteger(params.page, MAX_PAGINATION_DIGITS).value
    case None =>
    case Some(p) => PageFits(p, limit, Max(maxLimit, 1));
  }

  lemma PageFits(p: nat, limit: nat, most: nat)
    requires p <= MAX_OFFSET && 1 <= limit <= most
    ensures p > 0 ==> (p - 1) * limit + limit <= MAX_OFFSET * most
  {
    if p > 0 {
      assert (p - 1) * limit + limit == p * limit;
      assert p * limit <= p * most;
      assert p * most <= MAX_OFFSET * most;
    }
  }

  lemma SixDigits()
    ensures Pow10(MAX_PAGINATION_DIGITS) == MAX_OFFSET + 1
  {
    assert Pow10(1) == 10 && Pow10(2) == 100 && Pow10(3) == 1000;
    assert Pow10(4) == 10_000 && Pow10(5) == 100_000;
  }

  lemma ParsedBelow(value: Option<string>)
    ensures var r := ParseInteger(value, MAX_PAGINATION_DIGITS);
            r.Ok? && r.value.Some? ==> r.value.value <= MAX_OFFSET
  {
    if value.Some? && AllDigits(Trim(value.value)) && |Trim(value.value)| <= MAX_PAGINATION_DIGITS {
      ParseBound(Trim(value.value));
      Pow10Monotone(|Trim(value.value)|, MAX_PAGINATION_DIGITS);
      SixDigits();
    }
  }

  // ----- Following the pages -----

  datatype Walk = Walk(positions: seq<nat>, pages: nat, complete: bool)

  /**
   A client that asks for `offset`, appends what it gets, and goes on from
   `offset + limit` while the service says there is more. A request the service
   rejects ends the walk.
   */
  function Follow(selected: seq<nat>, limit: nat, offset: nat): Walk
    requires limit >= 1
    decreases |selected| - offset
  {
    match ParseInteger(Some(Decimal(offset)), MAX_PAGINATION_DIGITS)
    case Err(_) => Walk([], 0, false)
    case Ok(parsed) =>
      var start := OffsetFor(parsed, None, limit);
      var page := PageOf(selected, limit, start);
      if HasMore(selected, limit, start) && offset < |selected| then
        var rest := Follow(selected, limit, offset + limit);
        Walk(page + rest.positions, 1 + rest.pages, rest.complete)
      else Walk(page, 1, true)
  }

  lemma OffsetRoundTrip(offset: nat)
    ensures ParseInteger(Some(Decimal(offset)), MAX_PAGINATION_DIGITS)
            == if offset <= MAX_OFFSET then Ok(Some(offset)) else Err(())
  {
    var s := Decimal(offset);
    assert Trimmed(s) by {
      assert IsDigit(s[0]) && IsDigit(s[|s| - 1]);
    }
    TrimTrimmed(s);
    DecimalLength(offset, MAX_PAGINATION_DIGITS);
    SixDigits();
  }

  /** Pages needed for `n` matches: one for an empty answer, else the quotient rounded up. */
  function PagesFor(n: nat, limit: nat): nat
    requires limit >= 1
  {
    if n == 0 then 1 else (n - 1) / limit + 1
  }

  lemma PagesStep(n: nat, limit: nat)
    requires limit >= 1
    ensures n <= limit ==> PagesFor(n, limit) == 1
    ensures n > limit ==> PagesFor(n, limit) == PagesFor(n - limit, limit) + 1
  {
    if n > limit {
      var q, r := (n - 1 - limit) / limit, (n - 1 - limit) % limit;
      assert n - 1 == (q + 1) * limit + r;
      QuotientUnique(q + 1, r, limit);
    } else if n > 0 {
      QuotientUnique(0, n - 1, limit);
    }
  }

  lemma FollowStep(selected: seq<nat>, limit: nat, offset: nat)
    requires limit >= 1 && (offset == 0 || offset < |selected|)
    ensures offset > MAX_OFFSET ==> Follow(selected, limit, offset) == Walk([], 0, false)
    ensures offset <= MAX_OFFSET && offset + limit >= |selected| ==>
              Follow(selected, limit, offset) == Walk(selected[offset..], 1, true)
    ensures offset <= MAX_OFFSET && offset + limit < |selected| ==>
              var rest := Follow(selected, limit, offset + limit);
              Follow(selected, limit, offset)
              == Walk(selected[offset..offset + limit] + rest.positions, 1 + rest.pages, rest.complete)
  {
    OffsetRoundTrip(offset);
  }

  /** Where the last page starts when paging goes on from `offset` through `n` matches. */
  function LastOffset(n: nat, limit: nat, offset: nat): (r: nat)
    requires limit >= 1 && (offset == 0 || offset < n)
    ensures r >= offset
  {
    offset + (PagesFor(n - offset, limit) - 1) * limit
  }

  lemma LastOffsetStep(n: nat, limit: nat, offset: nat)
    requires limit >= 1 && offset + limit < n
    ensures LastOffset(n, limit, offset) == LastOffset(n, limit, offset + limit)
  {
    PagesStep(n - offset, limit);
    var pages := PagesFor(n - offset, limit);
    assert (pages - 1) * limit == (pages - 2) * limit + limit;
  }

  /** What a walk from `offset` has to be. */
  ghost predicate Exact(walk: Walk, selected: seq<nat>, limit: nat, offset: nat)
    requires limit >= 1 && (offset == 0 || offset < |selected|)
  {
    var pages := PagesFor(|selected| - offset, limit);
    && (walk.complete <==> LastOffset(|selected|, limit, offset) <= MAX_OFFSET)
    && (if walk.complete then walk.positions == selected[offset..] && walk.pages == pages
        else walk.positions < selected[offset..] && walk.pages < pages)
  }

  lemma ExactExtends(rest: Walk, selected: seq<nat>, limit: nat, offset: nat)
    requires limit >= 1 && offset + limit < |selected| && offset <= MAX_OFFSET
    requires Exact(rest, selected, limit, offset + limit)
    ensures Exact(Walk(selected[offset..offset + limit] + rest.positions, 1 + rest.pages, rest.complete),
                  selected, limit, offset)
  {
    PagesStep(|selected| - offset, limit);
    LastOffsetStep(|selected|, limit, offset);
    assert selected[offset..] == selected[offset..offset + limit] + selected[offset + limit..];
  }

  lemma ExactEnds(selected: seq<nat>, limit: nat, offset: nat)
    requires limit >= 1 && (offset == 0 || offset < |selected|)
    ensures offset > MAX_OFFSET ==> Exact(Walk([], 0, false), selected, limit, offset)
    ensures offset <= MAX_OFFSET && offset + limit >= |selected| ==>
              Exact(Walk(selected[offset..], 1, true), selected, limit, offset)
  {
    PagesStep(|selected| - offset, limit);
  }

  /** A walk from `offset` is complete exactly when the offset of its last page can be asked for. */
  lemma {:induction false} FollowFrom(selected: seq<nat>, limit: nat, offset: nat)
    requires limit >= 1 && (offset == 0 || offset < |selected|)
    ensures Exact(Follow(selected, limit, offset), selected, limit, offset)
    decreases |selected| - offset
  {
    FollowStep(selected, limit, offset);
    ExactEnds(selected, limit, offset);
    if offset <= MAX_OFFSET && offset + limit < |selected| {
      FollowFrom(selected, limit, offset + limit);
      ExactExtends(Follow(selected, limit, offset + limit), selected, limit, offset);
    }
  }

  /**
   Following the pages returns every match exactly once, in order, in the least
   number of pages, if and only if the last page starts at an offset of at most
   six digits; otherwise the service rejects an offset it has itself implied.
   */
  lemma PagesAreComplete(selected: seq<nat>, limit: nat)
    requires limit >= 1
    ensures var walk := Follow(selected, limit, 0);
            var pages := PagesFor(|selected|, limit);
            && (walk.complete <==> (pages - 1) * limit <= MAX_OFFSET)
            && (if walk.complete then walk.positions == selected && walk.pages == pages
                else walk.positions < selected && walk.pages < pages)
  {
    FollowFrom(selected, limit, 0);
    assert selected[0..] == selected;
  }

  // ----- A catalogue that cannot be paged through -----

  /** A query without filters selects every station. */
  lemma UnfilteredSelectsAll(lower: string -> string, stations: seq<Station>, q: Query)
    requires q.country.None? && q.language.None? && q.tag.None? && q.genre.None? && q.search.None?
    ensures Selected(lower, Index(lower, Views(stations)), stations, q) == Range(|stations|)
  {
    var p := Index(lower, Views(stations));
    var all := Range(|stations|);
    FilterAll(all, SearchAt(lower, p, q));
    FilterAll(all, FiltersAt(stations, q));
  }

  function Numbered(i: nat): Station {
    Station(Decimal(i), "station", "https://radio.example/" + Decimal(i), None, None, None, None, None, [], [], None, None,
            None, false, true, None, None, 0, 0, 0)
  }

  function ManyStations(n: nat): (r: seq<Station>)
    ensures |r| == n && forall i :: 0 <= i < n ==> r[i] == Numbered(i)
  {
    seq(n, i requires 0 <= i < n => Numbered(i))
  }

  /** The pager's own page size. */
  const PAGE_SIZE := 40

  lemma LastPageOfMillion(n: nat)
    ensures (PagesFor(n, PAGE_SIZE) - 1) * PAGE_SIZE <= MAX_OFFSET <==> n <= MAX_OFFSET + 1
  {
  }

  /** A pager with that page size gets through exactly up to a million matches. */
  lemma PagerExactly(selected: seq<nat>)
    ensures Follow(selected, PAGE_SIZE, 0).positions == selected <==> |selected| <= MAX_OFFSET + 1
  {
    PagesAreComplete(selected, PAGE_SIZE);
    LastPageOfMillion(|selected|);
  }

  lemma ManyStationsDistinct(n: nat)
    ensures DistinctIds(ManyStations(n))
  {
    var stations := ManyStations(n);
    forall i, j | 0 <= i < j < n ensures stations[i].id != stations[j].id {
      assert stations[i] == Numbered(i) && stations[j] == Numbered(j);
      assert ParseDigits(Decimal(i)) == i && ParseDigits(Decimal(j)) == j;
    }
  }

  /** A million and one stations with distinct ids, asked for without filters: the last page is never delivered. */
  lemma LongCatalogueIsCutOff(lower: string -> string, q: Query, n: nat)
    requires q.country.None? && q.language.None? && q.tag.None? && q.genre.None? && q.search.None?
    requires n == 1_000_001
    ensures var stations := ManyStations(n);
            var selected := Selected(lower, Index(lower, Views(stations)), stations, q);
            && DistinctIds(stations) && selected == Range(n)
            && Follow(selected, PAGE_SIZE, 0).positions != selected
  {
    ManyStationsDistinct(n);
    UnfilteredSelectsAll(lower, ManyStations(n), q);
    PagerExactly(Range(n));
  }

  // ----- What a page size means -----

  lemma DecimalIsNoWord(n: nat)
    ensures Trim(Decimal(n)) == Decimal(n) && Decimal(n) != "" && !EqIgnoreAsciiCase(Decimal(n), "all")
  {
    var s := Decimal(n);
    assert IsDigit(s[0]) && IsDigit(s[|s| - 1]);
    TrimTrimmed(s);
  }

  /** A number of one to five digits is the page size, up to the maximum; zero and longer numbers are refused. */
  lemma LimitOfNumber(n: nat, defaultLimit: nat, maxLimit: nat)
    ensures ParseLimit(Some(Decimal(n)), defaultLimit, maxLimit)
            == if 1 <= n <= 99_999 then Ok(if n <= maxLimit then n else if maxLimit >= 1 then maxLimit else 1) else Err(())
  {
    DecimalIsNoWord(n);
    DecimalLength(n, MAX_LIMIT_DIGITS);
    FiveDigits();
  }

  lemma FiveDigits()
    ensures Pow10(MAX_LIMIT_DIGITS) == 100_000
  {
    assert Pow10(1) == 10 && Pow10(2) == 100 && Pow10(3) == 1000;
    assert Pow10(4) == 10_000;
  }

  /** "all" in any case is the maximum; nothing, or blanks, the default up to the maximum; at least one either way. */
  lemma LimitOfOthers(value: Option<string>, defaultLimit: nat, maxLimit: nat)
    ensures value.None? || Trim(value.value) == "" ==>
              ParseLimit(value, defaultLimit, maxLimit) == Ok(Min(if defaultLimit >= 1 then defaultLimit else 1,
                                                                   if maxLimit >= 1 then maxLimit else 1))
    ensures value.Some? && EqIgnoreAsciiCase(Trim(value.value), "all") ==>
              ParseLimit(value, defaultLimit, maxLimit) == Ok(if maxLimit >= 1 then maxLimit else 1)
    ensures (value.Some? && Trim(value.value) != "" && !AllDigits(Trim(value.value))
             && !EqIgnoreAsciiCase(Trim(value.value), "all")) ==> ParseLimit(value, defaultLimit, maxLimit).Err?
  {
  }

  /** A text is trimmed and lower-cased; blanks count as none, and too long a text is refused. */
  lemma TextExactly(lower: string -> string, value: Option<string>, maxLength: nat)
    ensures var r := NormalizeText(lower, value, maxLength);
            && (r == Ok(None) <==> value.None? || Trim(value.value) == "")
            && (r.Err? <==> value.Some? && |Trim(value.value)| > maxLength && Trim(value.value) != "")
            && (r.Ok? && r.value.Some? ==> value.Some? && r.value.value == lower(Trim(value.value)))
  {
  }

  /** An offset that is given wins over a page; without either, paging starts at the beginning. */
  lemma OffsetWins(offset: nat, page: Option<nat>, limit: nat)
    ensures OffsetFor(Some(offset), page, limit) == offset
    ensures OffsetFor(None, None, limit) == 0 && OffsetFor(None, Some(0), limit) == 0
  {
  }

  /** The response repeats the number asked for, unclamped, or "all". */
  lemma RequestedExactly(n: nat, value: string)
    ensures RequestedBy(Some(Decimal(n))) == Some(Number(n))
    ensures EqIgnoreAsciiCase(Trim(value), "all") ==> RequestedBy(Some(value)) == Some(All)
    ensures Trim(value) == "" ==> RequestedBy(Some(value)) == None
    ensures RequestedBy(None) == None
  {
    DecimalIsNoWord(n);
  }
}
