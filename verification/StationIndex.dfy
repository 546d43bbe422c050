/**
 The inverted station index (radio-service-rs/src/stations/processed.rs).
 `Build` is proved against `Index`, which reads nothing of a station but its
 `View`; the lemmas say what an index list contains.
 */
module StationIndex {
  import opened Wrappers
  import opened Sequences
  import opened Text
  import opened Stations

  /** The fields of a station that the index depends on. */
  datatype View = View(
    id: string, name: string, country: Option<string>, countryCode: Option<string>,
    languages: seq<string>, tags: seq<string>)

  function ViewOf(s: Station): View {
    View(s.id, s.name, s.country, s.countryCode, s.languages, s.tags)
  }

  function Views(stations: seq<Station>): (vs: seq<View>)
    ensures |vs| == |stations|
    ensures forall i :: 0 <= i < |vs| ==> vs[i] == ViewOf(stations[i])
  {
    Map(stations, ViewOf)
  }

  datatype GenreEntry = GenreEntry(tag: string, count: nat)

  datatype Processed = Processed(
    stationCount: nat,
    countries: seq<string>,
    genres: seq<string>,
    searchTexts: seq<string>,
    indexById: map<string, nat>,
    byCountry: map<string, seq<nat>>,
    byLanguage: map<string, seq<nat>>,
    byTag: map<string, seq<nat>>)

  const MAX_GENRES := 200

  // ----- Tokens -----

  function NormalizeToken(lower: string -> string, value: string): Option<string> {
    var t := Trim(value);
    if t == "" then None else Some(lower(t))
  }

  function TokenSeq(token: Option<string>): seq<string> {
    match token case Some(t) => [t] case None => []
  }

  function CountryName(v: View): Option<string> {
    match v.country
    case None => None
    case Some(c) => if Trim(c) == "" then None else Some(Trim(c))
  }

  function CountryTokens(lower: string -> string, v: View): seq<string> {
    (match CountryName(v) case Some(name) => TokenSeq(NormalizeToken(lower, name)) case None => [])
    + (match v.countryCode case Some(code) => TokenSeq(NormalizeToken(lower, code)) case None => [])
  }

  function ListTokens(lower: string -> string, values: seq<string>): seq<string> {
    if values == [] then []
    else ListTokens(lower, values[..|values| - 1]) + TokenSeq(NormalizeToken(lower, values[|values| - 1]))
  }

  function CountryTokenLists(lower: string -> string, vs: seq<View>): (r: seq<seq<string>>)
    ensures |r| == |vs|
    ensures forall i :: 0 <= i < |vs| ==> r[i] == CountryTokens(lower, vs[i])
  {
    Map(vs, (v: View) => CountryTokens(lower, v))
  }

  function LanguageTokenLists(lower: string -> string, vs: seq<View>): (r: seq<seq<string>>)
    ensures |r| == |vs|
    ensures forall i :: 0 <= i < |vs| ==> r[i] == ListTokens(lower, vs[i].languages)
  {
    Map(vs, (v: View) => ListTokens(lower, v.languages))
  }

  function TagTokenLists(lower: string -> string, vs: seq<View>): (r: seq<seq<string>>)
    ensures |r| == |vs|
    ensures forall i :: 0 <= i < |vs| ==> r[i] == ListTokens(lower, vs[i].tags)
  {
    Map(vs, (v: View) => ListTokens(lower, v.tags))
  }

  // ----- Index lists -----

  function Push(m: map<string, seq<nat>>, token: string, idx: nat): map<string, seq<nat>> {
    m[token := (if token in m then m[token] else []) + [idx]]
  }

  function PushAll(m: map<string, seq<nat>>, tokens: seq<string>, idx: nat): map<string, seq<nat>> {
    if tokens == [] then m
    else Push(PushAll(m, tokens[..|tokens| - 1], idx), tokens[|tokens| - 1], idx)
  }

  function IndexOf(lists: seq<seq<string>>): map<string, seq<nat>> {
    if lists == [] then map[]
    else PushAll(IndexOf(lists[..|lists| - 1]), lists[|lists| - 1], |lists| - 1)
  }

  // ----- Names, genres, search texts -----

  function CountryNames(vs: seq<View>): set<string> {
    if vs == [] then {}
    else CountryNames(vs[..|vs| - 1]) + (match CountryName(vs[|vs| - 1]) case Some(n) => {n} case None => {})
  }

  function CountTag(lower: string -> string, m: map<string, GenreEntry>, tag: string): map<string, GenreEntry> {
    match NormalizeToken(lower, tag)
    case None => m
    case Some(t) =>
      var e := if t in m then m[t] else GenreEntry(Trim(tag), 0);
      m[t := e.(count := e.count + 1)]
  }

  function CountTags(lower: string -> string, m: map<string, GenreEntry>, tags: seq<string>): map<string, GenreEntry> {
    if tags == [] then m
    else CountTag(lower, CountTags(lower, m, tags[..|tags| - 1]), tags[|tags| - 1])
  }

  function GenreCounts(lower: string -> string, vs: seq<View>): map<string, GenreEntry> {
    if vs == [] then map[]
    else CountTags(lower, GenreCounts(lower, vs[..|vs| - 1]), vs[|vs| - 1].tags)
  }

  /** Most frequent first, then by label. */
  function GenreOrder(): (GenreEntry, GenreEntry) -> bool {
    (a: GenreEntry, b: GenreEntry) => a.count > b.count || (a.count == b.count && StrLe(a.tag, b.tag))
  }

  function NameOrder(): (string, string) -> bool {
    (a: string, b: string) => StrLe(a, b)
  }

  function Values<V>(m: map<string, V>, keys: seq<string>): (r: seq<V>)
    requires forall k :: k in keys ==> k in m
    ensures |r| == |keys|
    ensures forall i :: 0 <= i < |r| ==> r[i] == m[keys[i]]
  {
    seq(|keys|, i requires 0 <= i < |keys| => m[keys[i]])
  }

  function Labels(entries: seq<GenreEntry>): (r: seq<string>)
    ensures |r| == |entries|
    ensures forall i :: 0 <= i < |r| ==> r[i] == entries[i].tag
  {
    Map(entries, (e: GenreEntry) => e.tag)
  }

  function GenreList(m: map<string, GenreEntry>, keys: seq<string>): seq<string>
    requires forall k :: k in keys ==> k in m
  {
    Take(Labels(SortBy(Values(m, keys), GenreOrder())), MAX_GENRES)
  }

  /** Some order of the elements of a set: the iteration order of a hash map. */
  ghost function Enumeration<T(!new)>(s: set<T>): (r: seq<T>)
    ensures multiset(r) == multiset(s)
    ensures forall x :: x in r <==> x in s
  {
    if s == {} then []
    else
      var x :| x in s;
      assert s == (s - {x}) + {x};
      Enumeration(s - {x}) + [x]
  }

  function Lowered(lower: string -> string, values: seq<string>): (r: seq<string>)
    ensures |r| == |values|
    ensures forall i :: 0 <= i < |r| ==> r[i] == lower(values[i])
  {
    Map(values, lower)
  }

  function SearchText(lower: string -> string, v: View): string {
    Join([lower(v.name)] + Lowered(lower, v.tags) + Lowered(lower, v.languages)
         + (match v.country case Some(c) => [lower(c)] case None => []), ' ')
  }

  function SearchTexts(lower: string -> string, vs: seq<View>): (r: seq<string>)
    ensures |r| == |vs|
    ensures forall i :: 0 <= i < |vs| ==> r[i] == SearchText(lower, vs[i])
  {
    Map(vs, (v: View) => SearchText(lower, v))
  }

  function IdIndex(vs: seq<View>): map<string, nat> {
    if vs == [] then map[] else IdIndex(vs[..|vs| - 1])[vs[|vs| - 1].id := |vs| - 1]
  }

  /** What the index of a list of stations is, as a function of their views alone. */
  ghost function Index(lower: string -> string, vs: seq<View>): Processed {
    var genres := GenreCounts(lower, vs);
    Processed(
      |vs|,
      SortBy(Enumeration(CountryNames(vs)), NameOrder()),
      GenreList(genres, Enumeration(genres.Keys)),
      SearchTexts(lower, vs),
      IdIndex(vs),
      IndexOf(CountryTokenLists(lower, vs)),
      IndexOf(LanguageTokenLists(lower, vs)),
      IndexOf(TagTokenLists(lower, vs)))
  }

  // ----- Independence of hash-map iteration order -----

  lemma NameOrderLaws(s: seq<string>)
    ensures TotalPreorder(NameOrder())
    ensures Separates(NameOrder(), s)
  {
    forall x: string, y: string ensures NameOrder()(x, y) || NameOrder()(y, x) {
      StrLeTotal(x, y);
    }
    forall x: string, y: string, z: string | NameOrder()(x, y) && NameOrder()(y, z) ensures NameOrder()(x, z) {
      StrLeTransitive(x, y, z);
    }
    forall i, j | 0 <= i < |s| && 0 <= j < |s| && NameOrder()(s[i], s[j]) && NameOrder()(s[j], s[i])
      ensures s[i] == s[j]
    {
      StrLeAntisymmetric(s[i], s[j]);
    }
  }

  /** Sorting the elements of a set gives one result, in whatever order they are met. */
  lemma SortedNamesUnique(a: seq<string>, b: seq<string>)
    requires multiset(a) == multiset(b)
    ensures SortBy(a, NameOrder()) == SortBy(b, NameOrder())
  {
    var sa, sb := SortBy(a, NameOrder()), SortBy(b, NameOrder());
    NameOrderLaws(sa);
    SortBySorted(a, NameOrder());
    SortBySorted(b, NameOrder());
    SortedUnique(sa, sb, NameOrder());
  }

  lemma GenreOrderLaws(s: seq<GenreEntry>)
    ensures TotalPreorder(GenreOrder())
    ensures Separates(GenreOrder(), s)
  {
    forall x: GenreEntry, y: GenreEntry ensures GenreOrder()(x, y) || GenreOrder()(y, x) {
      StrLeTotal(x.tag, y.tag);
    }
    forall x: GenreEntry, y: GenreEntry, z: GenreEntry | GenreOrder()(x, y) && GenreOrder()(y, z)
      ensures GenreOrder()(x, z)
    {
      if x.count == y.count == z.count {
        StrLeTransitive(x.tag, y.tag, z.tag);
      }
    }
    forall i, j | 0 <= i < |s| && 0 <= j < |s| && GenreOrder()(s[i], s[j]) && GenreOrder()(s[j], s[i])
      ensures s[i] == s[j]
    {
      StrLeAntisymmetric(s[i].tag, s[j].tag);
    }
  }

  lemma {:induction false} ValuesRearranged<V>(m: map<string, V>, a: seq<string>, b: seq<string>)
    requires multiset(a) == multiset(b)
    requires forall k :: k in a ==> k in m
    requires forall k :: k in b ==> k in m
    ensures multiset(Values(m, a)) == multiset(Values(m, b))
    decreases |a|
  {
    if a == [] {
      SameElements(a, b);
      assert Values(m, a) == Values(m, b);
    } else {
      assert a[0] in multiset(a);
      var i := IndexIn(b, a[0]);
      SameRest(a, b, i);
      ValuesWithout(m, a, 0);
      ValuesWithout(m, b, i);
      ValuesRearranged(m, a[..0] + a[1..], b[..i] + b[i + 1..]);
      PutBack(multiset(Values(m, a)), multiset(Values(m, b)), m[a[0]]);
    }
  }

  lemma ValuesWithout<V>(m: map<string, V>, keys: seq<string>, i: nat)
    requires i < |keys| && forall k :: k in keys ==> k in m
    ensures forall k :: k in keys[..i] + keys[i + 1..] ==> k in m
    ensures multiset(Values(m, keys[..i] + keys[i + 1..])) == multiset(Values(m, keys)) - multiset{m[keys[i]]}
    ensures m[keys[i]] in multiset(Values(m, keys))
  {
    var vs := Values(m, keys);
    assert Values(m, keys[..i] + keys[i + 1..]) == vs[..i] + vs[i + 1..];
    assert vs[i] in vs;
    RemoveAt(vs, i);
  }

  /** The genre list does not depend on the iteration order of the hash map. */
  lemma GenreListUnique(m: map<string, GenreEntry>, a: seq<string>, b: seq<string>)
    requires multiset(a) == multiset(b)
    requires forall k :: k in a ==> k in m
    requires forall k :: k in b ==> k in m
    ensures GenreList(m, a) == GenreList(m, b)
  {
    var sa, sb := SortBy(Values(m, a), GenreOrder()), SortBy(Values(m, b), GenreOrder());
    ValuesRearranged(m, a, b);
    GenreOrderLaws(sa);
    SortBySorted(Values(m, a), GenreOrder());
    SortBySorted(Values(m, b), GenreOrder());
    SortedUnique(sa, sb, GenreOrder());
  }

  // ----- Building -----

  /** Iterating over a hash set: the elements come in an order the caller cannot choose. */
  method Iterate(s: set<string>) returns (r: seq<string>)
    ensures multiset(r) == multiset(s)
    ensures forall x :: x in r <==> x in s
  {
    r := [];
    var todo := s;
    while todo != {}
      invariant todo <= s
      invariant multiset(r) == multiset(s - todo)
      decreases |todo|
    {
      var x :| x in todo;
      assert s - (todo - {x}) == (s - todo) + {x};
      r := r + [x];
      todo := todo - {x};
    }
    assert s - todo == s;
    forall x ensures x in r <==> x in s {
      assert x in r <==> x in multiset(r);
    }
  }

  method PushTokens(m: map<string, seq<nat>>, lower: string -> string, values: seq<string>, idx: nat)
    returns (r: map<string, seq<nat>>)
    ensures r == PushAll(m, ListTokens(lower, values), idx)
  {
    r := m;
    for i := 0 to |values|
      invariant r == PushAll(m, ListTokens(lower, values[..i]), idx)
    {
      assert values[..i + 1][..i] == values[..i];
      match NormalizeToken(lower, values[i])
      case Some(token) =>
        var tokens := ListTokens(lower, values[..i]);
        assert (tokens + [token])[..|tokens|] == tokens;
        r := Push(r, token, idx);
      case None =>
        assert ListTokens(lower, values[..i]) + [] == ListTokens(lower, values[..i]);
    }
    assert values[..|values|] == values;
  }

  method PushCountry(m: map<string, seq<nat>>, lower: string -> string, s: Station, idx: nat)
    returns (r: map<string, seq<nat>>)
    ensures r == PushAll(m, CountryTokens(lower, ViewOf(s)), idx)
  {
    r := m;
    var v := ViewOf(s);
    ghost var first: seq<string> := [];
    match CountryName(v) {
      case Some(name) =>
        match NormalizeToken(lower, name) {
          case Some(token) =>
            r := Push(r, token, idx);
            first := [token];
          case None =>
        }
      case None =>
    }
    assert r == PushAll(m, first, idx) by {
      assert first != [] ==> first[..0] == [];
    }
    match s.countryCode {
      case Some(code) =>
        match NormalizeToken(lower, code) {
          case Some(token) =>
            assert (first + [token])[..|first|] == first;
            r := Push(r, token, idx);
          case None =>
            assert first + [] == first;
        }
      case None =>
        assert first + [] == first;
    }
  }

  method CountGenres(m: map<string, GenreEntry>, lower: string -> string, tags: seq<string>)
    returns (r: map<string, GenreEntry>)
    ensures r == CountTags(lower, m, tags)
  {
    r := m;
    for i := 0 to |tags|
      invariant r == CountTags(lower, m, tags[..i])
    {
      assert tags[..i + 1][..i] == tags[..i];
      match NormalizeToken(lower, tags[i])
      case Some(token) =>
        var entry := if token in r then r[token] else GenreEntry(Trim(tags[i]), 0);
        r := r[token := entry.(count := entry.count + 1)];
      case None =>
    }
    assert tags[..|tags|] == tags;
  }

  lemma IndexOfSnoc(front: seq<seq<string>>, tokens: seq<string>, whole: seq<seq<string>>)
    requires whole == front + [tokens]
    ensures IndexOf(whole) == PushAll(IndexOf(front), tokens, |front|)
  {
    assert whole[..|front|] == front;
  }

  lemma CountryPrefix(lower: string -> string, vs: seq<View>, i: nat)
    requires i < |vs|
    ensures CountryTokenLists(lower, vs[..i + 1]) == CountryTokenLists(lower, vs[..i]) + [CountryTokens(lower, vs[i])]
  {
  }

  lemma LanguagePrefix(lower: string -> string, vs: seq<View>, i: nat)
    requires i < |vs|
    ensures LanguageTokenLists(lower, vs[..i + 1])
            == LanguageTokenLists(lower, vs[..i]) + [ListTokens(lower, vs[i].languages)]
  {
  }

  lemma TagPrefix(lower: string -> string, vs: seq<View>, i: nat)
    requires i < |vs|
    ensures TagTokenLists(lower, vs[..i + 1]) == TagTokenLists(lower, vs[..i]) + [ListTokens(lower, vs[i].tags)]
  {
  }

  lemma SearchPrefix(lower: string -> string, vs: seq<View>, i: nat)
    requires i < |vs|
    ensures SearchTexts(lower, vs[..i + 1]) == SearchTexts(lower, vs[..i]) + [SearchText(lower, vs[i])]
  {
  }

  /** The hash maps and vectors that `build` fills. */
  datatype IndexTables = IndexTables(
    countries: set<string>, genreCounts: map<string, GenreEntry>, byCountry: map<string, seq<nat>>,
    byLanguage: map<string, seq<nat>>, byTag: map<string, seq<nat>>, indexById: map<string, nat>,
    searchTexts: seq<string>)

  ghost function TablesOf(lower: string -> string, vs: seq<View>): IndexTables {
    IndexTables(CountryNames(vs), GenreCounts(lower, vs), IndexOf(CountryTokenLists(lower, vs)),
           IndexOf(LanguageTokenLists(lower, vs)), IndexOf(TagTokenLists(lower, vs)), IdIndex(vs),
           SearchTexts(lower, vs))
  }

  ghost function AddView(lower: string -> string, t: IndexTables, v: View, i: nat): IndexTables {
    IndexTables(
      t.countries + (match CountryName(v) case Some(n) => {n} case None => {}),
      CountTags(lower, t.genreCounts, v.tags),
      PushAll(t.byCountry, CountryTokens(lower, v), i),
      PushAll(t.byLanguage, ListTokens(lower, v.languages), i),
      PushAll(t.byTag, ListTokens(lower, v.tags), i),
      t.indexById[v.id := i],
      t.searchTexts + [SearchText(lower, v)])
  }

  lemma TablesStep(lower: string -> string, vs: seq<View>, i: nat)
    requires i < |vs|
    ensures TablesOf(lower, vs[..i + 1]) == AddView(lower, TablesOf(lower, vs[..i]), vs[i], i)
  {
    CountryPrefix(lower, vs, i);
    LanguagePrefix(lower, vs, i);
    TagPrefix(lower, vs, i);
    SearchPrefix(lower, vs, i);
    var front := vs[..i];
    assert vs[..i + 1][..i] == front;
    IndexOfSnoc(CountryTokenLists(lower, front), CountryTokens(lower, vs[i]), CountryTokenLists(lower, vs[..i + 1]));
    IndexOfSnoc(LanguageTokenLists(lower, front), ListTokens(lower, vs[i].languages),
                LanguageTokenLists(lower, vs[..i + 1]));
    IndexOfSnoc(TagTokenLists(lower, front), ListTokens(lower, vs[i].tags), TagTokenLists(lower, vs[..i + 1]));
  }

  /** The body of the indexing loop. */
  method AddStation(lower: string -> string, t: IndexTables, s: Station, i: nat) returns (r: IndexTables)
    ensures r == AddView(lower, t, ViewOf(s), i)
  {
    var countries := t.countries;
    match CountryName(ViewOf(s)) {
      case Some(name) => countries := countries + {name};
      case None =>
    }
    var byCountry := PushCountry(t.byCountry, lower, s, i);
    var byLanguage := PushTokens(t.byLanguage, lower, s.languages, i);
    var byTag := PushTokens(t.byTag, lower, s.tags, i);
    var genreCounts := CountGenres(t.genreCounts, lower, s.tags);
    r := IndexTables(countries, genreCounts, byCountry, byLanguage, byTag, t.indexById[s.id := i],
                t.searchTexts + [SearchText(lower, ViewOf(s))]);
  }

  /** `ProcessedStations::build`. */
  method Build(lower: string -> string, stations: seq<Station>) returns (p: Processed)
    ensures p == Index(lower, Views(stations))
  {
    ghost var vs := Views(stations);
    var t := IndexTables({}, map[], map[], map[], map[], map[], []);
    for i := 0 to |stations|
      invariant t == TablesOf(lower, vs[..i])
    {
      TablesStep(lower, vs, i);
      t := AddStation(lower, t, stations[i], i);
    }
    assert vs[..|vs|] == vs;

    var countryOrder := Iterate(t.countries);
    SortedNamesUnique(countryOrder, Enumeration(t.countries));
    var genreOrder := Iterate(t.genreCounts.Keys);
    GenreListUnique(t.genreCounts, genreOrder, Enumeration(t.genreCounts.Keys));
    p := Processed(|stations|, SortBy(countryOrder, NameOrder()), GenreList(t.genreCounts, genreOrder),
                   t.searchTexts, t.indexById, t.byCountry, t.byLanguage, t.byTag);
  }

  // ----- What an index list contains -----

  /** Position `i`, once for every time the station there yields the token. */
  function Positions(lists: seq<seq<string>>, token: string): seq<nat> {
    if lists == [] then []
    else
      var n := |lists| - 1;
      Positions(lists[..n], token) + seq(multiset(lists[n])[token], _ => n)
  }

  lemma {:induction false} PushAllAt(m: map<string, seq<nat>>, tokens: seq<string>, idx: nat, token: string)
    ensures token in PushAll(m, tokens, idx) <==> token in m || token in tokens
    ensures token in PushAll(m, tokens, idx) ==>
              PushAll(m, tokens, idx)[token]
              == (if token in m then m[token] else []) + seq(multiset(tokens)[token], _ => idx)
  {
    if tokens != [] {
      var t := tokens[..|tokens| - 1];
      PushAllAt(m, t, idx, token);
      assert tokens == t + [tokens[|tokens| - 1]];
      if token !in PushAll(m, t, idx) {
        assert multiset(t)[token] == 0;
      }
    }
  }

  /** A token is indexed exactly when a station yields it, and its list is `Positions`. */
  lemma {:induction false} IndexOfExact(lists: seq<seq<string>>, token: string)
    ensures token in IndexOf(lists) <==> exists i :: 0 <= i < |lists| && token in lists[i]
    ensures token in IndexOf(lists) ==> IndexOf(lists)[token] == Positions(lists, token)
    ensures token !in IndexOf(lists) ==> Positions(lists, token) == []
  {
    if lists != [] {
      var n := |lists| - 1;
      var front := lists[..n];
      IndexOfExact(front, token);
      PushAllAt(IndexOf(front), lists[n], n, token);
      if token in IndexOf(front) {
        var i :| 0 <= i < |front| && token in front[i];
        assert token in lists[i];
      }
      if exists i :: 0 <= i < |lists| && token in lists[i] {
        var i :| 0 <= i < |lists| && token in lists[i];
        assert i < n ==> token in front[i];
      }
    }
  }

  /** Positions come in order, and each as often as its station yields the token. */
  lemma {:induction false} PositionsExact(lists: seq<seq<string>>, token: string)
    ensures forall k :: 0 <= k < |Positions(lists, token)| ==> Positions(lists, token)[k] < |lists|
    ensures forall k, l :: 0 <= k < l < |Positions(lists, token)| ==>
              Positions(lists, token)[k] <= Positions(lists, token)[l]
    ensures forall i :: 0 <= i < |lists| ==>
              multiset(Positions(lists, token))[i] == multiset(lists[i])[token]
  {
    if lists != [] {
      var n := |lists| - 1;
      PositionsExact(lists[..n], token);
      var front, back := Positions(lists[..n], token), seq(multiset(lists[n])[token], _ => n);
      RepeatedCount(n, multiset(lists[n])[token]);
      forall i | 0 <= i < |lists|
        ensures multiset(front + back)[i] == multiset(lists[i])[token]
      {
        if i == n {
          assert n !in front;
        } else {
          assert lists[..n][i] == lists[i];
          assert i !in back;
        }
      }
    }
  }

  lemma {:induction false} RepeatedCount(x: nat, n: nat)
    ensures multiset(seq(n, _ => x))[x] == n
  {
    if n > 0 {
      RepeatedCount(x, n - 1);
      assert seq(n, _ => x) == seq(n - 1, _ => x) + [x];
    }
  }

  /** `station_index`: the last station with the id, which is the only one when ids are distinct. */
  lemma {:induction false} IdIndexExact(vs: seq<View>, id: string)
    ensures id in IdIndex(vs) <==> exists i :: 0 <= i < |vs| && vs[i].id == id
    ensures id in IdIndex(vs) ==>
              var i := IdIndex(vs)[id];
              i < |vs| && vs[i].id == id && forall j :: i < j < |vs| ==> vs[j].id != id
  {
    if vs != [] {
      var n := |vs| - 1;
      IdIndexExact(vs[..n], id);
      if exists i :: 0 <= i < |vs| && vs[i].id == id {
        var i :| 0 <= i < |vs| && vs[i].id == id;
        assert i < n ==> vs[..n][i].id == id;
      }
    }
  }

  // ----- What the genre list contains -----

  lemma TokensSnoc(lower: string -> string, tags: seq<string>, tag: string)
    ensures ListTokens(lower, tags + [tag]) == ListTokens(lower, tags) + TokenSeq(NormalizeToken(lower, tag))
  {
    assert (tags + [tag])[..|tags|] == tags;
  }

  /** How often a token has been counted, and not at all if it is missing. */
  function Counted(m: map<string, GenreEntry>, token: string): nat {
    if token in m then m[token].count else 0
  }

  lemma CountTagAt(lower: string -> string, m: map<string, GenreEntry>, tag: string, token: string)
    ensures var r := CountTag(lower, m, tag);
            && Counted(r, token) == Counted(m, token) + Occurrences(TokenSeq(NormalizeToken(lower, tag)), token)
            && (token in r <==> token in m || NormalizeToken(lower, tag) == Some(token))
            && (token in r ==> (if token in m then r[token].tag == m[token].tag else r[token].tag == Trim(tag)))
  {
  }

  lemma {:induction false} CountTagsAt(lower: string -> string, m: map<string, GenreEntry>, tags: seq<string>, token: string)
    ensures Counted(CountTags(lower, m, tags), token) == Counted(m, token) + Occurrences(ListTokens(lower, tags), token)
  {
    if tags != [] {
      var front, last := tags[..|tags| - 1], tags[|tags| - 1];
      CountTagsAt(lower, m, front, token);
      CountTagAt(lower, CountTags(lower, m, front), last, token);
    }
  }

  /** A genre is counted once for every time a station yields its token: as often as its index list is long. */
  lemma {:induction false} GenreCountExact(lower: string -> string, vs: seq<View>, token: string)
    ensures Counted(GenreCounts(lower, vs), token) == |Positions(TagTokenLists(lower, vs), token)|
  {
    if vs != [] {
      var front, last := vs[..|vs| - 1], vs[|vs| - 1];
      GenreCountExact(lower, front, token);
      CountTagsAt(lower, GenreCounts(lower, front), last.tags, token);
      PositionsSnoc(TagTokenLists(lower, front), ListTokens(lower, last.tags), token);
      TagsSnoc(lower, front, last);
      assert vs == front + [last];
    }
  }

  lemma TagsSnoc(lower: string -> string, vs: seq<View>, v: View)
    ensures TagTokenLists(lower, vs + [v]) == TagTokenLists(lower, vs) + [ListTokens(lower, v.tags)]
  {
  }

  lemma PositionsSnoc(lists: seq<seq<string>>, tokens: seq<string>, token: string)
    ensures |Positions(lists + [tokens], token)| == |Positions(lists, token)| + Occurrences(tokens, token)
  {
    assert (lists + [tokens])[..|lists|] == lists;
  }

  /** Every label is a tag that yields its token, and is counted at least once. */
  ghost predicate Labelled(lower: string -> string, m: map<string, GenreEntry>) {
    forall token :: token in m ==> NormalizeToken(lower, m[token].tag) == Some(token) && m[token].count >= 1
  }

  lemma {:induction false} CountTagsLabelled(lower: string -> string, m: map<string, GenreEntry>, tags: seq<string>)
    requires Labelled(lower, m)
    ensures Labelled(lower, CountTags(lower, m, tags))
  {
    if tags != [] {
      CountTagsLabelled(lower, m, tags[..|tags| - 1]);
      TrimTrimmed(Trim(tags[|tags| - 1]));
    }
  }

  lemma {:induction false} GenresLabelled(lower: string -> string, vs: seq<View>)
    ensures Labelled(lower, GenreCounts(lower, vs))
  {
    if vs != [] {
      GenresLabelled(lower, vs[..|vs| - 1]);
      CountTagsLabelled(lower, GenreCounts(lower, vs[..|vs| - 1]), vs[|vs| - 1].tags);
    }
  }

  /** More frequent genres come first, equally frequent ones by label. */
  predicate Ranked(entries: seq<GenreEntry>) {
    forall i, j :: 0 <= i < j < |entries| ==>
      entries[i].count > entries[j].count || (entries[i].count == entries[j].count && StrLe(entries[i].tag, entries[j].tag))
  }

  /** The genre list shows the labels of the counted genres by rank, at most two hundred. */
  lemma GenresRanked(lower: string -> string, vs: seq<View>) returns (entries: seq<GenreEntry>)
    ensures Ranked(entries) && Index(lower, vs).genres == Take(Labels(entries), 200)
    ensures multiset(entries) == multiset(Values(GenreCounts(lower, vs), Enumeration(GenreCounts(lower, vs).Keys)))
  {
    var m := GenreCounts(lower, vs);
    var values := Values(m, Enumeration(m.Keys));
    entries := SortBy(values, GenreOrder());
    GenreOrderLaws(entries);
    SortBySorted(values, GenreOrder());
  }

  // ----- What the country list contains -----

  ghost predicate NamesCountry(vs: seq<View>, name: string) {
    exists i :: 0 <= i < |vs| && vs[i].country.Some? && Trim(vs[i].country.value) == name
  }

  lemma {:induction false} CountryNamesExact(vs: seq<View>, name: string)
    ensures name in CountryNames(vs) <==> name != "" && NamesCountry(vs, name)
  {
    if vs != [] {
      var n := |vs| - 1;
      CountryNamesExact(vs[..n], name);
      if NamesCountry(vs[..n], name) {
        var i :| 0 <= i < n && vs[..n][i].country.Some? && Trim(vs[..n][i].country.value) == name;
        assert vs[i].country.Some? && Trim(vs[i].country.value) == name;
      }
      if NamesCountry(vs, name) {
        var i :| 0 <= i < |vs| && vs[i].country.Some? && Trim(vs[i].country.value) == name;
        assert i < n ==> vs[..n][i].country.Some? && Trim(vs[..n][i].country.value) == name;
      }
    }
  }

  /** The country list holds exactly the trimmed country names, in order. */
  lemma CountriesListed(lower: string -> string, vs: seq<View>, name: string)
    ensures name in Index(lower, vs).countries <==> name != "" && NamesCountry(vs, name)
    ensures var r := Index(lower, vs).countries;
            forall i, j :: 0 <= i < j < |r| ==> StrLe(r[i], r[j])
  {
    CountryNamesExact(vs, name);
    ListedExactly(CountryNames(vs), name);
  }

  lemma ListedExactly(names: set<string>, name: string)
    ensures var r := SortBy(Enumeration(names), NameOrder());
            (name in r <==> name in names) && forall i, j :: 0 <= i < j < |r| ==> StrLe(r[i], r[j])
  {
    var r := SortBy(Enumeration(names), NameOrder());
    SameElements(Enumeration(names), r);
    NameOrderLaws([]);
    SortBySorted(Enumeration(names), NameOrder());
    assert Sorted(r, NameOrder());
    forall i, j | 0 <= i < j < |r| ensures StrLe(r[i], r[j]) {
      assert NameOrder()(r[i], r[j]);
    }
  }
}
