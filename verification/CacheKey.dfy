/**
 The gateway's canonical cache key (`build_cache_key` of
 api-gateway-service/src/routing.rs). Query strings are modelled by their UTF-8
 bytes, one character below 256 per byte, which is the granularity at which the
 service sorts, splits and percent-encodes them.
 */
module CacheKey {
  import opened Wrappers
  import opened Sequences
  import opened Text

  datatype Param = Param(key: string, value: string)

  datatype Target = Target(service: string, path: string)

  predicate IsBytes(s: string) {
    forall i :: 0 <= i < |s| ==> s[i] as int < 256
  }

  // ----- Percent encoding (RFC 3986, sections 2.1 and 2.3) -----

  predicate Unreserved(c: char) {
    'a' <= c <= 'z' || 'A' <= c <= 'Z' || '0' <= c <= '9' || c == '-' || c == '_' || c == '.' || c == '~'
  }

  function HexDigit(d: nat): char
    requires d < 16
  {
    if d < 10 then ('0' as int + d) as char else ('A' as int + d - 10) as char
  }

  function HexValue(c: char): nat {
    if '0' <= c <= '9' then c as int - '0' as int
    else if 'A' <= c <= 'F' then c as int - 'A' as int + 10
    else 0
  }

  function EncodeByte(c: char): string
    requires c as int < 256
  {
    if Unreserved(c) then [c] else ['%', HexDigit(c as int / 16), HexDigit(c as int % 16)]
  }

  /** `urlencoding::encode`. */
  function Encode(s: string): (r: string)
    requires IsBytes(s)
    ensures forall x :: x in r ==> Unreserved(x) || x == '%'
  {
    if s == "" then "" else EncodeByte(s[0]) + Encode(s[1..])
  }

  function Decode(s: string): string {
    if s == "" then ""
    else if s[0] == '%' && |s| >= 3 then
      var n := HexValue(s[1]) * 16 + HexValue(s[2]);
      [if n < 256 then n as char else '%'] + Decode(s[3..])
    else [s[0]] + Decode(s[1..])
  }

  /** Encoding loses nothing. */
  lemma {:induction false} DecodeEncode(s: string)
    requires IsBytes(s)
    ensures Decode(Encode(s)) == s
  {
    if s != "" {
      DecodeEncode(s[1..]);
      var c, rest := s[0], Encode(s[1..]);
      assert s == [c] + s[1..];
      if Unreserved(c) {
        assert ([c] + rest)[1..] == rest;
      } else {
        var e := ['%', HexDigit(c as int / 16), HexDigit(c as int % 16)];
        assert (e + rest)[3..] == rest;
      }
    }
  }

  // ----- Parameters -----

  /** `splitn(2, '=')`: everything behind the first equals sign is the value. */
  function ParsePair(pair: string): Param {
    if pair == "" then Param("", "")
    else if pair[0] == '=' then Param("", pair[1..])
    else
      var rest := ParsePair(pair[1..]);
      Param([pair[0]] + rest.key, rest.value)
  }

  function NonEmpty(): string -> bool {
    (s: string) => s != ""
  }

  /** The parameters of a query: empty pairs dropped, a missing value read as empty. */
  function Params(query: string): seq<Param> {
    Map(Filter(Split(query, '&'), NonEmpty()), ParsePair)
  }

  function Named(name: string): Param -> bool {
    (p: Param) => p.key == name
  }

  /** The values a name carries, in order. */
  function ValuesOf(params: seq<Param>, name: string): seq<string> {
    Map(Filter(params, Named(name)), (p: Param) => p.value)
  }

  function ByKey(): (Param, Param) -> bool {
    (a: Param, b: Param) => StrLe(a.key, b.key)
  }

  predicate BytesParam(p: Param) {
    IsBytes(p.key) && IsBytes(p.value)
  }

  predicate BytesParams(params: seq<Param>) {
    forall i :: 0 <= i < |params| ==> BytesParam(params[i])
  }

  function Pair(p: Param): string
    requires BytesParam(p)
  {
    Encode(p.key) + "=" + Encode(p.value)
  }

  function Pairs(params: seq<Param>): (r: seq<string>)
    requires BytesParams(params)
    ensures |r| == |params|
    ensures forall i :: 0 <= i < |r| ==> r[i] == Pair(params[i])
  {
    seq(|params|, i requires 0 <= i < |params| => Pair(params[i]))
  }

  function Serialized(params: seq<Param>): string
    requires BytesParams(params)
  {
    Join(Pairs(params), '&')
  }

  lemma {:induction false} ParsePairBytes(pair: string)
    requires IsBytes(pair)
    ensures BytesParam(ParsePair(pair))
  {
    if pair != "" && pair[0] != '=' {
      ParsePairBytes(pair[1..]);
    }
  }

  lemma {:induction false} SplitBytes(s: string, c: char)
    requires IsBytes(s)
    ensures forall i :: 0 <= i < |Split(s, c)| ==> IsBytes(Split(s, c)[i])
  {
    if s != "" {
      SplitBytes(s[1..], c);
      var rest := Split(s[1..], c);
      forall i | 0 <= i < |Split(s, c)| ensures IsBytes(Split(s, c)[i]) {
        if s[0] == c {
          assert i > 0 ==> Split(s, c)[i] == rest[i - 1];
        } else {
          assert i > 0 ==> Split(s, c)[i] == rest[i];
          assert IsBytes(rest[0]);
        }
      }
    }
  }

  lemma ParamsBytes(query: string)
    requires IsBytes(query)
    ensures BytesParams(Params(query))
  {
    SplitBytes(query, '&');
    var pairs := Filter(Split(query, '&'), NonEmpty());
    forall i | 0 <= i < |pairs| ensures BytesParam(ParsePair(pairs[i])) {
      assert pairs[i] in Split(query, '&');
      ParsePairBytes(pairs[i]);
    }
  }

  lemma SortedBytes(params: seq<Param>)
    requires BytesParams(params)
    ensures BytesParams(SortBy(params, ByKey()))
  {
    var sorted := SortBy(params, ByKey());
    SameElements(params, sorted);
    forall i | 0 <= i < |sorted| ensures BytesParam(sorted[i]) {
      assert sorted[i] in params;
    }
  }

  /** `build_cache_key`. */
  function BuildCacheKey(target: Target, query: Option<string>): string
    requires query.Some? ==> IsBytes(query.value)
  {
    var raw := match query case Some(q) => q case None => "";
    ParamsBytes(raw);
    SortedBytes(Params(raw));
    var serialized := Serialized(SortBy(Params(raw), ByKey()));
    if serialized == "" then target.service + ":" + target.path
    else target.service + ":" + target.path + "?" + serialized
  }

  // ----- The serialised form is unambiguous -----

  lemma EncodeInjective(a: string, b: string)
    requires IsBytes(a) && IsBytes(b) && Encode(a) == Encode(b)
    ensures a == b
  {
    DecodeEncode(a);
    DecodeEncode(b);
  }

  lemma PairInjective(p: Param, q: Param)
    requires BytesParam(p) && BytesParam(q) && Pair(p) == Pair(q)
    ensures p == q
  {
    assert Pair(p) == Encode(p.key) + ['='] + Encode(p.value);
    assert Pair(q) == Encode(q.key) + ['='] + Encode(q.value);
    LastSeparatorUnique(Encode(p.key), Encode(p.value), Encode(q.key), Encode(q.value), '=');
    EncodeInjective(p.key, q.key);
    EncodeInjective(p.value, q.value);
  }

  lemma PairFacts(p: Param)
    requires BytesParam(p)
    ensures '&' !in Pair(p) && Pair(p) != ""
  {
    assert Pair(p) == Encode(p.key) + "=" + Encode(p.value);
  }

  lemma PairsSplitBack(params: seq<Param>)
    requires BytesParams(params) && params != []
    ensures Split(Serialized(params), '&') == Pairs(params) && Serialized(params) != ""
  {
    var pairs := Pairs(params);
    forall s | s in pairs ensures '&' !in s {
      var i :| 0 <= i < |params| && pairs[i] == s;
      PairFacts(params[i]);
    }
    SplitJoin(pairs, '&');
    PairFacts(params[0]);
    assert pairs[0] != "";
    SplitNoSeparator("", '&');
  }

  lemma SerializedInjective(a: seq<Param>, b: seq<Param>)
    requires BytesParams(a) && BytesParams(b) && Serialized(a) == Serialized(b)
    ensures a == b
  {
    if a != [] {
      PairsSplitBack(a);
    }
    if b != [] {
      PairsSplitBack(b);
    }
    assert Serialized([]) == "";
    if a != [] && b != [] {
      assert |a| == |Pairs(a)| == |b|;
      forall i | 0 <= i < |a| ensures a[i] == b[i] {
        assert Pairs(a)[i] == Pairs(b)[i];
        PairInjective(a[i], b[i]);
      }
    }
  }

  // ----- Stable sorting keeps, and is determined by, each name's values -----

  lemma {:induction false} InsertKeepsNamed(x: Param, s: seq<Param>, name: string)
    ensures Filter(Insert(x, s, ByKey()), Named(name)) == Filter([x], Named(name)) + Filter(s, Named(name))
  {
    if s == [] || ByKey()(x, s[0]) {
      FilterConcat([x], s, Named(name));
    } else {
      InsertKeepsNamed(x, s[1..], name);
      StrLeTotal(x.key, s[0].key);
      FilterConcat([s[0]], Insert(x, s[1..], ByKey()), Named(name));
      FilterConcat([s[0]], s[1..], Named(name));
      assert s == [s[0]] + s[1..];
      assert Filter([x], Named(name)) == [] || Filter([s[0]], Named(name)) == [];
    }
  }

  lemma {:induction false} SortKeepsNamed(s: seq<Param>, name: string)
    ensures Filter(SortBy(s, ByKey()), Named(name)) == Filter(s, Named(name))
  {
    if s != [] {
      SortKeepsNamed(s[1..], name);
      InsertKeepsNamed(s[0], SortBy(s[1..], ByKey()), name);
      FilterConcat([s[0]], s[1..], Named(name));
      assert s == [s[0]] + s[1..];
    }
  }

  lemma ByKeyIsTotalPreorder()
    ensures TotalPreorder(ByKey())
  {
    forall x: Param, y: Param ensures ByKey()(x, y) || ByKey()(y, x) {
      StrLeTotal(x.key, y.key);
    }
    forall x: Param, y: Param, z: Param | ByKey()(x, y) && ByKey()(y, z) ensures ByKey()(x, z) {
      StrLeTransitive(x.key, y.key, z.key);
    }
  }

  lemma HeadKeyLeast(a: seq<Param>, b: seq<Param>)
    requires a != [] && Sorted(b, ByKey()) && Filter(a, Named(a[0].key)) == Filter(b, Named(a[0].key))
    ensures b != [] && StrLe(b[0].key, a[0].key)
  {
    var name := a[0].key;
    assert a[0] in a && Named(name)(a[0]);
    assert a[0] in Filter(b, Named(name));
    SortedHeadIsLeast(b, a[0], ByKey());
    StrLeTotal(name, name);
  }

  lemma HeadOfNamed(a: seq<Param>)
    requires a != []
    ensures Filter(a, Named(a[0].key)) == [a[0]] + Filter(a[1..], Named(a[0].key))
  {
    FilterConcat([a[0]], a[1..], Named(a[0].key));
    assert a == [a[0]] + a[1..];
  }

  lemma SameHead(a: seq<Param>, b: seq<Param>)
    requires a != [] && b != []
    requires Sorted(a, ByKey()) && Sorted(b, ByKey())
    requires forall name :: Filter(a, Named(name)) == Filter(b, Named(name))
    ensures a[0] == b[0]
  {
    HeadKeyLeast(a, b);
    HeadKeyLeast(b, a);
    StrLeAntisymmetric(a[0].key, b[0].key);
    HeadOfNamed(a);
    HeadOfNamed(b);
    assert Filter(a, Named(a[0].key))[0] == Filter(b, Named(a[0].key))[0];
  }

  lemma SameTail(a: seq<Param>, b: seq<Param>, name: string)
    requires a != [] && b != [] && a[0] == b[0]
    requires Filter(a, Named(name)) == Filter(b, Named(name))
    ensures Filter(a[1..], Named(name)) == Filter(b[1..], Named(name))
  {
    FilterConcat([a[0]], a[1..], Named(name));
    FilterConcat([b[0]], b[1..], Named(name));
    assert a == [a[0]] + a[1..] && b == [b[0]] + b[1..];
    var head := Filter([a[0]], Named(name));
    assert Filter(a[1..], Named(name)) == (head + Filter(a[1..], Named(name)))[|head|..];
    assert Filter(b[1..], Named(name)) == (head + Filter(b[1..], Named(name)))[|head|..];
  }

  /** A list sorted by name is determined by what each name carries. */
  lemma {:induction false} SortedDetermined(a: seq<Param>, b: seq<Param>)
    requires Sorted(a, ByKey()) && Sorted(b, ByKey())
    requires forall name :: Filter(a, Named(name)) == Filter(b, Named(name))
    ensures a == b
    decreases |a|
  {
    if a != [] {
      HeadKeyLeast(a, b);
      SameHead(a, b);
      forall name ensures Filter(a[1..], Named(name)) == Filter(b[1..], Named(name)) {
        SameTail(a, b, name);
      }
      SortedDetermined(a[1..], b[1..]);
      assert a == [a[0]] + a[1..] && b == [b[0]] + b[1..];
    } else if b != [] {
      HeadKeyLeast(b, a);
    }
  }

  // ----- The law -----

  /** Every name carries the same values in the same order. */
  ghost predicate SameParameters(a: string, b: string) {
    forall name :: ValuesOf(Params(a), name) == ValuesOf(Params(b), name)
  }

  lemma SameValuesSameNamed(a: seq<Param>, b: seq<Param>, name: string)
    ensures ValuesOf(a, name) == ValuesOf(b, name) <==> Filter(a, Named(name)) == Filter(b, Named(name))
  {
    var fa, fb := Filter(a, Named(name)), Filter(b, Named(name));
    if ValuesOf(a, name) == ValuesOf(b, name) {
      assert |fa| == |ValuesOf(a, name)| == |fb|;
      forall i | 0 <= i < |fa| ensures fa[i] == fb[i] {
        assert fa[i] in fa && fb[i] in fb;
        assert ValuesOf(a, name)[i] == fa[i].value && ValuesOf(b, name)[i] == fb[i].value;
      }
    }
  }

  /** Two queries for one target share a cache key exactly when they have the same parameters. */
  lemma CacheKeyIsCanonical(target: Target, a: string, b: string)
    requires IsBytes(a) && IsBytes(b)
    ensures BuildCacheKey(target, Some(a)) == BuildCacheKey(target, Some(b)) <==> SameParameters(a, b)
  {
    var pa, pb := Params(a), Params(b);
    var sa, sb := SortBy(pa, ByKey()), SortBy(pb, ByKey());
    ParamsBytes(a);
    ParamsBytes(b);
    SortedBytes(pa);
    SortedBytes(pb);
    KeySuffix(target, a, b);
    if Serialized(sa) == Serialized(sb) {
      SerializedInjective(sa, sb);
      forall name ensures ValuesOf(pa, name) == ValuesOf(pb, name) {
        SortKeepsNamed(pa, name);
        SortKeepsNamed(pb, name);
        SameValuesSameNamed(pa, pb, name);
      }
    }
    if SameParameters(a, b) {
      ByKeyIsTotalPreorder();
      SortBySorted(pa, ByKey());
      SortBySorted(pb, ByKey());
      forall name ensures Filter(sa, Named(name)) == Filter(sb, Named(name)) {
        SortKeepsNamed(pa, name);
        SortKeepsNamed(pb, name);
        SameValuesSameNamed(pa, pb, name);
      }
      SortedDetermined(sa, sb);
    }
  }

  lemma KeySuffix(target: Target, a: string, b: string)
    requires IsBytes(a) && IsBytes(b)
    requires BytesParams(SortBy(Params(a), ByKey())) && BytesParams(SortBy(Params(b), ByKey()))
    ensures BuildCacheKey(target, Some(a)) == BuildCacheKey(target, Some(b))
            <==> Serialized(SortBy(Params(a), ByKey())) == Serialized(SortBy(Params(b), ByKey()))
  {
    var x, y := Serialized(SortBy(Params(a), ByKey())), Serialized(SortBy(Params(b), ByKey()));
    var prefix := target.service + ":" + target.path;
    if x != "" && y != "" && prefix + "?" + x == prefix + "?" + y {
      assert x == (prefix + "?" + x)[|prefix| + 1..] == (prefix + "?" + y)[|prefix| + 1..] == y;
    }
    assert x != "" ==> |prefix + "?" + x| > |prefix|;
    assert y != "" ==> |prefix + "?" + y| > |prefix|;
  }

  // ----- Keys of different targets -----

  /** The service and path of a target, as the key starts with them. */
  function Prefix(target: Target): string {
    target.service + ":" + target.path
  }

  predicate Tellable(target: Target) {
    ':' !in target.service && '?' !in target.service && '?' !in target.path
  }

  lemma ColonIsFirst(a: string, x: string, b: string, y: string)
    requires ':' !in a && ':' !in b && a + ":" + x == b + ":" + y
    ensures |a| <= |b|
  {
    var k := b + ":" + y;
    assert k[|b|] == ':';
    assert forall i :: 0 <= i < |a| ==> (a + ":" + x)[i] == a[i];
    assert forall i :: 0 <= i < |a| ==> k[i] != ':';
  }

  lemma FirstColon(a: string, x: string, b: string, y: string)
    requires ':' !in a && ':' !in b && a + ":" + x == b + ":" + y
    ensures a == b && x == y
  {
    ColonIsFirst(a, x, b, y);
    ColonIsFirst(b, y, a, x);
    var k, l := a + ":" + x, b + ":" + y;
    assert a == k[..|a|] && b == l[..|b|] && x == k[|a| + 1..] && y == l[|b| + 1..];
  }

  lemma SerializedHasNoMark(params: seq<Param>)
    requires BytesParams(params)
    ensures '?' !in Serialized(params)
  {
    var pairs := Pairs(params);
    forall p | p in pairs ensures '?' !in p {
      var i :| 0 <= i < |params| && pairs[i] == p;
      assert p == Encode(params[i].key) + "=" + Encode(params[i].value);
    }
    JoinContains(pairs, '&', '?');
  }

  lemma KeyParts(a: string, x: string, b: string, y: string)
    requires '?' !in a && '?' !in b && '?' !in x && '?' !in y
    requires (if x == "" then a else a + "?" + x) == (if y == "" then b else b + "?" + y)
    ensures a == b && x == y
  {
    var k, l := if x == "" then a else a + "?" + x, if y == "" then b else b + "?" + y;
    assert x != "" ==> k[|a|] == '?';
    assert y != "" ==> l[|b|] == '?';
    if x != "" && y != "" {
      assert a + ['?'] + x == b + ['?'] + y;
      LastSeparatorUnique(a, x, b, y, '?');
    }
  }

  /** Keys of any two requests agree exactly when service, path and parameters do; no query is an empty query. */
  lemma KeysTellApart(t: Target, a: Option<string>, u: Target, b: Option<string>)
    requires Tellable(t) && Tellable(u) && (a.Some? ==> IsBytes(a.value)) && (b.Some? ==> IsBytes(b.value))
    ensures BuildCacheKey(t, a) == BuildCacheKey(u, b)
            <==> t == u && SameParameters(if a.Some? then a.value else "", if b.Some? then b.value else "")
  {
    var p, q := if a.Some? then a.value else "", if b.Some? then b.value else "";
    CacheKeyIsCanonical(t, p, q);
    assert BuildCacheKey(t, a) == BuildCacheKey(t, Some(p)) && BuildCacheKey(u, b) == BuildCacheKey(u, Some(q));
    if BuildCacheKey(t, a) == BuildCacheKey(u, b) {
      SameKeySameTarget(t, p, u, q);
    }
  }

  lemma SameKeySameTarget(t: Target, p: string, u: Target, q: string)
    requires Tellable(t) && Tellable(u) && IsBytes(p) && IsBytes(q)
    requires BuildCacheKey(t, Some(p)) == BuildCacheKey(u, Some(q))
    ensures t == u
  {
    ParamsBytes(p);
    ParamsBytes(q);
    SortedBytes(Params(p));
    SortedBytes(Params(q));
    var x, y := Serialized(SortBy(Params(p), ByKey())), Serialized(SortBy(Params(q), ByKey()));
    SerializedHasNoMark(SortBy(Params(p), ByKey()));
    SerializedHasNoMark(SortBy(Params(q), ByKey()));
    KeyParts(Prefix(t), x, Prefix(u), y);
    FirstColon(t.service, t.path, u.service, u.path);
  }
}
