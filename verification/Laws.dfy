/**
 The laws asked of the hasher, of lower-casing and of the database's collation can
 be met: for each there is something that obeys it.
 */
module Laws {
  import opened Wrappers
  import opened Sequences
  import opened Text
  import opened Stations
  import opened Fingerprint
  import opened StationIndex
  import opened StationPaging
  import opened StationQuery

  // ----- Escaping keeps separators out of a text and loses nothing -----

  /** No colon, newline, semicolon or comma. */
  predicate Plain(s: string) {
    forall i :: 0 <= i < |s| ==> s[i] != ':' && s[i] != '\n' && s[i] != ';' && s[i] != ','
  }

  lemma PlainConcat(a: string, b: string)
    requires Plain(a) && Plain(b)
    ensures Plain(a + b)
  {
  }

  function EscapeChar(c: char): (r: string)
    ensures Plain(r)
  {
    if c == '%' then "%0"
    else if c == ':' then "%1"
    else if c == '\n' then "%2"
    else if c == ';' then "%3"
    else if c == ',' then "%4"
    else [c]
  }

  function Escape(s: string): (r: string)
    ensures Plain(r)
  {
    if s == "" then ""
    else
      PlainConcat(EscapeChar(s[0]), Escape(s[1..]));
      EscapeChar(s[0]) + Escape(s[1..])
  }

  function UnescapeCode(c: char): char {
    if c == '0' then '%' else if c == '1' then ':' else if c == '2' then '\n' else if c == '3' then ';' else ','
  }

  function Unescape(s: string): string {
    if s == "" then ""
    else if s[0] == '%' && |s| >= 2 then [UnescapeCode(s[1])] + Unescape(s[2..])
    else [s[0]] + Unescape(s[1..])
  }

  lemma UnescapeStep(c: char, rest: string)
    ensures Unescape(EscapeChar(c) + rest) == [c] + Unescape(rest)
  {
    var e := EscapeChar(c);
    assert (e + rest)[|e|..] == rest;
  }

  lemma {:induction false} UnescapeEscape(s: string)
    ensures Unescape(Escape(s)) == s
  {
    if s != "" {
      UnescapeEscape(s[1..]);
      UnescapeStep(s[0], Escape(s[1..]));
      assert s == [s[0]] + s[1..];
    }
  }

  lemma EscapeInjective(a: string, b: string)
    requires Escape(a) == Escape(b)
    ensures a == b
  {
    UnescapeEscape(a);
    UnescapeEscape(b);
  }

  // ----- The parts of a record -----

  function OptText(v: Option<string>): (r: string)
    ensures Plain(r)
  {
    match v case Some(s) => "+" + Escape(s) case None => ""
  }

  lemma OptTextInjective(a: Option<string>, b: Option<string>)
    requires OptText(a) == OptText(b)
    ensures a == b
  {
    if a.Some? && b.Some? {
      assert Escape(a.value) == OptText(a)[1..] == OptText(b)[1..] == Escape(b.value);
      EscapeInjective(a.value, b.value);
    }
  }

  function IntText(n: int): (r: string)
    ensures Plain(r) && r != ""
  {
    if n < 0 then "-" + Decimal(0 - n) else Decimal(n)
  }

  lemma IntTextInjective(a: int, b: int)
    requires IntText(a) == IntText(b)
    ensures a == b
  {
    assert IsDigit(Decimal(if a < 0 then 0 - a else a)[0]);
    assert IsDigit(Decimal(if b < 0 then 0 - b else b)[0]);
    if a < 0 && b < 0 {
      assert Decimal(0 - a) == IntText(a)[1..] == IntText(b)[1..] == Decimal(0 - b);
    }
  }

  function OptIntText(v: Option<int>): (r: string)
    ensures Plain(r)
  {
    match v case Some(n) => IntText(n) case None => ""
  }

  lemma OptIntTextInjective(a: Option<int>, b: Option<int>)
    requires OptIntText(a) == OptIntText(b)
    ensures a == b
  {
    if a.Some? && b.Some? {
      IntTextInjective(a.value, b.value);
    }
  }

  function BoolText(b: bool): (r: string)
    ensures Plain(r)
  {
    if b then "1" else "0"
  }

  function Lat(c: Option<Coordinates>): Option<int> {
    match c case Some(v) => Some(v.lat) case None => None
  }

  function Lon(c: Option<Coordinates>): Option<int> {
    match c case Some(v) => Some(v.lon) case None => None
  }

  function ListText(values: seq<string>): (r: string)
    ensures Plain(r)
  {
    Escape(Lines(Map(values, Escape), ','))
  }

  lemma ListTextInjective(a: seq<string>, b: seq<string>)
    requires ListText(a) == ListText(b)
    ensures a == b
  {
    var ea, eb := Map(a, Escape), Map(b, Escape);
    EscapeInjective(Lines(ea, ','), Lines(eb, ','));
    LinesInjective(ea, eb, ',');
    assert |a| == |ea| == |b|;
    forall i | 0 <= i < |a| ensures a[i] == b[i] {
      assert ea[i] == eb[i];
      EscapeInjective(a[i], b[i]);
    }
  }

  // ----- The record -----

  predicate AllPlain(parts: seq<string>) {
    forall i :: 0 <= i < |parts| ==> Plain(parts[i])
  }

  function Texts(s: Station): (r: seq<string>)
    ensures AllPlain(r) && |r| == 8
  {
    [Escape(s.id), Escape(s.name), Escape(s.streamUrl), OptText(s.homepage), OptText(s.favicon), OptText(s.country),
     OptText(s.countryCode), OptText(s.state)]
  }

  function Details(s: Station): (r: seq<string>)
    ensures AllPlain(r) && |r| == 8
  {
    [ListText(s.languages), ListText(s.tags), OptIntText(Lat(s.coordinates)), OptIntText(Lon(s.coordinates)),
     OptIntText(s.bitrate), OptText(s.codec), BoolText(s.hls), BoolText(s.isOnline)]
  }

  function Counts(s: Station): (r: seq<string>)
    ensures AllPlain(r) && |r| == 5
  {
    [OptText(s.lastCheckedAt), OptText(s.lastChangedAt), IntText(s.clickCount), IntText(s.clickTrend), IntText(s.votes)]
  }

  function Fields(s: Station): (r: seq<string>)
    ensures AllPlain(r)
  {
    Texts(s) + Details(s) + Counts(s)
  }

  function Serialize(s: Station): string {
    Lines(Fields(s), ';')
  }

  lemma {:induction false} LinesAvoid(parts: seq<string>, c: char, x: char)
    requires x != c && forall i :: 0 <= i < |parts| ==> x !in parts[i]
    ensures x !in Lines(parts, c)
  {
    if parts != [] {
      LinesAvoid(parts[1..], c, x);
    }
  }

  lemma SerializeNewlineFree(s: Station)
    ensures '\n' !in Serialize(s)
  {
    LinesAvoid(Fields(s), ';', '\n');
  }

  lemma TextsInjective(s: Station, t: Station)
    requires Texts(s) == Texts(t)
    ensures s.id == t.id && s.name == t.name && s.streamUrl == t.streamUrl
    ensures s.homepage == t.homepage && s.favicon == t.favicon && s.country == t.country
    ensures s.countryCode == t.countryCode && s.state == t.state
  {
    var a, b := Texts(s), Texts(t);
    assert a[0] == b[0] && a[1] == b[1] && a[2] == b[2];
    assert a[3] == b[3] && a[4] == b[4] && a[5] == b[5] && a[6] == b[6] && a[7] == b[7];
    EscapeInjective(s.id, t.id);
    EscapeInjective(s.name, t.name);
    EscapeInjective(s.streamUrl, t.streamUrl);
    OptTextInjective(s.homepage, t.homepage);
    OptTextInjective(s.favicon, t.favicon);
    OptTextInjective(s.country, t.country);
    OptTextInjective(s.countryCode, t.countryCode);
    OptTextInjective(s.state, t.state);
  }

  lemma DetailsInjective(s: Station, t: Station)
    requires Details(s) == Details(t)
    ensures s.languages == t.languages && s.tags == t.tags && s.coordinates == t.coordinates
    ensures s.bitrate == t.bitrate && s.codec == t.codec && s.hls == t.hls && s.isOnline == t.isOnline
  {
    var a, b := Details(s), Details(t);
    assert a[0] == b[0] && a[1] == b[1] && a[2] == b[2] && a[3] == b[3];
    assert a[4] == b[4] && a[5] == b[5] && a[6] == b[6] && a[7] == b[7];
    ListTextInjective(s.languages, t.languages);
    ListTextInjective(s.tags, t.tags);
    OptIntTextInjective(Lat(s.coordinates), Lat(t.coordinates));
    OptIntTextInjective(Lon(s.coordinates), Lon(t.coordinates));
    OptIntTextInjective(s.bitrate, t.bitrate);
    OptTextInjective(s.codec, t.codec);
  }

  lemma CountsInjective(s: Station, t: Station)
    requires Counts(s) == Counts(t)
    ensures s.lastCheckedAt == t.lastCheckedAt && s.lastChangedAt == t.lastChangedAt
    ensures s.clickCount == t.clickCount && s.clickTrend == t.clickTrend && s.votes == t.votes
  {
    var a, b := Counts(s), Counts(t);
    assert a[0] == b[0] && a[1] == b[1] && a[2] == b[2] && a[3] == b[3] && a[4] == b[4];
    OptTextInjective(s.lastCheckedAt, t.lastCheckedAt);
    OptTextInjective(s.lastChangedAt, t.lastChangedAt);
    IntTextInjective(s.clickCount, t.clickCount);
    IntTextInjective(s.clickTrend, t.clickTrend);
    IntTextInjective(s.votes, t.votes);
  }

  lemma SameFields(s: Station, t: Station)
    requires Serialize(s) == Serialize(t)
    ensures Texts(s) == Texts(t) && Details(s) == Details(t) && Counts(s) == Counts(t)
  {
    var a, b := Fields(s), Fields(t);
    LinesInjective(a, b, ';');
    assert Texts(s) == a[..8] && Details(s) == a[8..16] && Counts(s) == a[16..];
    assert Texts(t) == b[..8] && Details(t) == b[8..16] && Counts(t) == b[16..];
  }

  lemma SerializeInjective(s: Station, t: Station)
    requires Serialize(s) == Serialize(t)
    ensures s == t
  {
    SameFields(s, t);
    TextsInjective(s, t);
    DetailsInjective(s, t);
    CountsInjective(s, t);
  }

  // ----- The laws are met -----

  /** Escaping as the digest and the escaped record as the serialiser are lawful. */
  lemma LawfulHasherExists()
    ensures Lawful(Hasher(Escape, Serialize))
  {
    var h := Hasher(Escape, Serialize);
    forall a: string, b: string | h.digest(a) == h.digest(b) ensures a == b {
      EscapeInjective(a, b);
    }
    forall s: Station, t: Station | h.serialize(s) == h.serialize(t) ensures s == t {
      SerializeInjective(s, t);
    }
    forall s: Station ensures '\n' !in h.serialize(s) {
      SerializeNewlineFree(s);
    }
  }

  function LowerAscii(s: string): (r: string)
    ensures |r| == |s| && forall i :: 0 <= i < |s| ==> r[i] == AsciiLower(s[i])
  {
    Map(s, AsciiLower)
  }

  /** ASCII lower-casing obeys the laws of lower-casing. */
  lemma LowerAsciiIsLawful()
    ensures LowerLaws(LowerAscii)
  {
    forall s: string ensures LowerAscii(LowerAscii(s)) == LowerAscii(s) {
    }
    forall a: string, b: string | EqIgnoreAsciiCase(a, b) ensures LowerAscii(a) == LowerAscii(b) {
    }
    forall s: string | Trimmed(s) && s != "" ensures Trimmed(LowerAscii(s)) && LowerAscii(s) != "" {
    }
  }

  /** The order of `str` is a collation. */
  lemma NameOrderIsCollation()
    ensures TotalPreorder(NameOrder())
  {
    NameOrderLaws([]);
  }
}
