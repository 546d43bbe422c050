/**
 The signed CSRF proof (`build_csrf_proof` and `verify_csrf_proof` of
 api-gateway-service/src/session.rs). The keyed MAC is a function parameter.
 */
module CsrfProof {
  import opened Wrappers
  import opened Text

  type Byte = n: nat | n < 256

  const I64_MAX := 0x7FFF_FFFF_FFFF_FFFF
  const I64_MIN := -0x8000_0000_0000_0000

  datatype Verified = Verified(nonce: string, expiresAt: int)

  // ----- Hexadecimal -----

  /** Lower-case digit. */
  function Digit(d: nat): (c: char)
    requires d < 16
    ensures DigitValue(c) == Some(d)
  {
    if d < 10 then ('0' as int + d) as char else ('a' as int + d - 10) as char
  }

  /** Either case is read. */
  function DigitValue(c: char): Option<nat> {
    if '0' <= c <= '9' then Some(c as int - '0' as int)
    else if 'a' <= c <= 'f' then Some(c as int - 'a' as int + 10)
    else if 'A' <= c <= 'F' then Some(c as int - 'A' as int + 10)
    else None
  }

  predicate HexDigits(s: string) {
    forall i :: 0 <= i < |s| ==> DigitValue(s[i]).Some?
  }

  function Magnitude(s: string): nat
    requires HexDigits(s)
  {
    if s == "" then 0 else Magnitude(s[..|s| - 1]) * 16 + DigitValue(s[|s| - 1]).value
  }

  /** `format!("{:x}", n)`. */
  function Hex(n: nat): (s: string)
    ensures s != "" && HexDigits(s) && Magnitude(s) == n
  {
    if n < 16 then
      var s := [Digit(n)];
      assert Magnitude(s[..0]) == 0;
      s
    else
      var front := Hex(n / 16);
      var s := front + [Digit(n % 16)];
      assert s[..|s| - 1] == front;
      s
  }

  /** `i64::from_str_radix(s, 16)`: an optional sign, then digits, within range. */
  function ParseI64(s: string): Option<int> {
    if s == "" then None
    else
      var signed := s[0] == '+' || s[0] == '-';
      var digits := if signed then s[1..] else s;
      if digits == "" || !HexDigits(digits) then None
      else
        var n := if s[0] == '-' then 0 - Magnitude(digits) else Magnitude(digits);
        if I64_MIN <= n <= I64_MAX then Some(n) else None
  }

  /** `hex::encode`. */
  function EncodeBytes(bytes: seq<Byte>): (s: string)
    ensures HexDigits(s)
  {
    if bytes == [] then ""
    else EncodeBytes(bytes[..|bytes| - 1]) + [Digit(bytes[|bytes| - 1] / 16), Digit(bytes[|bytes| - 1] % 16)]
  }

  /** `hex::decode`: an even number of digits. */
  function DecodeBytes(s: string): Option<seq<Byte>> {
    if s == "" then Some([])
    else if |s| == 1 then None
    else
      var front := DecodeBytes(s[..|s| - 2]);
      var hi, lo := DigitValue(s[|s| - 2]), DigitValue(s[|s| - 1]);
      if front.Some? && hi.Some? && lo.Some? then Some(front.value + [hi.value * 16 + lo.value]) else None
  }

  lemma {:induction false} DecodeEncode(bytes: seq<Byte>)
    ensures DecodeBytes(EncodeBytes(bytes)) == Some(bytes)
  {
    if bytes != [] {
      var front, last := bytes[..|bytes| - 1], bytes[|bytes| - 1];
      DecodeEncode(front);
      var s := EncodeBytes(bytes);
      assert s[..|s| - 2] == EncodeBytes(front);
      assert bytes == front + [last];
    }
  }

  // ----- The proof -----

  function ExpirySegment(expiresAt: int): string {
    if expiresAt > 0 then Hex(expiresAt) else "0"
  }

  /** What the MAC is computed over. */
  function MacPayload(nonce: string, segment: string): string {
    nonce + ":" + segment
  }

  /** `build_csrf_proof`. */
  function Build(mac: string -> seq<Byte>, nonce: string, expiresAt: int): string {
    var segment := ExpirySegment(expiresAt);
    "v1" + "." + segment + "." + nonce + "." + EncodeBytes(mac(MacPayload(nonce, segment)))
  }

  /** `verify_csrf_proof`: the first four dotted fields; the expiry is returned, not checked. */
  function Verify(mac: string -> seq<Byte>, proof: string): Option<Verified> {
    var parts := Split(proof, '.');
    if parts[0] != "v1" || |parts| < 4 then None
    else
      var expiresAt := ParseI64(parts[1]);
      var provided := DecodeBytes(parts[3]);
      if expiresAt.Some? && provided == Some(mac(MacPayload(parts[2], parts[1])))
      then Some(Verified(parts[2], expiresAt.value))
      else None
  }

  // ----- Laws -----

  lemma HexParses(n: nat)
    requires n <= I64_MAX
    ensures ParseI64(Hex(n)) == Some(n)
  {
    assert DigitValue(Hex(n)[0]).Some?;
  }

  lemma HexHas(s: string, c: char)
    requires HexDigits(s) && DigitValue(c).None?
    ensures c !in s
  {
  }

  lemma SegmentFacts(expiresAt: int)
    requires expiresAt <= I64_MAX
    ensures ParseI64(ExpirySegment(expiresAt)) == Some(if expiresAt > 0 then expiresAt else 0)
    ensures HexDigits(ExpirySegment(expiresAt))
  {
    if expiresAt > 0 {
      HexParses(expiresAt);
    } else {
      assert Magnitude("0"[..0]) == 0;
      assert Magnitude("0") == 0;
    }
  }

  lemma SplitFour(a: string, b: string, c: string, d: string)
    requires '.' !in a && '.' !in b && '.' !in d
    ensures Split(a + "." + b + "." + c + "." + d, '.') == [a] + ([b] + (Split(c, '.') + [d]))
  {
    var third := c + ['.'] + d;
    var second := b + ['.'] + third;
    assert a + "." + b + "." + c + "." + d == a + ['.'] + second;
    SplitConcat(a, second, '.');
    SplitConcat(b, third, '.');
    SplitConcat(c, d, '.');
    SplitNoSeparator(a, '.');
    SplitNoSeparator(b, '.');
    SplitNoSeparator(d, '.');
  }

  lemma BuiltFields(mac: string -> seq<Byte>, nonce: string, expiresAt: int)
    requires expiresAt <= I64_MAX
    ensures Split(Build(mac, nonce, expiresAt), '.')
            == ["v1"] + ([ExpirySegment(expiresAt)]
               + (Split(nonce, '.') + [EncodeBytes(mac(MacPayload(nonce, ExpirySegment(expiresAt))))]))
  {
    var segment := ExpirySegment(expiresAt);
    var signature := EncodeBytes(mac(MacPayload(nonce, segment)));
    SegmentFacts(expiresAt);
    HexHas(segment, '.');
    HexHas(signature, '.');
    SplitFour("v1", segment, nonce, signature);
  }

  /** A proof reads back as what it was built from exactly when the nonce has no dot. */
  lemma RoundTripExactly(mac: string -> seq<Byte>, nonce: string, expiresAt: int)
    requires expiresAt <= I64_MAX
    ensures Verify(mac, Build(mac, nonce, expiresAt)) == Some(Verified(nonce, if expiresAt > 0 then expiresAt else 0))
            <==> '.' !in nonce
  {
    BuiltFields(mac, nonce, expiresAt);
    SegmentFacts(expiresAt);
    var parts := Split(Build(mac, nonce, expiresAt), '.');
    if '.' !in nonce {
      SplitNoSeparator(nonce, '.');
      DecodeEncode(mac(MacPayload(nonce, ExpirySegment(expiresAt))));
    } else {
      assert '.' !in parts[2];
    }
  }

  /** The MAC payload of a built proof determines the nonce and the positive expiry, whatever the nonce. */
  lemma PayloadExactly(nonce: string, expiresAt: int, nonce': string, expiresAt': int)
    requires expiresAt <= I64_MAX && expiresAt' <= I64_MAX
    ensures MacPayload(nonce, ExpirySegment(expiresAt)) == MacPayload(nonce', ExpirySegment(expiresAt'))
            <==> nonce == nonce' && (expiresAt == expiresAt' || (expiresAt <= 0 && expiresAt' <= 0))
  {
    SegmentFacts(expiresAt);
    SegmentFacts(expiresAt');
    if MacPayload(nonce, ExpirySegment(expiresAt)) == MacPayload(nonce', ExpirySegment(expiresAt')) {
      PayloadSplits(nonce, ExpirySegment(expiresAt), nonce', ExpirySegment(expiresAt'));
    }
  }

  lemma PayloadSplits(nonce: string, segment: string, nonce': string, segment': string)
    requires ParseI64(segment).Some? && ParseI64(segment').Some?
    requires MacPayload(nonce, segment) == MacPayload(nonce', segment')
    ensures nonce == nonce' && segment == segment'
  {
    NumberHasNoColon(segment);
    NumberHasNoColon(segment');
    assert MacPayload(nonce, segment) == nonce + [':'] + segment;
    assert MacPayload(nonce', segment') == nonce' + [':'] + segment';
    LastSeparatorUnique(nonce, segment, nonce', segment', ':');
  }

  lemma NumberHasNoColon(segment: string)
    requires ParseI64(segment).Some?
    ensures ':' !in segment
  {
    var digits := if segment[0] == '+' || segment[0] == '-' then segment[1..] else segment;
    HexHas(digits, ':');
    assert segment == [segment[0]] + segment[1..];
  }

  /** The MAC payload that an accepted proof was checked against. */
  function CheckedPayload(proof: string): string {
    var parts := Split(proof, '.');
    if |parts| < 4 then "" else MacPayload(parts[2], parts[1])
  }

  /** One MAC vouches for one nonce and one expiry, whatever form the accepted proof has. */
  lemma MacDeterminesResult(mac: string -> seq<Byte>, p: string, q: string)
    requires Verify(mac, p).Some? && Verify(mac, q).Some? && CheckedPayload(p) == CheckedPayload(q)
    ensures Verify(mac, p) == Verify(mac, q)
  {
    var a, b := Split(p, '.'), Split(q, '.');
    PayloadSplits(a[2], a[1], b[2], b[1]);
  }

  // ----- What an accepted proof shows -----

  /** The proof has at least four dotted fields; the fourth is the hexadecimal form, in either case, of the MAC of the others. */
  ghost predicate Signed(mac: string -> seq<Byte>, proof: string) {
    var parts := Split(proof, '.');
    && |parts| >= 4
    && EqIgnoreAsciiCase(parts[3], EncodeBytes(mac(parts[2] + ":" + parts[1])))
  }

  lemma EncodeSnoc(bytes: seq<Byte>, hi: nat, lo: nat)
    requires hi < 16 && lo < 16
    ensures EncodeBytes(bytes + [hi * 16 + lo]) == EncodeBytes(bytes) + [Digit(hi), Digit(lo)]
  {
    var all: seq<Byte> := bytes + [hi * 16 + lo];
    assert all[..|all| - 1] == bytes;
  }

  lemma SameCaseConcat(a: string, b: string, c: string, d: string)
    requires EqIgnoreAsciiCase(a, b) && EqIgnoreAsciiCase(c, d)
    ensures EqIgnoreAsciiCase(a + c, b + d)
  {
  }

  lemma EncodeDecodeStep(front: string, bytes: seq<Byte>, x: char, y: char)
    requires EqIgnoreAsciiCase(front, EncodeBytes(bytes)) && DigitValue(x).Some? && DigitValue(y).Some?
    ensures EqIgnoreAsciiCase(front + [x, y], EncodeBytes(bytes + [DigitValue(x).value * 16 + DigitValue(y).value]))
  {
    var hi, lo := DigitValue(x).value, DigitValue(y).value;
    EncodeSnoc(bytes, hi, lo);
    SameDigit(x);
    SameDigit(y);
    SameCaseConcat(front, EncodeBytes(bytes), [x, y], [Digit(hi), Digit(lo)]);
  }

  lemma LastTwo(s: string)
    requires |s| >= 2
    ensures s == s[..|s| - 2] + [s[|s| - 2], s[|s| - 1]]
  {
  }

  lemma DecodedParts(s: string)
    requires s != "" && DecodeBytes(s).Some?
    ensures |s| >= 2
    ensures DecodeBytes(s[..|s| - 2]).Some? && DigitValue(s[|s| - 2]).Some? && DigitValue(s[|s| - 1]).Some?
    ensures DecodeBytes(s).value
            == DecodeBytes(s[..|s| - 2]).value + [DigitValue(s[|s| - 2]).value * 16 + DigitValue(s[|s| - 1]).value]
  {
    assert |s| != 1;
  }

  /** The text spells the bytes in hexadecimal, in either case. */
  predicate Spells(s: string, bytes: seq<Byte>) {
    EqIgnoreAsciiCase(s, EncodeBytes(bytes))
  }

  lemma {:induction false} EncodeDecode(s: string)
    requires DecodeBytes(s).Some?
    ensures Spells(s, DecodeBytes(s).value)
  {
    if s != "" {
      DecodedParts(s);
      LastTwo(s);
      var front, x, y := s[..|s| - 2], s[|s| - 2], s[|s| - 1];
      EncodeDecode(front);
      EncodeDecodeStep(front, DecodeBytes(front).value, x, y);
    }
  }

  lemma SameDigit(c: char)
    requires DigitValue(c).Some?
    ensures AsciiLower(Digit(DigitValue(c).value)) == AsciiLower(c)
  {
  }

  /** Only a proof that carries the MAC is accepted, and what it yields are its own fields. */
  lemma AcceptedIsSigned(mac: string -> seq<Byte>, proof: string)
    requires Verify(mac, proof).Some?
    ensures Signed(mac, proof)
    ensures var parts, v := Split(proof, '.'), Verify(mac, proof).value;
            parts[0] == "v1" && v.nonce == parts[2] && ParseI64(parts[1]) == Some(v.expiresAt)
  {
    EncodeDecode(Split(proof, '.')[3]);
  }

  /** The case of the digits does not matter to the decoder. */
  lemma {:induction false} DecodeIgnoresCase(a: string, b: string)
    requires EqIgnoreAsciiCase(a, b)
    ensures DecodeBytes(a) == DecodeBytes(b)
  {
    if |a| >= 2 {
      DecodeIgnoresCase(a[..|a| - 2], b[..|b| - 2]);
      SameValue(a[|a| - 2], b[|b| - 2]);
      SameValue(a[|a| - 1], b[|b| - 1]);
    }
  }

  lemma SameValue(c: char, d: char)
    requires AsciiLower(c) == AsciiLower(d)
    ensures DigitValue(c) == DigitValue(d)
  {
  }

  /**
   A proof is accepted exactly when it is of version 1, its expiry is a number and it
   carries the MAC of its own nonce and expiry.
   */
  lemma AcceptedExactly(mac: string -> seq<Byte>, proof: string)
    ensures Verify(mac, proof).Some?
            <==> var parts := Split(proof, '.');
                 parts[0] == "v1" && Signed(mac, proof) && ParseI64(parts[1]).Some?
  {
    var parts := Split(proof, '.');
    if Verify(mac, proof).Some? {
      AcceptedIsSigned(mac, proof);
    }
    if Signed(mac, proof) {
      DecodeIgnoresCase(parts[3], EncodeBytes(mac(parts[2] + ":" + parts[1])));
      DecodeEncode(mac(parts[2] + ":" + parts[1]));
    }
  }

  /** A proof accepted under one MAC is refused under any other that differs on what it signs. */
  lemma OtherMacRefuses(mac: string -> seq<Byte>, mac': string -> seq<Byte>, proof: string)
    requires Verify(mac, proof).Some?
    requires var parts := Split(proof, '.');
             |parts| >= 4 && mac(parts[2] + ":" + parts[1]) != mac'(parts[2] + ":" + parts[1])
    ensures Verify(mac', proof).None?
  {
    var parts := Split(proof, '.');
    AcceptedIsSigned(mac, proof);
    if Verify(mac', proof).Some? {
      AcceptedIsSigned(mac', proof);
      DecodeIgnoresCase(parts[3], EncodeBytes(mac(parts[2] + ":" + parts[1])));
      DecodeIgnoresCase(parts[3], EncodeBytes(mac'(parts[2] + ":" + parts[1])));
      DecodeEncode(mac(parts[2] + ":" + parts[1]));
      DecodeEncode(mac'(parts[2] + ":" + parts[1]));
    }
  }
}
