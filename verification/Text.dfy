/**
 Strings: order, splitting on a separator, joining, trimming and ASCII case,
 as `str::cmp`, `split`, `join`, `trim` and `eq_ignore_ascii_case` behave.
 */
module Text {

  // ----- Lexicographic order (`Ord for str`) -----

  predicate StrLe(a: string, b: string) {
    if a == [] then true
    else if b == [] then false
    else if a[0] == b[0] then StrLe(a[1..], b[1..])
    else a[0] < b[0]
  }

  lemma {:induction false} StrLeTotal(a: string, b: string)
    ensures StrLe(a, b) || StrLe(b, a)
  {
    if a != [] && b != [] && a[0] == b[0] {
      StrLeTotal(a[1..], b[1..]);
    }
  }

  lemma {:induction false} StrLeTransitive(a: string, b: string, c: string)
    requires StrLe(a, b) && StrLe(b, c)
    ensures StrLe(a, c)
  {
    if a != [] && b != [] && c != [] && a[0] == b[0] == c[0] {
      StrLeTransitive(a[1..], b[1..], c[1..]);
    }
  }

  lemma {:induction false} StrLeAntisymmetric(a: string, b: string)
    requires StrLe(a, b) && StrLe(b, a)
    ensures a == b
  {
    if a != [] && b != [] {
      StrLeAntisymmetric(a[1..], b[1..]);
      assert a == [a[0]] + a[1..] && b == [b[0]] + b[1..];
    }
  }

  // ----- Splitting and joining -----

  /** `value.split(c)`: always at least one part. */
  function Split(s: string, c: char): (parts: seq<string>)
    ensures |parts| >= 1
    ensures forall p :: p in parts ==> c !in p
  {
    if s == [] then [[]]
    else
      var rest := Split(s[1..], c);
      if s[0] == c then [[]] + rest
      else [[s[0]] + rest[0]] + rest[1..]
  }

  /** `parts.join(c)`. */
  function Join(parts: seq<string>, c: char): string {
    if |parts| == 0 then []
    else if |parts| == 1 then parts[0]
    else parts[0] + [c] + Join(parts[1..], c)
  }

  lemma {:induction false} SplitNoSeparator(s: string, c: char)
    requires c !in s
    ensures Split(s, c) == [s]
  {
    if s != [] {
      SplitNoSeparator(s[1..], c);
      assert s == [s[0]] + s[1..];
    }
  }

  /** Splitting works on each side of a separator on its own. */
  lemma {:induction false} SplitConcat(a: string, b: string, c: char)
    ensures Split(a + [c] + b, c) == Split(a, c) + Split(b, c)
  {
    var t := a + [c] + b;
    if a == [] {
      assert t[1..] == b;
    } else {
      assert t[1..] == a[1..] + [c] + b;
      SplitConcat(a[1..], b, c);
    }
  }

  lemma {:induction false} SplitJoin(parts: seq<string>, c: char)
    requires parts != []
    requires forall p :: p in parts ==> c !in p
    ensures Split(Join(parts, c), c) == parts
  {
    SplitNoSeparator(parts[0], c);
    if |parts| > 1 {
      SplitJoin(parts[1..], c);
      SplitConcat(parts[0], Join(parts[1..], c), c);
      assert parts == [parts[0]] + parts[1..];
    } else {
      assert parts == [parts[0]];
    }
  }

  lemma {:induction false} JoinContains(parts: seq<string>, c: char, x: char)
    requires x != c && forall p :: p in parts ==> x !in p
    ensures x !in Join(parts, c)
  {
    if |parts| > 1 {
      JoinContains(parts[1..], c, x);
    }
  }

  /** A trailing separator, as when several lines are fed one by one to a hasher. */
  function Lines(lines: seq<string>, c: char): string {
    if lines == [] then [] else lines[0] + [c] + Lines(lines[1..], c)
  }

  /** Separator-terminated lines can be told apart. */
  lemma {:induction false} LinesInjective(a: seq<string>, b: seq<string>, c: char)
    requires forall x :: x in a ==> c !in x
    requires forall x :: x in b ==> c !in x
    requires Lines(a, c) == Lines(b, c)
    ensures a == b
  {
    SplitLines(a, c);
    SplitLines(b, c);
    assert a == (a + [[]])[..|a|] && b == (b + [[]])[..|b|];
  }

  lemma {:induction false} SplitLines(a: seq<string>, c: char)
    requires forall x :: x in a ==> c !in x
    ensures Split(Lines(a, c), c) == a + [[]]
  {
    if a != [] {
      SplitLines(a[1..], c);
      SplitConcat(a[0], Lines(a[1..], c), c);
      SplitNoSeparator(a[0], c);
      assert a + [[]] == [a[0]] + (a[1..] + [[]]);
    }
  }

  /** The text in front of and behind the last separator determine each other. */
  lemma {:induction false} LastSeparatorUnique(a: string, x: string, b: string, y: string, c: char)
    requires c !in x && c !in y
    requires a + [c] + x == b + [c] + y
    ensures a == b && x == y
  {
    SplitConcat(a, x, c);
    SplitConcat(b, y, c);
    SplitNoSeparator(x, c);
    SplitNoSeparator(y, c);
    var s, t := Split(a, c) + [x], Split(b, c) + [y];
    assert s == t;
    assert s[|s| - 1] == x && t[|t| - 1] == y;
    var whole := a + [c] + x;
    assert whole[..|whole| - |x| - 1] == a;
    assert (b + [c] + y)[..|whole| - |y| - 1] == b;
  }

  // ----- Whitespace -----

  /** `char::is_whitespace`: the Unicode White_Space property. */
  predicate IsSpace(c: char) {
    var n := c as int;
    || 0x09 <= n <= 0x0D || n == 0x20 || n == 0x85 || n == 0xA0 || n == 0x1680
    || 0x2000 <= n <= 0x200A || n == 0x2028 || n == 0x2029 || n == 0x202F || n == 0x205F || n == 0x3000
  }

  function TrimStart(s: string): (r: string)
    ensures |r| <= |s|
    ensures r == [] || !IsSpace(r[0])
    ensures forall x :: x in r ==> x in s
  {
    if s != [] && IsSpace(s[0]) then TrimStart(s[1..]) else s
  }

  function TrimEnd(s: string): (r: string)
    ensures r <= s
    ensures r == [] || !IsSpace(r[|r| - 1])
  {
    if s != [] && IsSpace(s[|s| - 1]) then TrimEnd(s[..|s| - 1]) else s
  }

  function Trim(s: string): (r: string)
    ensures Trimmed(r)
    ensures forall x :: x in r ==> x in s
  {
    TrimEnd(TrimStart(s))
  }

  /** No whitespace at either end; the empty string counts. */
  predicate Trimmed(s: string) {
    s == [] || (!IsSpace(s[0]) && !IsSpace(s[|s| - 1]))
  }

  lemma TrimTrimmed(s: string)
    requires Trimmed(s)
    ensures Trim(s) == s
  {
  }

  /** Trimming never removes the last visible character. */
  lemma {:induction false} TrimKeepsVisible(s: string, i: nat)
    requires i < |s| && !IsSpace(s[i])
    ensures Trim(s) != []
    decreases |s|
  {
    if IsSpace(s[0]) {
      TrimKeepsVisible(s[1..], i - 1);
    } else {
      TrimEndKeepsVisible(s, i);
    }
  }

  lemma {:induction false} TrimEndKeepsVisible(s: string, i: nat)
    requires i < |s| && !IsSpace(s[i])
    ensures TrimEnd(s) != []
  {
    if IsSpace(s[|s| - 1]) {
      TrimEndKeepsVisible(s[..|s| - 1], i);
    }
  }

  /** Something is left of a trimmed text exactly when it has a visible character. */
  lemma BlankExactly(s: string)
    ensures Trim(s) != "" <==> exists i :: 0 <= i < |s| && !IsSpace(s[i])
  {
    if exists i :: 0 <= i < |s| && !IsSpace(s[i]) {
      var i :| 0 <= i < |s| && !IsSpace(s[i]);
      TrimKeepsVisible(s, i);
    }
    if Trim(s) != "" {
      assert Trim(s)[0] in s;
      var i :| 0 <= i < |s| && s[i] == Trim(s)[0];
    }
  }

  // ----- ASCII case -----

  function AsciiLower(c: char): char {
    if 'A' <= c <= 'Z' then (c as int + 32) as char else c
  }

  /** `str::eq_ignore_ascii_case`. */
  predicate EqIgnoreAsciiCase(a: string, b: string) {
    |a| == |b| && forall i :: 0 <= i < |a| ==> AsciiLower(a[i]) == AsciiLower(b[i])
  }

  lemma EqIgnoreCaseKeepsTrimmed(a: string, b: string)
    requires EqIgnoreAsciiCase(a, b) && Trimmed(b)
    ensures Trimmed(a)
  {
    if a != [] {
      assert AsciiLower(a[0]) == AsciiLower(b[0]);
      assert AsciiLower(a[|a| - 1]) == AsciiLower(b[|a| - 1]);
    }
  }

  // ----- Substrings -----

  /** `haystack.contains(needle)`. */
  predicate Contains(haystack: string, needle: string) {
    needle <= haystack || (haystack != [] && Contains(haystack[1..], needle))
  }

  /** Some slice of the haystack is the needle. */
  ghost predicate Occurs(haystack: string, needle: string) {
    exists i: nat :: OccursAt(haystack, needle, i)
  }

  predicate OccursAt(haystack: string, needle: string, i: nat) {
    i + |needle| <= |haystack| && haystack[i..i + |needle|] == needle
  }

  lemma OccursFirst(haystack: string, needle: string)
    requires needle <= haystack
    ensures Occurs(haystack, needle)
  {
    assert OccursAt(haystack, needle, 0);
  }

  lemma OccursLater(haystack: string, needle: string)
    requires haystack != [] && !(needle <= haystack)
    ensures Occurs(haystack, needle) <==> Occurs(haystack[1..], needle)
  {
    var rest := haystack[1..];
    if Occurs(haystack, needle) {
      var i: nat :| OccursAt(haystack, needle, i);
      assert i > 0 && rest[i - 1..i - 1 + |needle|] == haystack[i..i + |needle|];
      assert OccursAt(rest, needle, i - 1);
    }
    if Occurs(rest, needle) {
      var i: nat :| OccursAt(rest, needle, i);
      assert haystack[i + 1..i + 1 + |needle|] == rest[i..i + |needle|];
      assert OccursAt(haystack, needle, i + 1);
    }
  }

  lemma OccursNowhere(needle: string)
    requires !(needle <= "")
    ensures !Occurs("", needle)
  {
  }

  lemma {:induction false} ContainsExactly(haystack: string, needle: string)
    ensures Contains(haystack, needle) <==> Occurs(haystack, needle)
  {
    if needle <= haystack {
      OccursFirst(haystack, needle);
    } else if haystack != [] {
      OccursLater(haystack, needle);
      ContainsExactly(haystack[1..], needle);
    } else {
      OccursNowhere(needle);
    }
  }

  /** What occurs in a part occurs in the whole. */
  lemma OccursShift(front: string, back: string, needle: string)
    ensures Occurs(back, needle) ==> Occurs(front + back, needle)
    ensures Occurs(front, needle) ==> Occurs(front + back, needle)
  {
    var whole := front + back;
    if Occurs(back, needle) {
      var i: nat :| OccursAt(back, needle, i);
      assert whole[|front| + i..|front| + i + |needle|] == back[i..i + |needle|];
      assert OccursAt(whole, needle, |front| + i);
    }
    if Occurs(front, needle) {
      var i: nat :| OccursAt(front, needle, i);
      assert whole[i..i + |needle|] == front[i..i + |needle|];
      assert OccursAt(whole, needle, i);
    }
  }

  lemma {:induction false} JoinOccurs(parts: seq<string>, c: char, k: nat, needle: string)
    requires k < |parts| && Occurs(parts[k], needle)
    ensures Occurs(Join(parts, c), needle)
  {
    if |parts| > 1 {
      var rest := Join(parts[1..], c);
      if k == 0 {
        OccursShift(parts[0], [c] + rest, needle);
      } else {
        JoinOccurs(parts[1..], c, k - 1, needle);
        OccursShift(parts[0] + [c], rest, needle);
      }
      assert parts[0] + ([c] + rest) == parts[0] + [c] + rest;
    }
  }

  lemma SpansMeansContains(whole: string, needle: string, i: nat, m: nat)
    requires OccursAt(whole, needle, i) && m < |whole|
    ensures i <= m < i + |needle| ==> whole[m] in needle
  {
    if i <= m < i + |needle| {
      assert whole[i..i + |needle|][m - i] == whole[m];
    }
  }

  /** A needle without the separator does not span it. */
  lemma OccursBeside(front: string, c: char, back: string, needle: string)
    requires c !in needle && Occurs(front + [c] + back, needle)
    ensures Occurs(front, needle) || Occurs(back, needle)
  {
    var whole, m := front + [c] + back, |front|;
    var i: nat :| OccursAt(whole, needle, i);
    SpansMeansContains(whole, needle, i, m);
    if i + |needle| <= m {
      assert front[i..i + |needle|] == whole[i..i + |needle|];
      assert OccursAt(front, needle, i);
    } else {
      assert back[i - m - 1..i - m - 1 + |needle|] == whole[i..i + |needle|];
      assert OccursAt(back, needle, i - m - 1);
    }
  }

  lemma {:induction false} OccursInJoin(parts: seq<string>, c: char, needle: string)
    requires c !in needle && parts != [] && Occurs(Join(parts, c), needle)
    ensures exists k :: 0 <= k < |parts| && Occurs(parts[k], needle)
  {
    if |parts| == 1 {
      assert Occurs(parts[0], needle);
    } else {
      OccursBeside(parts[0], c, Join(parts[1..], c), needle);
      if !Occurs(parts[0], needle) {
        OccursInJoin(parts[1..], c, needle);
        var k :| 0 <= k < |parts| - 1 && Occurs(parts[1..][k], needle);
        assert Occurs(parts[k + 1], needle);
      }
    }
  }
}
