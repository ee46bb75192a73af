/** Python string primitives the core relies on: `str.isspace`, `str.strip`,
    `str(int)` and `sep.join(parts)`. */
module Text {

  /** Python's `str.isspace` (and the `\s` class of a `str` regular
      expression): the ASCII controls \t \n \v \f \r, the separators
      \x1c-\x1f, the space, NEL, NBSP and the Unicode space separators. */
  predicate IsSpace(c: char)
    ensures IsSpace(c) ==> !IsAsciiLower(c) && !IsAsciiDigit(c)
  {
    || ('\t' <= c <= '\r')
    || ('\U{1C}' <= c <= ' ')
    || c == '\U{85}' || c == '\U{A0}' || c == '\U{1680}'
    || ('\U{2000}' <= c <= '\U{200A}')
    || c == '\U{2028}' || c == '\U{2029}' || c == '\U{202F}'
    || c == '\U{205F}' || c == '\U{3000}'
  }

  /** The smaller of two integers (Python's `min`). */
  function Min(a: int, b: int): (r: int)
    ensures r <= a && r <= b && (r == a || r == b)
  {
    if a < b then a else b
  }

  /** No element occurs twice. */
  predicate Distinct<T(==)>(xs: seq<T>) {
    forall i, j :: 0 <= i < j < |xs| ==> xs[i] != xs[j]
  }

  /* Facts about concatenation, stated generically: over sequences of
     datatype values the solver is much slower to find them itself. */

  lemma TailOfConcat<T>(x: seq<T>, y: seq<T>)
    requires x != []
    ensures (x + y)[0] == x[0] && (x + y)[1..] == x[1..] + y
  {
  }

  lemma InitOfConcat<T>(x: seq<T>, y: seq<T>)
    requires y != []
    ensures (x + y)[|x + y| - 1] == y[|y| - 1] && (x + y)[..|x + y| - 1] == x + y[..|y| - 1]
  {
  }

  lemma ThreeSingletons<T>(x: T, y: T, z: T)
    ensures [x] + [y] + [z] == [x, y, z]
  {
  }

  lemma ConcatAssoc<T>(x: seq<T>, y: seq<T>, z: seq<T>)
    ensures x + (y + z) == (x + y) + z
  {
  }

  predicate IsAsciiDigit(c: char) {
    '0' <= c <= '9'
  }

  predicate IsAsciiLower(c: char) {
    'a' <= c <= 'z'
  }

  function DigitValue(c: char): (d: nat)
    requires IsAsciiDigit(c)
    ensures d < 10
  {
    (c - '0') as nat
  }

  function DigitChar(d: nat): (c: char)
    requires d < 10
    ensures IsAsciiDigit(c) && DigitValue(c) == d
  {
    '0' + d as char
  }

  /** Every character is whitespace (so is the empty string). */
  predicate Blank(s: string) {
    forall k :: 0 <= k < |s| ==> IsSpace(s[k])
  }

  /** A string with no leading and no trailing whitespace. */
  predicate Trimmed(s: string) {
    s == [] || (!IsSpace(s[0]) && !IsSpace(s[|s| - 1]))
  }

  /** Index of the first non-whitespace character, |s| when there is none. */
  function LeadingSpaces(s: string): (i: nat)
    ensures i <= |s|
    ensures forall k :: 0 <= k < i ==> IsSpace(s[k])
    ensures i < |s| ==> !IsSpace(s[i])
  {
    if s == [] || !IsSpace(s[0]) then 0 else 1 + LeadingSpaces(s[1..])
  }

  /** One past the last non-whitespace character, 0 when there is none. */
  function TrailingEnd(s: string): (j: nat)
    ensures j <= |s|
    ensures forall k :: j <= k < |s| ==> IsSpace(s[k])
    ensures 0 < j ==> !IsSpace(s[j - 1])
  {
    if s == [] || !IsSpace(s[|s| - 1]) then |s| else TrailingEnd(s[..|s| - 1])
  }

  /** Python's `str.strip()` with no argument. */
  function Strip(s: string): (r: string)
    ensures Trimmed(r)
    ensures r == [] <==> Blank(s)
    ensures LeadingSpaces(s) + |r| <= |s| && r == s[LeadingSpaces(s)..LeadingSpaces(s) + |r|]
    ensures Blank(s[..LeadingSpaces(s)]) && Blank(s[LeadingSpaces(s) + |r|..])
  {
    var i := LeadingSpaces(s);
    if i == |s| then "" else
      var j := TrailingEnd(s);
      assert !IsSpace(s[i]);
      s[i..j]
  }

  /** Stripping a string that is already trimmed changes nothing. */
  lemma StripTrimmed(s: string)
    requires Trimmed(s)
    ensures Strip(s) == s
  {
    if s != [] {
      assert LeadingSpaces(s) == 0;
      assert TrailingEnd(s) == |s|;
    }
  }

  /** Python's `str(n)` for a non-negative integer: its decimal digits. */
  function NatText(n: nat): (r: string)
    ensures 1 <= |r| && IsAsciiDigit(r[0])
  {
    if n < 10 then [DigitChar(n)] else NatText(n / 10) + [DigitChar(n % 10)]
  }

  predicate AllDigits(s: string) {
    forall k :: 0 <= k < |s| ==> IsAsciiDigit(s[k])
  }

  /** `str(n)` reads back as `n`: its characters are digits and spell `n`
      in base 10. */
  lemma {:induction false} NatTextValue(n: nat)
    ensures AllDigits(NatText(n)) && DecimalValue(NatText(n)) == n
  {
    if n >= 10 {
      NatTextValue(n / 10);
      var r := NatText(n);
      assert r == NatText(n / 10) + [DigitChar(n % 10)];
      assert r[..|r| - 1] == NatText(n / 10);
    }
  }

  /** The number a string of ASCII digits spells in base 10. */
  function DecimalValue(s: string): nat
    requires AllDigits(s)
  {
    if s == [] then 0 else 10 * DecimalValue(s[..|s| - 1]) + DigitValue(s[|s| - 1])
  }

  /** Python's `str(n)`: a minus sign for negative numbers, then the digits. */
  function IntText(n: int): (r: string)
    ensures 1 <= |r|
    ensures (r[0] == '-') <==> n < 0
  {
    if n < 0 then "-" + NatText(-n) else NatText(n)
  }

  /** `str(n)` is made of digits and, for a negative number, a leading
      minus sign. */
  lemma IntTextChars(n: int)
    ensures forall k :: 0 <= k < |IntText(n)| ==> IsAsciiDigit(IntText(n)[k]) || IntText(n)[k] == '-'
  {
    if n < 0 {
      NatTextValue(-n);
      assert forall k :: 1 <= k < |IntText(n)| ==> IntText(n)[k] == NatText(-n)[k - 1];
    } else {
      NatTextValue(n);
    }
  }

  /** Different integers have different `str(n)`. */
  lemma IntTextInjective(n: int, m: int)
    requires IntText(n) == IntText(m)
    ensures n == m
  {
    if n < 0 && m < 0 {
      DropPrefix("-", NatText(-n), NatText(-m));
      NatTextValue(-n);
      NatTextValue(-m);
    } else if 0 <= n && 0 <= m {
      NatTextValue(n);
      NatTextValue(m);
    }
  }

  /** `c` first occurs in `x + q` at `|x|` when `q` starts with it and `x`
      does not contain it. */
  lemma FirstAt(x: string, q: string, c: char)
    requires q != [] && q[0] == c && c !in x
    ensures (x + q)[|x|] == c
    ensures forall k :: 0 <= k < |x| ==> (x + q)[k] != c
  {
    assert forall k :: 0 <= k < |x| ==> (x + q)[k] == x[k];
  }

  /** Two strings that agree, each split before the first occurrence of `c`,
      agree part by part. */
  lemma SplitBefore(x: string, q: string, y: string, w: string, c: char)
    requires x + q == y + w
    requires q != [] && q[0] == c && w != [] && w[0] == c
    requires c !in x && c !in y
    ensures x == y && q == w
  {
    FirstAt(x, q, c);
    FirstAt(y, w, c);
    assert |x| == |y|;
    assert x == (x + q)[..|x|] && y == (y + w)[..|y|];
    assert q == (x + q)[|x|..] && w == (y + w)[|y|..];
  }

  /** A character that is neither a digit nor '-' does not occur in
      `str(n)`. */
  lemma NotInIntText(n: int, c: char)
    requires !IsAsciiDigit(c) && c != '-'
    ensures c !in IntText(n)
  {
    IntTextChars(n);
  }

  lemma DropPrefix(p: string, x: string, y: string)
    requires p + x == p + y
    ensures x == y
  {
    assert x == (p + x)[|p|..] && y == (p + y)[|p|..];
  }

  /** A message `(p + y) + (l1 + a + l2 + c + tl)` determines its three fields
      when no field contains the first character of the piece after it. */
  lemma ThreeFields(p: string, l1: string, l2: string, tl: string,
                    y1: string, a1: string, c1: string, y2: string, a2: string, c2: string)
    requires l1 != [] && l2 != [] && tl != []
    requires l1[0] !in y1 && l1[0] !in y2 && l2[0] !in a1 && l2[0] !in a2 && tl[0] !in c1 && tl[0] !in c2
    requires (p + y1) + (l1 + a1 + l2 + c1 + tl) == (p + y2) + (l1 + a2 + l2 + c2 + tl)
    ensures y1 == y2 && a1 == a2 && c1 == c2
  {
    var r1, r2 := l2 + (c1 + tl), l2 + (c2 + tl);
    var q1, q2 := l1 + (a1 + r1), l1 + (a2 + r2);
    assert (p + y1) + (l1 + a1 + l2 + c1 + tl) == p + (y1 + q1);
    assert (p + y2) + (l1 + a2 + l2 + c2 + tl) == p + (y2 + q2);
    DropPrefix(p, y1 + q1, y2 + q2);
    SplitBefore(y1, q1, y2, q2, l1[0]);
    DropPrefix(l1, a1 + r1, a2 + r2);
    SplitBefore(a1, r1, a2, r2, l2[0]);
    DropPrefix(l2, c1 + tl, c2 + tl);
    SplitBefore(c1, tl, c2, tl, tl[0]);
  }

  /** Python's `sep.join(parts)`. */
  function Join(sep: string, parts: seq<string>): (r: string)
    ensures |parts| == 1 ==> r == parts[0]
    ensures parts == [] ==> r == ""
  {
    if parts == [] then ""
    else if |parts| == 1 then parts[0]
    else parts[0] + sep + Join(sep, parts[1..])
  }

  /** `"".join(parts)`. */
  function Concat(parts: seq<string>): (r: string)
    ensures parts == [] ==> r == ""
    ensures parts != [] ==> var last := parts[|parts| - 1]; |last| <= |r| && r[|r| - |last|..] == last
  {
    if parts == [] then "" else Concat(parts[..|parts| - 1]) + parts[|parts| - 1]
  }

  /** `"".join(parts)` begins with the first part. */
  lemma {:induction false} ConcatStartsWith(parts: seq<string>)
    requires |parts| >= 1
    ensures |parts[0]| <= |Concat(parts)| && Concat(parts)[..|parts[0]|] == parts[0]
  {
    if |parts| > 1 {
      var init := parts[..|parts| - 1];
      ConcatStartsWith(init);
      assert init[0] == parts[0];
    }
  }

  /** `"".join(parts)` begins with the first part and ends with the last. */
  lemma ConcatFrame(parts: seq<string>)
    requires |parts| >= 2
    ensures var r := Concat(parts);
      && |parts[0]| + |parts[|parts| - 1]| <= |r|
      && r[..|parts[0]|] == parts[0] && r[|r| - |parts[|parts| - 1]|..] == parts[|parts| - 1]
  {
    var init := parts[..|parts| - 1];
    ConcatStartsWith(parts);
    ConcatStartsWith(init);
    assert init[0] == parts[0];
    assert Concat(parts) == Concat(init) + parts[|parts| - 1];
  }

  lemma JoinTwo(sep: string, a: string, b: string)
    ensures Join(sep, [a, b]) == a + sep + b
  {
    assert [a, b][1..] == [b];
  }

  lemma JoinThree(sep: string, a: string, b: string, c: string)
    ensures Join(sep, [a, b, c]) == a + sep + b + sep + c
  {
    assert [a, b, c][1..] == [b, c];
    JoinTwo(sep, b, c);
  }

  /** A join of non-empty parts starts with the first part and ends with
      the last part's last character. */
  lemma {:induction false} JoinEnds(sep: string, parts: seq<string>)
    requires |parts| >= 1 && forall k :: 0 <= k < |parts| ==> parts[k] != []
    ensures var r := Join(sep, parts);
      && |parts[0]| <= |r| && r[..|parts[0]|] == parts[0]
      && r[|r| - 1] == parts[|parts| - 1][|parts[|parts| - 1]| - 1]
  {
    if |parts| > 1 {
      JoinEnds(sep, parts[1..]);
      var rest := Join(sep, parts[1..]);
      assert Join(sep, parts) == parts[0] + sep + rest;
    }
  }

  /** Every character of a join comes from a part or from the separator. */
  lemma {:induction false} JoinChars(sep: string, parts: seq<string>, c: char)
    requires c in Join(sep, parts)
    ensures c in sep || exists k :: 0 <= k < |parts| && c in parts[k]
  {
    if |parts| > 1 {
      var rest := Join(sep, parts[1..]);
      assert Join(sep, parts) == parts[0] + sep + rest;
      if c !in parts[0] && c !in sep {
        JoinChars(sep, parts[1..], c);
        var k :| 0 <= k < |parts[1..]| && c in parts[1..][k];
        assert c in parts[k + 1];
      }
    }
  }
}
