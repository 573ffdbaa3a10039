/** Strings as sequences of characters: the few string operations the system
    relies on (substring search, trimming, ASCII case folding, decimal
    rendering of integers, lexicographic comparison, PHP truthiness). */
module Text {

  /** `needle` occurs in `hay` starting at position 0. */
  predicate IsPrefix(needle: string, hay: string) {
    |needle| <= |hay| && hay[..|needle|] == needle
  }

  /** `needle` occurs somewhere in `hay` (SQL `LIKE '%needle%'`, JavaScript `includes`). */
  predicate Contains(hay: string, needle: string)
    decreases |hay|
  {
    IsPrefix(needle, hay) || (|hay| > 0 && Contains(hay[1..], needle))
  }

  /** The characters PHP's `trim` strips: space, tab, newline, carriage return, NUL, vertical tab. */
  predicate PhpSpace(c: char) {
    c == ' ' || c == '\t' || c == '\n' || c == '\r' || c == '\0' || c == '\U{B}'
  }

  /** The characters JavaScript's `String.prototype.trim` strips (WhiteSpace and LineTerminator). */
  predicate JsSpace(c: char) {
    c == '\t' || c == '\n' || c == '\U{B}' || c == '\U{C}' || c == '\r' || c == ' '
    || c == '\U{A0}' || c == '\U{1680}' || ('\U{2000}' <= c <= '\U{200A}')
    || c == '\U{2028}' || c == '\U{2029}' || c == '\U{202F}' || c == '\U{205F}'
    || c == '\U{3000}' || c == '\U{FEFF}'
  }

  function TrimStart(s: string, space: char -> bool): (r: string)
    ensures |r| <= |s| && r == s[|s| - |r|..]
    ensures r == [] || !space(r[0])
  {
    if s != [] && space(s[0]) then TrimStart(s[1..], space) else s
  }

  function TrimEnd(s: string, space: char -> bool): (r: string)
    ensures |r| <= |s| && r == s[..|r|]
    ensures r == [] || !space(r[|r| - 1])
  {
    if s != [] && space(s[|s| - 1]) then TrimEnd(s[..|s| - 1], space) else s
  }

  /** `s` without leading and trailing `space` characters. */
  function Trim(s: string, space: char -> bool): (r: string)
    ensures |r| <= |s|
    ensures r == [] || (!space(r[0]) && !space(r[|r| - 1]))
  {
    TrimEnd(TrimStart(s, space), space)
  }

  /** Every character of `s` is a `space` character. */
  predicate Blank(s: string, space: char -> bool) {
    forall i :: 0 <= i < |s| ==> space(s[i])
  }

  lemma {:induction false} TrimEmptyIffBlank(s: string, space: char -> bool)
    ensures Trim(s, space) == [] <==> Blank(s, space)
    decreases |s|
  {
    if s != [] && space(s[0]) {
      TrimEmptyIffBlank(s[1..], space);
      assert Blank(s[1..], space) ==> Blank(s, space) by {
        if Blank(s[1..], space) {
          forall i | 0 <= i < |s| ensures space(s[i]) { if i > 0 { assert s[i] == s[1..][i - 1]; } }
        }
      }
    } else if s != [] {
      var t := TrimStart(s, space);
      assert t == s;
      TrimEndOfNonBlankStart(s, space);
    }
  }

  lemma {:induction false} TrimEndOfNonBlankStart(s: string, space: char -> bool)
    requires s != [] && !space(s[0])
    ensures TrimEnd(s, space) != []
    decreases |s|
  {
    if space(s[|s| - 1]) {
      assert |s| > 1;
      TrimEndOfNonBlankStart(s[..|s| - 1], space);
    }
  }

  /** ASCII upper-case letters become lower case; everything else is kept. */
  function LowerAscii(s: string): (r: string)
    ensures |r| == |s|
    ensures forall i :: 0 <= i < |s| ==> ('A' <= s[i] <= 'Z' ==> r[i] as int == s[i] as int + 32)
    ensures forall i :: 0 <= i < |s| ==> (!('A' <= s[i] <= 'Z') ==> r[i] == s[i])
  {
    if s == [] then []
    else
      var c := s[0];
      [if 'A' <= c <= 'Z' then (c as int + 32) as char else c] + LowerAscii(s[1..])
  }

  // ---- decimal rendering, as PHP interpolates an int into a string ----

  function Digit(d: nat): char
    requires d < 10
  {
    ('0' as int + d) as char
  }

  function DigitValue(c: char): int {
    c as int - '0' as int
  }

  /** Decimal digits of `n`, most significant first, without leading zeros. */
  function NatToString(n: nat): (r: string)
    ensures |r| >= 1
    ensures forall i :: 0 <= i < |r| ==> '0' <= r[i] <= '9'
    ensures |r| > 1 ==> r[0] != '0'
  {
    if n < 10 then [Digit(n)] else NatToString(n / 10) + [Digit(n % 10)]
  }

  function IntToString(i: int): (r: string)
    ensures |r| >= 1
  {
    if i < 0 then "-" + NatToString(-i) else NatToString(i)
  }

  /** Reads a string of decimal digits back. */
  function ParseNat(s: string): int {
    if s == [] then 0 else 10 * ParseNat(s[..|s| - 1]) + DigitValue(s[|s| - 1])
  }

  function ParseInt(s: string): int {
    if s != [] && s[0] == '-' then -ParseNat(s[1..]) else ParseNat(s)
  }

  lemma {:induction false} NatToStringRoundTrip(n: nat)
    ensures ParseNat(NatToString(n)) == n
  {
    if n >= 10 {
      NatToStringRoundTrip(n / 10);
      var s := NatToString(n);
      assert s[..|s| - 1] == NatToString(n / 10);
    }
  }

  /** The stock printed into a notification message can be read back exactly. */
  lemma IntToStringRoundTrip(i: int)
    ensures ParseInt(IntToString(i)) == i
  {
    NatToStringRoundTrip(if i < 0 then -i else i);
    if i < 0 {
      assert IntToString(i)[1..] == NatToString(-i);
    } else {
      assert NatToString(i)[0] != '-';
    }
  }

  // ---- lexicographic order on strings (JavaScript's `<` on strings) ----

  predicate LexLess(a: string, b: string) {
    if a == [] then b != []
    else if b == [] then false
    else if a[0] == b[0] then LexLess(a[1..], b[1..])
    else a[0] < b[0]
  }

  lemma {:induction false} LexLessIrreflexive(a: string)
    ensures !LexLess(a, a)
  {
    if a != [] { LexLessIrreflexive(a[1..]); }
  }

  lemma {:induction false} LexLessTransitive(a: string, b: string, c: string)
    requires LexLess(a, b) && LexLess(b, c)
    ensures LexLess(a, c)
  {
    if a != [] && b != [] && c != [] && a[0] == b[0] && b[0] == c[0] {
      LexLessTransitive(a[1..], b[1..], c[1..]);
    }
  }

  lemma {:induction false} LexLessTotal(a: string, b: string)
    ensures a == b || LexLess(a, b) || LexLess(b, a)
  {
    if a != [] && b != [] && a[0] == b[0] {
      LexLessTotal(a[1..], b[1..]);
      if a[1..] == b[1..] { assert a == [a[0]] + a[1..] && b == [b[0]] + b[1..]; }
    }
  }

  lemma {:induction false} LexLessAsymmetric(a: string, b: string)
    requires LexLess(a, b)
    ensures !LexLess(b, a)
  {
    if a != [] && b != [] && a[0] == b[0] { LexLessAsymmetric(a[1..], b[1..]); }
  }

  /** PHP's truthiness of a string: everything except "" and "0". */
  predicate PhpTruthy(s: string) {
    s != "" && s != "0"
  }
}
