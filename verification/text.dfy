/** String helpers shared by the stores and the calendar: decimal rendering
    of integers (JavaScript `String(n)` for safe integers), `padStart`,
    `slice(0, n)`, `trim`, and JavaScript's `<` on strings, which compares
    code units lexicographically. */
module Text {

  // ---------------------------------------------------------------------
  // Decimal digits
  // ---------------------------------------------------------------------

  predicate IsDigit(c: char) {
    '0' <= c <= '9'
  }

  predicate AllDigits(s: string) {
    forall i :: 0 <= i < |s| ==> IsDigit(s[i])
  }

  function DigitChar(v: nat): (c: char)
    requires v < 10
    ensures IsDigit(c)
  {
    (48 + v) as char
  }

  function DigitValue(c: char): (v: nat)
    requires IsDigit(c)
    ensures v < 10
    ensures DigitChar(v) == c
  {
    c as int - 48
  }

  function Pow10(w: nat): (p: nat)
    ensures p >= 1
  {
    if w == 0 then 1 else 10 * Pow10(w - 1)
  }

  /** Shortest decimal rendering of `n`, as `String(n)` gives it. */
  function NatToString(n: nat): (s: string)
    ensures |s| >= 1
    ensures AllDigits(s)
    ensures s[0] == '0' ==> n == 0
    decreases n
  {
    if n < 10 then [DigitChar(n)] else NatToString(n / 10) + [DigitChar(n % 10)]
  }

  /** `String(i)` for an integer: a leading '-' for negatives. */
  function IntToString(i: int): (s: string)
    ensures |s| >= 1
    ensures s[0] == '-' <==> i < 0
    ensures i < 0 ==> AllDigits(s[1..])
  {
    if i < 0 then "-" + NatToString(-i) else NatToString(i)
  }

  /** Reads a run of decimal digits back as a number. */
  function ParseNat(s: string): nat
    requires AllDigits(s)
    decreases |s|
  {
    if |s| == 0 then 0 else 10 * ParseNat(s[..|s| - 1]) + DigitValue(s[|s| - 1])
  }

  lemma {:induction false} ParseNatToString(n: nat)
    ensures ParseNat(NatToString(n)) == n
    decreases n
  {
    var s := NatToString(n);
    if n >= 10 {
      ParseNatToString(n / 10);
      assert s[..|s| - 1] == NatToString(n / 10);
    }
  }

  /** The last `w` decimal digits of `x`, zero-padded to width `w`. */
  function Digits(x: nat, w: nat): (s: string)
    ensures |s| == w
    ensures AllDigits(s)
  {
    if w == 0 then [] else Digits(x / 10, w - 1) + [DigitChar(x % 10)]
  }

  /** Reading a fixed-width digit string back gives the number. */
  lemma {:induction false} ParseNatDigits(x: nat, w: nat)
    requires x < Pow10(w)
    ensures ParseNat(Digits(x, w)) == x
    decreases w
  {
    if w > 0 {
      var s := Digits(x, w);
      assert s[..w - 1] == Digits(x / 10, w - 1);
      ParseNatDigits(x / 10, w - 1);
    }
  }

  /** A number with exactly `w` digits prints as its `w`-digit form. */
  lemma {:induction false} NatToStringHasWidth(n: nat, w: nat)
    requires 1 <= w
    requires (if w == 1 then 0 else Pow10(w - 1)) <= n < Pow10(w)
    ensures NatToString(n) == Digits(n, w)
    decreases w
  {
    if w > 1 {
      assert n >= 10;
      NatToStringHasWidth(n / 10, w - 1);
    }
  }

  /** `s.padStart(n, c)`: prefix copies of `c` until the length reaches `n`. */
  function PadStart(s: string, n: nat, c: char): (r: string)
    ensures |r| == if |s| >= n then |s| else n
    ensures r[|r| - |s|..] == s
    ensures forall i :: 0 <= i < |r| - |s| ==> r[i] == c
  {
    if |s| >= n then s else seq(n - |s|, _ => c) + s
  }

  /** `String(x).padStart(2, '0')`. */
  function Pad2(x: nat): string {
    PadStart(NatToString(x), 2, '0')
  }

  lemma Pad2IsDigits(x: nat)
    requires x < 100
    ensures Pad2(x) == Digits(x, 2)
  {
    if x < 10 {
      assert NatToString(x) == [DigitChar(x)];
    } else {
      NatToStringHasWidth(x, 2);
    }
  }

  // ---------------------------------------------------------------------
  // JavaScript string comparison
  // ---------------------------------------------------------------------

  /** JavaScript `a < b` on strings: lexicographic by character, a proper
      prefix sorting first. JavaScript compares UTF-16 code units; the two
      orders agree on the ASCII date strings this is applied to. */
  predicate Less(a: string, b: string)
    decreases |a|
  {
    if |a| == 0 then |b| > 0
    else if |b| == 0 then false
    else if a[0] != b[0] then a[0] < b[0]
    else Less(a[1..], b[1..])
  }

  /** Comparing two strings that start with equal-length heads: the heads
      decide unless they are equal, then the tails decide. */
  lemma {:induction false} LessAppend(p: string, s: string, q: string, t: string)
    requires |p| == |q|
    ensures Less(p + s, q + t) == if p == q then Less(s, t) else Less(p, q)
    decreases |p|
  {
    if |p| > 0 {
      assert (p + s)[1..] == p[1..] + s;
      assert (q + t)[1..] == q[1..] + t;
      LessAppend(p[1..], s, q[1..], t);
      if p[0] == q[0] && p[1..] == q[1..] {
        assert p == q;
      }
    } else {
      assert p + s == s && q + t == t;
    }
  }

  /** Fixed-width digit strings compare like the numbers they spell. */
  lemma {:induction false} DigitsOrder(x: nat, y: nat, w: nat)
    requires x < Pow10(w) && y < Pow10(w)
    ensures Less(Digits(x, w), Digits(y, w)) <==> x < y
    ensures Digits(x, w) == Digits(y, w) <==> x == y
    decreases w
  {
    if w > 0 {
      var px, py := Digits(x / 10, w - 1), Digits(y / 10, w - 1);
      DigitsOrder(x / 10, y / 10, w - 1);
      LessAppend(px, [DigitChar(x % 10)], py, [DigitChar(y % 10)]);
      assert Digits(x, w) == px + [DigitChar(x % 10)];
      assert Digits(y, w) == py + [DigitChar(y % 10)];
      if Digits(x, w) == Digits(y, w) {
        assert DigitChar(x % 10) == Digits(x, w)[w - 1] == DigitChar(y % 10);
        assert DigitValue(DigitChar(x % 10)) == x % 10;
        assert px == Digits(x, w)[..w - 1];
      }
    }
  }

  // ---------------------------------------------------------------------
  // slice, trim, counting
  // ---------------------------------------------------------------------

  /** `s.slice(0, n)`. */
  function Take(s: string, n: nat): (r: string)
    ensures |r| == if |s| <= n then |s| else n
    ensures r == s[..|r|]
  {
    if |s| <= n then s else s[..n]
  }

  /** The characters `String.prototype.trim` strips: the ECMAScript
      WhiteSpace and LineTerminator code points. */
  predicate IsJsSpace(c: char) {
    c == ' ' || c == '\t' || c == '\n' || c == '\r' || c == '\U{B}' || c == '\U{C}'
    || c == '\U{A0}' || c == '\U{1680}' || ('\U{2000}' <= c <= '\U{200A}')
    || c == '\U{2028}' || c == '\U{2029}' || c == '\U{202F}' || c == '\U{205F}'
    || c == '\U{3000}' || c == '\U{FEFF}'
  }

  predicate AllSpace(s: string) {
    forall i :: 0 <= i < |s| ==> IsJsSpace(s[i])
  }

  /** How many white-space characters `s` starts with. */
  function LeadingSpace(s: string): (n: nat)
    ensures n <= |s|
    ensures forall i :: 0 <= i < n ==> IsJsSpace(s[i])
    ensures n < |s| ==> !IsJsSpace(s[n])
    decreases |s|
  {
    if |s| > 0 && IsJsSpace(s[0]) then 1 + LeadingSpace(s[1..]) else 0
  }

  function TrimStart(s: string): (r: string)
    ensures |r| <= |s| && r == s[|s| - |r|..]
    ensures AllSpace(s[..|s| - |r|])
    ensures |r| > 0 ==> !IsJsSpace(r[0])
    ensures r == [] <==> AllSpace(s)
  {
    var n := LeadingSpace(s);
    assert forall i :: 0 <= i < n ==> s[..n][i] == s[i];
    s[n..]
  }

  /** How many white-space characters `s` ends with. */
  function TrailingSpace(s: string): (n: nat)
    ensures n <= |s|
    ensures forall i :: |s| - n <= i < |s| ==> IsJsSpace(s[i])
    ensures n < |s| ==> !IsJsSpace(s[|s| - n - 1])
    decreases |s|
  {
    if |s| > 0 && IsJsSpace(s[|s| - 1]) then 1 + TrailingSpace(s[..|s| - 1]) else 0
  }

  function TrimEnd(s: string): (r: string)
    ensures |r| <= |s| && r == s[..|r|]
    ensures AllSpace(s[|r|..])
    ensures |r| > 0 ==> !IsJsSpace(r[|r| - 1])
    ensures r == [] <==> AllSpace(s)
  {
    var k := |s| - TrailingSpace(s);
    assert forall i :: 0 <= i < |s| - k ==> s[k..][i] == s[k + i];
    s[..k]
  }

  /** `s.trim()`: white space removed from both ends, nothing else. */
  function Trim(s: string): (r: string)
    ensures |r| <= |s|
    ensures r == [] <==> AllSpace(s)
    ensures |r| > 0 ==> !IsJsSpace(r[0]) && !IsJsSpace(r[|r| - 1])
    ensures Strips(s, r)
  {
    var a := TrimStart(s);
    var r := TrimEnd(a);
    assert |r| > 0 ==> r[0] == a[0];
    StripsBothEnds(s, a, r);
    r
  }

  /** `r` is `s` with white space, and only white space, cut from its two
      ends. */
  predicate Strips(s: string, r: string) {
    exists i, j :: 0 <= i <= j <= |s| && r == s[i..j] && AllSpace(s[..i]) && AllSpace(s[j..])
  }

  lemma StripsBothEnds(s: string, a: string, r: string)
    requires a == TrimStart(s) && r == TrimEnd(a)
    ensures Strips(s, r)
  {
    var i := |s| - |a|;
    var j := i + |r|;
    assert r == s[i..j];
    assert s[j..] == a[|r|..];
  }

  /** Trimming a trimmed string changes nothing. */
  lemma TrimIdempotent(s: string)
    ensures Trim(Trim(s)) == Trim(s)
  {
  }
}
