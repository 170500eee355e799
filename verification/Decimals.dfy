/** Decimal numerals as strings: what `std::to_string` prints, and the two orders that agree on equal lengths. */
module Decimals {

  predicate IsDigits(s: string) { forall i :: 0 <= i < |s| ==> '0' <= s[i] <= '9' }

  function Digit(c: char): int { c as int - '0' as int }

  /** The value of a numeral, most significant digit first. */
  function Val(s: string): (v: int)
    requires IsDigits(s)
    ensures v >= 0
    decreases |s|
  {
    if s == [] then 0 else 10 * Val(s[..|s| - 1]) + Digit(s[|s| - 1])
  }

  function DigitChar(d: int): (c: char)
    requires 0 <= d <= 9
    ensures '0' <= c <= '9' && Digit(c) == d
  {
    '0' + d as char
  }

  /** `std::to_string` of a number that is not negative. */
  function Decimal(v: nat): (s: string)
    ensures s != [] && IsDigits(s) && (|s| > 1 ==> s[0] != '0')
  {
    if v < 10 then [DigitChar(v)] else Decimal(v / 10) + [DigitChar(v % 10)]
  }

  /** No leading zero, except for zero itself. */
  predicate IsCanonical(s: string) { s != [] && IsDigits(s) && (|s| > 1 ==> s[0] != '0') }

  lemma {:induction false} ValDecimal(v: nat)
    ensures Val(Decimal(v)) == v
  {
    var s := Decimal(v);
    if v >= 10 {
      ValDecimal(v / 10);
      assert s[..|s| - 1] == Decimal(v / 10);
    } else {
      assert s[..0] == [];
    }
  }

  lemma DecimalStep(v: nat, d: nat)
    requires v >= 1 && d <= 9
    ensures Decimal(10 * v + d) == Decimal(v) + [DigitChar(d)]
  {
    assert (10 * v + d) / 10 == v && (10 * v + d) % 10 == d;
  }

  lemma {:induction false} DecimalVal(s: string)
    requires IsCanonical(s)
    ensures Decimal(Val(s)) == s
    decreases |s|
  {
    var t := s[..|s| - 1];
    if t == [] {
      assert s == [DigitChar(Digit(s[0]))];
    } else {
      DecimalVal(t);
      NonZero(t);
      assert s == t + [s[|s| - 1]];
      DecimalStep(Val(t), Digit(s[|s| - 1]));
    }
  }

  lemma NonZero(s: string)
    requires IsDigits(s) && s != [] && s[0] != '0'
    ensures Val(s) >= 1
    decreases |s|
  {
    if |s| > 1 {
      NonZero(s[..|s| - 1]);
    }
  }

  /** Lexicographic order. */
  predicate Leq(a: string, b: string)
    requires |a| == |b|
  {
    a == [] || a[0] < b[0] || (a[0] == b[0] && Leq(a[1..], b[1..]))
  }

  lemma {:induction false} LeqSnoc(a: string, b: string, x: char, y: char)
    requires |a| == |b|
    ensures Leq(a + [x], b + [y]) <==> if a == b then x <= y else Leq(a, b)
  {
    var a', b' := a + [x], b + [y];
    if a == [] {
      assert a'[1..] == [] && b'[1..] == [];
    } else {
      assert a'[1..] == a[1..] + [x] && b'[1..] == b[1..] + [y];
      LeqSnoc(a[1..], b[1..], x, y);
      assert a == [a[0]] + a[1..] && b == [b[0]] + b[1..];
    }
  }

  /** On numerals of equal length the lexicographic order is the order of the values. */
  lemma {:induction false} LeqVal(a: string, b: string)
    requires |a| == |b| && IsDigits(a) && IsDigits(b)
    ensures Leq(a, b) <==> Val(a) <= Val(b)
    ensures a == b <==> Val(a) == Val(b)
    decreases |a|
  {
    if a != [] {
      var a', b', x, y := a[..|a| - 1], b[..|b| - 1], a[|a| - 1], b[|b| - 1];
      assert a == a' + [x] && b == b' + [y];
      LeqSnoc(a', b', x, y);
      LeqVal(a', b');
    }
  }

  /** A shorter numeral is smaller. */
  lemma {:induction false} ShorterIsLess(a: string, b: string)
    requires |a| < |b| && IsDigits(a) && IsDigits(b) && b[0] != '0'
    ensures Val(a) < Val(b)
    decreases |a|
  {
    if a == [] {
      NonZero(b);
    } else {
      ShorterIsLess(a[..|a| - 1], b[..|b| - 1]);
    }
  }

  /** `string_repeat`. */
  function Repeat(c: char, n: nat): (s: string)
    ensures |s| == n && forall i :: 0 <= i < n ==> s[i] == c
  {
    seq(n, _ => c)
  }

  lemma {:induction false} ZerosLeast(s: string)
    requires IsDigits(s)
    ensures Leq(Repeat('0', |s|), s)
    decreases |s|
  {
    if s != [] {
      assert Repeat('0', |s|)[1..] == Repeat('0', |s| - 1);
      ZerosLeast(s[1..]);
    }
  }

  lemma {:induction false} NinesGreatest(s: string)
    requires IsDigits(s)
    ensures Leq(s, Repeat('9', |s|))
    decreases |s|
  {
    if s != [] {
      assert Repeat('9', |s|)[1..] == Repeat('9', |s| - 1);
      NinesGreatest(s[1..]);
    }
  }

  lemma {:induction false} LeqAntisymmetric(a: string, b: string)
    requires |a| == |b| && Leq(a, b) && Leq(b, a)
    ensures a == b
  {
    if a != [] {
      LeqAntisymmetric(a[1..], b[1..]);
      assert a == [a[0]] + a[1..] && b == [b[0]] + b[1..];
    }
  }
}
