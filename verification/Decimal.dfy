/** Decimal numerals: parsing, printing, zero padding, and their agreement with text order. */
module Decimal {

  predicate IsDigit(c: char) { '0' <= c <= '9' }

  predicate AllDigits(s: string) { forall i :: 0 <= i < |s| ==> IsDigit(s[i]) }

  function Value(c: char): nat
    requires IsDigit(c)
  {
    c as int - '0' as int
  }

  function Digit(d: nat): char
    requires d < 10
  {
    ('0' as int + d) as char
  }

  function Pow10(n: nat): nat { if n == 0 then 1 else 10 * Pow10(n - 1) }

  /** `int(s)` for a string of ASCII digits. */
  function Parse(s: string): nat
    requires AllDigits(s)
  {
    if s == [] then 0 else Value(s[0]) * Pow10(|s| - 1) + Parse(s[1..])
  }

  /** `str(n)`. */
  function Print(n: nat): string {
    if n < 10 then [Digit(n)] else Print(n / 10) + [Digit(n % 10)]
  }

  function Zeros(n: nat): string { seq(n, _ => '0') }

  /** `f"{n:0{width}d}"`: zeros in front up to the width, never truncated. */
  function Padded(n: nat, width: nat): string {
    var digits := Print(n);
    if |digits| >= width then digits else Zeros(width - |digits|) + digits
  }

  lemma {:induction false} ParseBound(s: string)
    requires AllDigits(s)
    ensures Parse(s) < Pow10(|s|)
  {
    if s != [] {
      ParseBound(s[1..]);
      Times(Value(s[0]), 9, Pow10(|s| - 1));
    }
  }

  lemma Times(a: nat, b: nat, p: nat)
    requires a <= b
    ensures a * p <= b * p
  {
  }

  lemma TimesTen(d: nat, p: nat, q: nat)
    requires q == 10 * p
    ensures d * q == 10 * (d * p)
  {
  }

  lemma {:induction false} ParseAppend(s: string, c: char)
    requires AllDigits(s) && IsDigit(c)
    ensures AllDigits(s + [c]) && Parse(s + [c]) == 10 * Parse(s) + Value(c)
  {
    if s == [] {
      assert s + [c] == [c] && [c][1..] == [];
      assert Parse([c]) == Value(c) * Pow10(0) + Parse([]);
    } else {
      assert (s + [c])[1..] == s[1..] + [c];
      ParseAppend(s[1..], c);
      TimesTen(Value(s[0]), Pow10(|s| - 1), Pow10(|s|));
    }
  }

  lemma {:induction false} PrintDigits(n: nat)
    ensures AllDigits(Print(n)) && Print(n) != [] && Parse(Print(n)) == n
  {
    if n < 10 {
      assert Print(n)[1..] == [];
      assert Pow10(0) == 1;
    } else {
      PrintDigits(n / 10);
      ParseAppend(Print(n / 10), Digit(n % 10));
    }
  }

  lemma {:induction false} PrintLength(n: nat, width: nat)
    requires n < Pow10(width) && width > 0
    ensures |Print(n)| <= width
    decreases width
  {
    if n >= 10 {
      assert width > 1 by { assert Pow10(1) == 10 * Pow10(0); }
      assert n / 10 < Pow10(width - 1);
      PrintLength(n / 10, width - 1);
    }
  }

  lemma {:induction false} ParseZeros(k: nat, s: string)
    requires AllDigits(s)
    ensures AllDigits(Zeros(k) + s) && Parse(Zeros(k) + s) == Parse(s)
    decreases k
  {
    if k == 0 {
      assert Zeros(k) + s == s;
    } else {
      var t := Zeros(k) + s;
      assert t[0] == '0' && t[1..] == Zeros(k - 1) + s;
      ParseZeros(k - 1, s);
      assert Value('0') == 0;
      assert 0 * Pow10(|t| - 1) == 0;
    }
  }

  /** Padded printing yields width digits that parse back to the number. */
  lemma PaddedParses(n: nat, width: nat)
    requires n < Pow10(width) && width > 0
    ensures AllDigits(Padded(n, width)) && |Padded(n, width)| == width && Parse(Padded(n, width)) == n
  {
    PrintDigits(n);
    PrintLength(n, width);
    ParseZeros(width - |Print(n)|, Print(n));
    assert Zeros(0) + Print(n) == Print(n);
  }

  // ---------------------------------------------------------------------------------------------
  // Text order.
  // ---------------------------------------------------------------------------------------------

  predicate LexLess(a: string, b: string) {
    b != [] && (a == [] || a[0] < b[0] || (a[0] == b[0] && LexLess(a[1..], b[1..])))
  }

  predicate LexAtMost(a: string, b: string) { a == b || LexLess(a, b) }

  lemma {:induction false} LexPrefix(p: string, a: string, b: string)
    ensures LexLess(p + a, p + b) <==> LexLess(a, b)
  {
    if p == [] {
      assert p + a == a && p + b == b;
    } else {
      assert (p + a)[1..] == p[1..] + a && (p + b)[1..] == p[1..] + b;
      LexPrefix(p[1..], a, b);
    }
  }

  /** On digit strings of one length, text order is number order. */
  lemma {:induction false} LexIsNumeric(a: string, b: string)
    requires AllDigits(a) && AllDigits(b) && |a| == |b|
    ensures LexLess(a, b) <==> Parse(a) < Parse(b)
    ensures Parse(a) == Parse(b) <==> a == b
  {
    if a != [] {
      LexIsNumeric(a[1..], b[1..]);
      ParseBound(a[1..]);
      ParseBound(b[1..]);
      var p := Pow10(|a| - 1);
      if a[0] < b[0] {
        HeadDecides(Value(a[0]), Value(b[0]), p);
      } else if b[0] < a[0] {
        HeadDecides(Value(b[0]), Value(a[0]), p);
      } else {
        assert a == [a[0]] + a[1..] && b == [b[0]] + b[1..];
      }
    }
  }

  lemma HeadDecides(d: nat, e: nat, p: nat)
    requires d < e
    ensures d * p + p <= e * p
  {
    Times(d + 1, e, p);
    assert (d + 1) * p == d * p + p;
  }
}
