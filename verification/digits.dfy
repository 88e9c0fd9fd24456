/** Decimal digit strings: `BigInt.prototype.toString()` for non-negative values, and
    the numeric value a digit string denotes. */
module Digits {

  function Pow10(k: nat): (r: nat)
    ensures r >= 1
  {
    if k == 0 then 1 else 10 * Pow10(k - 1)
  }

  /** Integer division of a natural number by a positive one, the quotient of `BigInt` division. */
  function Div(n: nat, d: nat): nat
    requires d >= 1
  {
    n / d
  }

  predicate IsDigit(c: char)
  {
    '0' <= c <= '9'
  }

  predicate IsDigits(s: string)
  {
    forall i :: 0 <= i < |s| ==> IsDigit(s[i])
  }

  function DigitChar(d: nat): (c: char)
    requires d < 10
    ensures IsDigit(c)
  {
    ('0' as int + d) as char
  }

  function DigitVal(c: char): (d: nat)
    requires IsDigit(c)
    ensures d < 10 && DigitChar(d) == c
  {
    c as int - '0' as int
  }

  /** `k` zero characters, the filler of `padStart(_, "0")`. */
  function Zeros(k: nat): (r: string)
    ensures |r| == k
    ensures forall i :: 0 <= i < k ==> r[i] == '0'
  {
    seq(k, _ => '0')
  }

  /** The number a digit string denotes, most significant digit first; leading zeros are allowed. */
  function Value(s: string): nat
    requires IsDigits(s)
    decreases |s|
  {
    if s == [] then 0 else Value(s[..|s| - 1]) * 10 + DigitVal(s[|s| - 1])
  }

  /** The shape `toString()` gives a non-negative integer: at least one digit, no leading zero unless it is `"0"`. */
  predicate Canonical(s: string)
  {
    |s| >= 1 && IsDigits(s) && (|s| == 1 || s[0] != '0')
  }

  /** Decimal representation of `n`, the `toString()` of a non-negative `BigInt`. */
  function Dec(n: nat): (r: string)
    ensures Canonical(r)
    ensures Value(r) == n
    ensures n >= 1 ==> r[0] != '0'
    decreases n
  {
    if n < 10 then
      [DigitChar(n)]
    else
      var p := Dec(n / 10);
      var r := p + [DigitChar(n % 10)];
      assert r[..|r| - 1] == p;
      r
  }

  lemma {:induction false} ValueOfLast(s: string, c: char)
    requires IsDigits(s) && IsDigit(c)
    ensures IsDigits(s + [c])
    ensures Value(s + [c]) == Value(s) * 10 + DigitVal(c)
  {
    assert (s + [c])[..|s|] == s;
  }

  /** Splitting a digit string: the prefix counts in units of `10^|f|`. */
  lemma {:induction false} ValueConcat(p: string, f: string)
    requires IsDigits(p) && IsDigits(f)
    ensures IsDigits(p + f)
    ensures Value(p + f) == Value(p) * Pow10(|f|) + Value(f)
    decreases |f|
  {
    if f == [] {
      assert p + f == p;
    } else {
      var g := f[..|f| - 1];
      var c := f[|f| - 1];
      assert f == g + [c];
      assert p + f == (p + g) + [c];
      ValueConcat(p, g);
      ValueOfLast(p + g, c);
      ValueOfLast(g, c);
      var vp, vg, k := Value(p), Value(g), Pow10(|g|);
      assert Value(p + f) == Value(p + g) * 10 + DigitVal(c);
      assert Value(p + g) == vp * k + vg;
      assert Pow10(|f|) == 10 * k;
      assert Value(f) == vg * 10 + DigitVal(c);
      Distribute(vp, k, vg, DigitVal(c));
    }
  }

  lemma Distribute(a: int, k: int, b: int, d: int)
    ensures (a * k + b) * 10 + d == a * (10 * k) + (b * 10 + d)
  {
  }

  /** A digit string of length `k` denotes less than `10^k`. */
  lemma {:induction false} ValueBound(s: string)
    requires IsDigits(s)
    ensures Value(s) < Pow10(|s|)
    decreases |s|
  {
    if s != [] {
      ValueBound(s[..|s| - 1]);
    }
  }

  lemma {:induction false} ValueZeros(k: nat)
    ensures IsDigits(Zeros(k))
    ensures Value(Zeros(k)) == 0
  {
    if k > 0 {
      ValueZeros(k - 1);
      assert Zeros(k)[..k - 1] == Zeros(k - 1);
    }
  }

  /** A digit string that does not start with `'0'` denotes a positive number. */
  lemma {:induction false} ValuePositive(s: string)
    requires IsDigits(s) && |s| >= 1 && s[0] != '0'
    ensures Value(s) >= 1
    decreases |s|
  {
    if |s| > 1 {
      ValuePositive(s[..|s| - 1]);
    }
  }

  /** `toString()` inverts `Value` on canonical digit strings. */
  lemma {:induction false} CanonicalIsDec(s: string)
    requires Canonical(s)
    ensures Dec(Value(s)) == s
    decreases |s|
  {
    if |s| > 1 {
      var t := s[..|s| - 1];
      var c := s[|s| - 1];
      assert s == t + [c];
      CanonicalIsDec(t);
      ValuePositive(t);
      ValueOfLast(t, c);
      var v := Value(s);
      assert v / 10 == Value(t) && v % 10 == DigitVal(c);
    }
  }

  /** Quotient and remainder are determined by any decomposition `a == q * m + r` with `0 <= r < m`. */
  lemma DivModOf(a: int, m: int, q: int, r: int)
    requires m > 0 && 0 <= r < m && a == q * m + r
    ensures a / m == q && a % m == r
  {
    var q', r' := a / m, a % m;
    assert a == q' * m + r';
    assert (q - q') * m == r' - r;
    if q > q' {
      assert (q - q') * m >= m by { MulMonotone(q - q', m); }
    } else if q < q' {
      assert (q' - q) * m >= m by { MulMonotone(q' - q, m); }
    }
  }

  lemma MulMonotone(k: int, m: int)
    requires k >= 1 && m > 0
    ensures k * m >= m
  {
  }
}
