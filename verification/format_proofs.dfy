/** What `fmt` computes: the grouping of the integer part, the truncated fraction, and
    the behaviour of the slice arithmetic for small `dec`. */
module FormatProofs {
  import opened Digits
  import opened Format

  /* ---------- thousands grouping ---------- */

  lemma {:induction false} StripCommasConcat(a: string, b: string)
    ensures StripCommas(a + b) == StripCommas(a) + StripCommas(b)
    decreases |a|
  {
    if a != [] {
      assert (a + b)[0] == a[0];
      assert (a + b)[1..] == a[1..] + b;
      StripCommasConcat(a[1..], b);
    } else {
      assert a + b == b;
    }
  }

  lemma {:induction false} StripCommasOfDigits(s: string)
    requires IsDigits(s)
    ensures StripCommas(s) == s
    decreases |s|
  {
    if s != [] {
      StripCommasOfDigits(s[1..]);
    }
  }

  /** Commas sit exactly at every fourth position counted from the right end. */
  predicate CommaLayout(g: string)
  {
    forall i :: 0 <= i < |g| ==> (g[i] == ',' <==> (|g| - i) % 4 == 0)
  }

  /** Every character that is not a comma is a digit. */
  predicate DigitsOrCommas(g: string)
  {
    forall i :: 0 <= i < |g| && g[i] != ',' ==> IsDigit(g[i])
  }

  /** `g` is the digit string `s` with a comma before every block of three digits counted from
      the right; the leading block holds one to three digits, so `g` never starts with a comma. */
  predicate GroupedFrom(g: string, s: string)
  {
    StripCommas(g) == s && CommaLayout(g) && DigitsOrCommas(g) && (g == [] || g[0] != ',')
  }

  /** Grouping a digit string only inserts commas, laid out as `GroupedFrom` describes. */
  lemma GroupLayout(s: string)
    requires IsDigits(s)
    ensures GroupedFrom(Group(s), s)
  {
    GroupKeepsDigits(s);
    GroupCommas(s);
  }

  lemma {:induction false} GroupKeepsDigits(s: string)
    requires IsDigits(s)
    ensures StripCommas(Group(s)) == s
    decreases |s|
  {
    if |s| <= 3 {
      StripCommasOfDigits(s);
    } else {
      var t, tail := s[..|s| - 3], s[|s| - 3..];
      GroupKeepsDigits(t);
      StripBlock(Group(t), tail);
      assert s == t + tail;
    }
  }

  /** Removing the commas from a grouped prefix, a comma and a block of digits. */
  lemma StripBlock(g: string, tail: string)
    requires IsDigits(tail)
    ensures StripCommas(g + [','] + tail) == StripCommas(g) + tail
  {
    StripCommasConcat(g + [','], tail);
    StripCommasConcat(g, [',']);
    StripCommasOfDigits(tail);
  }

  lemma {:induction false} GroupCommas(s: string)
    requires IsDigits(s)
    ensures CommaLayout(Group(s)) && DigitsOrCommas(Group(s))
    ensures Group(s) == [] || Group(s)[0] != ','
    ensures s != [] ==> Group(s) != []
    decreases |s|
  {
    if |s| <= 3 {
      forall i | 0 <= i < |s|
        ensures s[i] != ',' && (|s| - i) % 4 != 0
      {
        assert IsDigit(s[i]);
      }
    } else {
      var t, tail := s[..|s| - 3], s[|s| - 3..];
      GroupCommas(t);
      LayoutStep(Group(t), tail);
      assert Group(s) == Group(t) + [','] + tail;
    }
  }

  /** Appending a comma and a block of three digits keeps the layout. */
  lemma LayoutStep(g: string, tail: string)
    requires CommaLayout(g) && DigitsOrCommas(g) && g != [] && g[0] != ','
    requires |tail| == 3 && IsDigits(tail)
    ensures var h := g + [','] + tail;
            CommaLayout(h) && DigitsOrCommas(h) && h[0] != ','
  {
    var h := g + [','] + tail;
    forall i | 0 <= i < |h|
      ensures (h[i] == ',' <==> (|h| - i) % 4 == 0) && (h[i] != ',' ==> IsDigit(h[i]))
    {
      if i < |g| {
        assert (|g| + 4 - i) % 4 == (|g| - i) % 4;
        assert h[i] == g[i];
      } else if i > |g| {
        assert h[i] == tail[i - |g| - 1];
      }
    }
  }

  /** One step of the left-to-right reading. */
  lemma RegexStep(s: string, i: nat)
    requires i < |s|
    ensures RegexCommasFrom(s, i) == (if CommaBefore(|s|, i) then [','] else []) + [s[i]] + RegexCommasFrom(s, i + 1)
  {
  }

  lemma {:induction false} RegexCommasShort(s: string, i: nat)
    requires i <= |s| <= 3
    ensures RegexCommasFrom(s, i) == s[i..]
    decreases |s| - i
  {
    if i < |s| {
      RegexCommasShort(s, i + 1);
    }
  }

  /** No comma goes before either of the last two digits. */
  lemma {:induction false} RegexCommasTail(s: string, i: nat)
    requires |s| - 2 <= i <= |s|
    ensures RegexCommasFrom(s, i) == s[i..]
    decreases |s| - i
  {
    if i < |s| {
      RegexStep(s, i);
      assert !CommaBefore(|s|, i);
      RegexCommasTail(s, i + 1);
      assert s[i..] == [s[i]] + s[i + 1..];
    }
  }

  /** The last three digits of a longer string read as a comma and the three digits. */
  lemma RegexCommasLastBlock(s: string)
    requires |s| > 3
    ensures RegexCommasFrom(s, |s| - 3) == [','] + s[|s| - 3..]
  {
    var i := |s| - 3;
    RegexStep(s, i);
    CommaBeforeLastBlock(|s|);
    RegexCommasTail(s, i + 1);
    ConsShape(s[i..], s[i], s[i + 1..]);
  }

  lemma CommaBeforeLastBlock(len: nat)
    requires len > 3
    ensures CommaBefore(len, len - 3)
  {
  }

  lemma ConsShape<T>(x: seq<T>, h: T, y: seq<T>)
    requires |x| >= 1 && x[0] == h && x[1..] == y
    ensures x == [h] + y
  {
  }

  /** Reading the regular expression left to right, the last block of three splits off. */
  lemma {:induction false} RegexCommasSplit(s: string, i: nat)
    requires |s| > 3 && i <= |s| - 3
    ensures RegexCommasFrom(s, i) == RegexCommasFrom(s[..|s| - 3], i) + [','] + s[|s| - 3..]
    decreases |s| - i
  {
    if i == |s| - 3 {
      RegexCommasLastBlock(s);
      assert RegexCommasFrom(s[..|s| - 3], i) == [];
    } else {
      RegexCommasSplit(s, i + 1);
      RegexSplitStep(s, i);
    }
  }

  lemma RegexSplitStep(s: string, i: nat)
    requires |s| > 3 && i < |s| - 3
    requires RegexCommasFrom(s, i + 1) == RegexCommasFrom(s[..|s| - 3], i + 1) + [','] + s[|s| - 3..]
    ensures RegexCommasFrom(s, i) == RegexCommasFrom(s[..|s| - 3], i) + [','] + s[|s| - 3..]
  {
    var t := s[..|s| - 3];
    var c := if CommaBefore(|s|, i) then [','] else [];
    RegexStep(s, i);
    RegexStepCut(s, i);
    assert RegexCommasFrom(s, i) == c + [s[i]] + (RegexCommasFrom(t, i + 1) + [','] + s[|s| - 3..]);
  }

  /** The step at `i` reads the same in `s` and in `s` without its last three digits. */
  lemma RegexStepCut(s: string, i: nat)
    requires |s| > 3 && i < |s| - 3
    ensures var t := s[..|s| - 3];
            RegexCommasFrom(t, i) == (if CommaBefore(|s|, i) then [','] else []) + [s[i]] + RegexCommasFrom(t, i + 1)
  {
    RegexStep(s[..|s| - 3], i);
    assert CommaBefore(|s|, i) == CommaBefore(|s| - 3, i);
  }

  /** The right-to-left grouping inserts exactly the commas the replacement
      `/\B(?=(\d{3})+(?!\d))/g` of app.js inserts. */
  lemma {:induction false} GroupIsRegex(s: string)
    ensures Group(s) == RegexCommas(s)
    decreases |s|
  {
    if |s| <= 3 {
      RegexCommasShort(s, 0);
    } else {
      GroupIsRegex(s[..|s| - 3]);
      RegexCommasSplit(s, 0);
    }
  }

  /* ---------- the digits `fmt` cuts ---------- */

  /** The padded string denotes `bi`, has at least `dec + 1` digits, and starts with a
      padding zero whenever padding was needed. */
  lemma PaddedFacts(bi: nat, dec: nat)
    ensures IsDigits(Padded(bi, dec)) && Value(Padded(bi, dec)) == bi
    ensures |Padded(bi, dec)| >= dec + 1
    ensures |Dec(bi)| >= dec + 1 ==> Padded(bi, dec) == Dec(bi)
    ensures |Dec(bi)| < dec + 1 ==> |Padded(bi, dec)| == dec + 1 && Padded(bi, dec)[0] == '0'
  {
    var d := Dec(bi);
    if |d| < dec + 1 {
      var z := Zeros(dec + 1 - |d|);
      ValueZeros(|z|);
      ValueConcat(z, d);
      assert Padded(bi, dec) == z + d;
    }
  }

  /** Cutting `k` digits off the right divides by `10^k`; the cut-off digits denote the remainder. */
  lemma SplitDigits(s: string, k: nat)
    requires IsDigits(s) && k <= |s|
    ensures IsDigits(s[..|s| - k]) && IsDigits(s[|s| - k..])
    ensures Value(s[..|s| - k]) == Value(s) / Pow10(k)
    ensures Value(s[|s| - k..]) == Value(s) % Pow10(k)
  {
    SplitValue(s, k);
    DivModOf(Value(s), Pow10(k), Value(s[..|s| - k]), Value(s[|s| - k..]));
  }

  /** The digits left of the cut count in units of `10^k`, the `k` digits right of it less than that. */
  lemma SplitValue(s: string, k: nat)
    requires IsDigits(s) && k <= |s|
    ensures IsDigits(s[..|s| - k]) && IsDigits(s[|s| - k..])
    ensures Value(s) == Value(s[..|s| - k]) * Pow10(k) + Value(s[|s| - k..])
    ensures Value(s[|s| - k..]) < Pow10(k)
  {
    var p, f := s[..|s| - k], s[|s| - k..];
    CutParts(s, k);
    ValueOfParts(s, p, f);
    ValueBound(f);
  }

  lemma CutParts(s: string, k: nat)
    requires IsDigits(s) && k <= |s|
    ensures IsDigits(s[..|s| - k]) && IsDigits(s[|s| - k..])
    ensures s == s[..|s| - k] + s[|s| - k..]
  {
  }

  lemma ValueOfParts(s: string, p: string, f: string)
    requires IsDigits(p) && IsDigits(f) && s == p + f
    ensures IsDigits(s) && Value(s) == Value(p) * Pow10(|f|) + Value(f)
  {
    ValueConcat(p, f);
  }

  /** The digits left of position `|s| - dec` are exactly `toString()` of `bi / 10^dec`. */
  lemma IntegerDigits(bi: nat, dec: nat)
    ensures var s := Padded(bi, dec); s[..|s| - dec] == Dec(Div(bi, Pow10(dec)))
  {
    var s := Padded(bi, dec);
    PaddedFacts(bi, dec);
    SplitDigits(s, dec);
    var p := s[..|s| - dec];
    assert Canonical(p) by {
      if |Dec(bi)| >= dec + 1 && |p| > 1 {
        assert p[0] == Dec(bi)[0];
      }
    }
    CanonicalIsDec(p);
  }

  /** The leading `n` of the `dec` fractional digits of `bi / 10^dec`, read as a number. */
  function Lead(bi: nat, dec: nat, n: nat): nat
    requires n <= dec
  {
    Div(bi % Pow10(dec), Pow10(dec - n))
  }

  /** The `n` digits right of position `|s| - dec` are the leading `n` of the `dec` fractional digits. */
  lemma FractionDigits(bi: nat, dec: nat, n: nat)
    requires n <= dec
    ensures var s := Padded(bi, dec); IsDigits(s[|s| - dec..|s| - dec + n])
    ensures var s := Padded(bi, dec);
              Value(s[|s| - dec..|s| - dec + n]) == Lead(bi, dec, n)
  {
    FractionTail(bi, dec);
    LeadDigits(Padded(bi, dec), dec, n, bi % Pow10(dec));
  }

  /** The first `n` of the last `dec` digits denote their value divided by `10^(dec - n)`. */
  lemma LeadDigits(s: string, dec: nat, n: nat, m: nat)
    requires n <= dec <= |s| && IsDigits(s[|s| - dec..]) && Value(s[|s| - dec..]) == m
    ensures IsDigits(s[|s| - dec..|s| - dec + n])
    ensures Value(s[|s| - dec..|s| - dec + n]) == m / Pow10(dec - n)
  {
    var f := s[|s| - dec..];
    var t := f[..|f| - (dec - n)];
    assert IsDigits(t) && Value(t) == m / Pow10(dec - n) by {
      SplitDigits(f, dec - n);
    }
    assert t == s[|s| - dec..|s| - dec + n];
  }

  /** The last `dec` digits of the padded string denote `bi mod 10^dec`. */
  lemma FractionTail(bi: nat, dec: nat)
    ensures var s := Padded(bi, dec);
            |s| >= dec + 1 && IsDigits(s[|s| - dec..]) && Value(s[|s| - dec..]) == bi % Pow10(dec)
  {
    PaddedFacts(bi, dec);
    SplitDigits(Padded(bi, dec), dec);
  }

  /** Stripping trailing zeros keeps digits and can be undone by padding zeros on the right. */
  lemma StripKeepsDigits(t: string)
    requires IsDigits(t)
    ensures IsDigits(StripTrailingZeros(t))
  {
    var f := StripTrailingZeros(t);
    forall i | 0 <= i < |f|
      ensures IsDigit(f[i])
    {
      assert f[i] == (f + Zeros(|t| - |f|))[i];
    }
  }

  /* ---------- fmt as written ---------- */

  /** With `dec >= 1` the integer part of `fmt` is the decimal string of `bi / 10^dec`,
      with a comma before every block of three digits counted from the right. */
  lemma FmtIntegerPart(bi: nat, dec: nat)
    requires dec >= 1
    ensures Whole(bi, dec) == Group(Dec(Div(bi, Pow10(dec))))
    ensures GroupedFrom(Whole(bi, dec), Dec(Div(bi, Pow10(dec))))
    ensures Whole(bi, dec) != []
  {
    var s := Padded(bi, dec);
    var q := Dec(Div(bi, Pow10(dec)));
    assert Slice(s, 0, -(dec as int)) == q by {
      PaddedFacts(bi, dec);
      assert Slice(s, 0, -(dec as int)) == s[..|s| - dec];
      IntegerDigits(bi, dec);
    }
    GroupLayout(q);
    GroupCommas(q);
  }

  /** With `dec` of 1 or 2, `slice(-dec, -dec + 2)` ends at or before its start: no fraction. */
  lemma SmallDecFraction(bi: nat, dec: nat)
    requires 1 <= dec <= 2
    ensures Fraction(bi, dec) == []
  {
    var s := Padded(bi, dec);
    assert |s| >= dec + 1 by {
      PaddedFacts(bi, dec);
    }
    assert Slice(s, -(dec as int), -(dec as int) + 2) == [];
  }

  /** With `dec >= 3` the fraction is the first two of the `dec` fractional digits, truncated. */
  lemma LargeDecFraction(bi: nat, dec: nat)
    requires dec >= 3
    ensures Truncated(Fraction(bi, dec), 2, Lead(bi, dec, 2))
  {
    LargeDecSlice(bi, dec);
    StrippedDigits(bi, dec, 2);
  }

  /** With `dec >= 3`, `slice(-dec, -dec + 2)` is the two digits right of position `|s| - dec`. */
  lemma LargeDecSlice(bi: nat, dec: nat)
    requires dec >= 3
    ensures var s := Padded(bi, dec);
            |s| >= dec + 1 && Fraction(bi, dec) == StripTrailingZeros(s[|s| - dec..|s| - dec + 2])
  {
    var s := Padded(bi, dec);
    PaddedFacts(bi, dec);
    assert Slice(s, -(dec as int), -(dec as int) + 2) == s[|s| - dec..|s| - dec + 2];
  }

  /** `f` is a run of at most `n` digits without a trailing zero that, padded back to `n`
      digits with zeros, denotes `v`: the first `n` fractional digits of an amount, truncated. */
  predicate Truncated(f: string, n: nat, v: int)
  {
    |f| <= n && IsDigits(f) && (f == [] || f[|f| - 1] != '0') && Value(f + Zeros(n - |f|)) == v
  }

  /** Stripping the trailing zeros of the leading `n` fractional digits. */
  lemma StrippedDigits(bi: nat, dec: nat, n: nat)
    requires n <= dec
    ensures var s := Padded(bi, dec);
            Truncated(StripTrailingZeros(s[|s| - dec..|s| - dec + n]), n, Lead(bi, dec, n))
  {
    var s := Padded(bi, dec);
    var t := s[|s| - dec..|s| - dec + n];
    FractionDigits(bi, dec, n);
    StripKeepsDigits(t);
  }

  /** With `dec >= 1` the fraction of `fmt` is empty for `dec` of 1 or 2, and otherwise it is
      the hundredths of `bi / 10^dec`, truncated, not rounded, without trailing zeros. */
  lemma FmtFractionPart(bi: nat, dec: nat)
    requires dec >= 1
    ensures dec <= 2 ==> Fraction(bi, dec) == []
    ensures dec >= 3 ==> Truncated(Fraction(bi, dec), 2, Lead(bi, dec, 2))
  {
    if dec >= 3 {
      LargeDecFraction(bi, dec);
    } else {
      SmallDecFraction(bi, dec);
    }
  }

  /** With `dec == 0` the integer part is empty and the "fraction" is the first two digits of
      `bi` without trailing zeros, because `slice(0, -0)` is empty and `slice(-0, 2)` starts at 0. */
  lemma FmtDecZero(bi: nat)
    ensures Whole(bi, 0) == []
    ensures Fraction(bi, 0) == StripTrailingZeros(Dec(bi)[..if |Dec(bi)| < 2 then |Dec(bi)| else 2])
  {
    var s := Padded(bi, 0);
    assert s == Dec(bi);
    assert Slice(s, 0, -(0 as int)) == [];
  }

  lemma DecOf12345()
    ensures Dec(12345) == "12345"
  {
    DecOf12();
    DecStep(123);
    DecStep(1234);
    DecStep(12345);
  }

  lemma DecOf12()
    ensures Dec(12) == "12"
  {
    DecStep(12);
  }

  /** `toString()` of a number of two or more digits: its quotient by ten, then its last digit. */
  lemma DecStep(n: nat)
    requires n >= 10
    ensures Dec(n) == Dec(n / 10) + [DigitChar(n % 10)]
  {
  }

  /** `fmt(12345n, 0)` reads ".12" where the corrected formatter reads "12,345". */
  lemma DecZeroDropsIntegerPart()
    ensures Fmt(12345, 0) == ".12"
    ensures FmtFixed(12345, 0) == "12,345"
  {
    AsWrittenDecZero();
    FixedDecZero();
  }

  lemma AsWrittenDecZero()
    ensures Fmt(12345, 0) == ".12"
  {
    FmtDecZero(12345);
    assert Fraction(12345, 0) == "12" by {
      DecOf12345();
      assert Dec(12345)[..2] == "12";
      assert StripTrailingZeros("12") == "12";
    }
    assert Fmt(12345, 0) == [] + ['.'] + "12";
  }

  lemma FixedDecZero()
    ensures FmtFixed(12345, 0) == "12,345"
  {
    DecOf12345();
    var d := Padded(12345, 0);
    assert d == "12345";
    assert d[..5] == "12345";
    assert d[5..5] == [];
    assert "12345"[..2] == "12" && "12345"[2..] == "345";
  }

  lemma DecOf125()
    ensures Dec(125) == "125"
  {
    DecOf12();
    DecStep(125);
  }

  /** `fmt(125n, 2)` reads "1" where the corrected formatter reads "1.25". */
  lemma SmallDecDropsFraction()
    ensures Fmt(125, 2) == "1"
    ensures FmtFixed(125, 2) == "1.25"
  {
    AsWrittenSmallDec();
    FixedSmallDec();
  }

  lemma AsWrittenSmallDec()
    ensures Fmt(125, 2) == "1"
  {
    assert Padded(125, 2) == "125" by {
      DecOf125();
    }
    assert Whole(125, 2) == "1" by {
      assert Slice("125", 0, -2) == "1";
    }
    SmallDecFraction(125, 2);
  }

  lemma FixedSmallDec()
    ensures FmtFixed(125, 2) == "1.25"
  {
    assert Padded(125, 2) == "125" by {
      DecOf125();
    }
    assert FixedWhole(125, 2) == "1" by {
      assert "125"[..1] == "1";
    }
    assert FixedFraction(125, 2) == "25" by {
      assert "125"[1..3] == "25";
      assert StripTrailingZeros("25") == "25";
    }
  }

  /* ---------- the corrected formatter ---------- */

  /** For every `dec`, the corrected integer part is `bi / 10^dec` in decimal, grouped by three. */
  lemma FmtFixedIntegerPart(bi: nat, dec: nat)
    ensures FixedWhole(bi, dec) == Group(Dec(Div(bi, Pow10(dec))))
    ensures GroupedFrom(FixedWhole(bi, dec), Dec(Div(bi, Pow10(dec))))
    ensures FixedWhole(bi, dec) != []
  {
    var s := Padded(bi, dec);
    var q := Dec(Div(bi, Pow10(dec)));
    assert s[..|s| - dec] == q by {
      IntegerDigits(bi, dec);
    }
    GroupLayout(q);
    GroupCommas(q);
  }

  /** For every `dec`, the corrected fraction holds the leading `min(2, dec)` fractional digits,
      truncated, without trailing zeros. */
  lemma FmtFixedFractionPart(bi: nat, dec: nat)
    ensures var n := if dec < 2 then dec else 2;
            Truncated(FixedFraction(bi, dec), n, Lead(bi, dec, n))
  {
    var n := if dec < 2 then dec else 2;
    FixedSlice(bi, dec);
    StrippedDigits(bi, dec, n);
  }

  lemma FixedSlice(bi: nat, dec: nat)
    ensures var s := Padded(bi, dec);
            var n := if dec < 2 then dec else 2;
            |s| >= dec + 1 && FixedFraction(bi, dec) == StripTrailingZeros(s[|s| - dec..|s| - dec + n])
  {
    PaddedFacts(bi, dec);
  }
}
