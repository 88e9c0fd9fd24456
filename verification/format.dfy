/** The amount formatter `fmt(bi, dec)` of app.js: a raw token amount rendered as a
    decimal string with thousands separators and at most two fractional digits. */
module Format {
  import opened Digits

  /** The position JavaScript's `String.prototype.slice` uses for an argument `i`:
      negative values count back from the end, and the result is clamped to `[0, len]`. */
  function SliceIndex(i: int, len: nat): (r: nat)
    ensures r <= len
    ensures 0 <= i <= len ==> r == i
    ensures -(len as int) <= i < 0 ==> r == len + i
    ensures i > len ==> r == len
    ensures i < -(len as int) ==> r == 0
  {
    if i < 0 then (if len + i < 0 then 0 else len + i)
    else if i > len then len
    else i
  }

  /** `s.slice(start, end)`: empty whenever the resolved end does not exceed the resolved start. */
  function Slice(s: string, start: int, end: int): (r: string)
    ensures var a, b := SliceIndex(start, |s|), SliceIndex(end, |s|);
            |r| == (if b <= a then 0 else b - a) && forall k :: 0 <= k < |r| ==> r[k] == s[a + k]
  {
    var a, b := SliceIndex(start, |s|), SliceIndex(end, |s|);
    if b <= a then [] else s[a..b]
  }

  /** `s.padStart(width, "0")`. */
  function PadStart(s: string, width: nat): (r: string)
    ensures |s| >= width ==> r == s
    ensures |s| < width ==> |r| == width && r == Zeros(width - |s|) + s
  {
    if |s| >= width then s else Zeros(width - |s|) + s
  }

  /** `s.replace(/0+$/, "")`: the shortest prefix that differs from `s` only by trailing zeros. */
  function StripTrailingZeros(s: string): (r: string)
    ensures |r| <= |s|
    ensures r + Zeros(|s| - |r|) == s
    ensures r == [] || r[|r| - 1] != '0'
    decreases |s|
  {
    if s != [] && s[|s| - 1] == '0' then
      var r := StripTrailingZeros(s[..|s| - 1]);
      assert Zeros(|s| - |r|) == Zeros(|s| - 1 - |r|) + ['0'];
      assert s == s[..|s| - 1] + ['0'];
      r
    else
      assert Zeros(0) == [];
      s
  }

  /** Thousands grouping, right to left: a comma before every complete block of three
      characters counted from the end, unless that block starts the string. */
  function Group(s: string): string
    decreases |s|
  {
    if |s| <= 3 then s else Group(s[..|s| - 3]) + [','] + s[|s| - 3..]
  }

  /** Where `/\B(?=(\d{3})+(?!\d))/g` matches inside a string of `len` digits: at an inner
      position (a non-boundary between two digits) followed by a positive multiple of three digits. */
  predicate CommaBefore(len: nat, p: nat)
  {
    0 < p < len && (len - p) % 3 == 0
  }

  /** The regular-expression replacement read left to right from position `i`. */
  function RegexCommasFrom(s: string, i: nat): string
    requires i <= |s|
    decreases |s| - i
  {
    if i == |s| then []
    else (if CommaBefore(|s|, i) then [','] else []) + [s[i]] + RegexCommasFrom(s, i + 1)
  }

  function RegexCommas(s: string): string
  {
    RegexCommasFrom(s, 0)
  }

  /** The string with every comma removed. */
  function StripCommas(s: string): string
  {
    if s == [] then [] else (if s[0] == ',' then [] else [s[0]]) + StripCommas(s[1..])
  }

  /** The zero-padded digit string both halves of `fmt` are cut from. */
  function Padded(bi: nat, dec: nat): string
  {
    PadStart(Dec(bi), dec + 1)
  }

  /** `s.slice(0, -dec)` with commas inserted. */
  function Whole(bi: nat, dec: nat): string
  {
    var s := Padded(bi, dec);
    Group(Slice(s, 0, -(dec as int)))
  }

  /** `s.slice(-dec, -dec + 2)` without its trailing zeros. */
  function Fraction(bi: nat, dec: nat): string
  {
    var s := Padded(bi, dec);
    StripTrailingZeros(Slice(s, -(dec as int), -(dec as int) + 2))
  }

  /** `fmt(bi, dec)` as app.js writes it, for every `dec` including 0, 1 and 2. */
  function Fmt(bi: nat, dec: nat): (r: string)
    ensures '.' in r <==> Fraction(bi, dec) != []
    ensures Whole(bi, dec) <= r
    ensures r[|Whole(bi, dec)|..] == if Fraction(bi, dec) == [] then [] else ['.'] + Fraction(bi, dec)
  {
    PartsHaveNoPoint(bi, dec);
    var frac := Fraction(bi, dec);
    Whole(bi, dec) + (if frac != [] then ['.'] + frac else [])
  }

  /** Neither half of `fmt` contains a decimal point: both are cut from a digit string. */
  lemma PartsHaveNoPoint(bi: nat, dec: nat)
    ensures '.' !in Whole(bi, dec) && '.' !in Fraction(bi, dec)
  {
    var s := Padded(bi, dec);
    assert IsDigits(s);
    var a, b := Slice(s, 0, -(dec as int)), Slice(s, -(dec as int), -(dec as int) + 2);
    DigitsHaveNoPoint(a);
    DigitsHaveNoPoint(b);
    GroupHasNoPoint(a);
    var f := StripTrailingZeros(b);
    assert '.' !in f by {
      assert f + Zeros(|b| - |f|) == b;
    }
  }

  lemma DigitsHaveNoPoint(s: string)
    requires IsDigits(s)
    ensures '.' !in s
  {
  }

  /** Grouping only adds commas, so a string without a point keeps none. */
  lemma {:induction false} GroupHasNoPoint(s: string)
    requires '.' !in s
    ensures '.' !in Group(s)
    decreases |s|
  {
    if |s| > 3 {
      var t, tail := s[..|s| - 3], s[|s| - 3..];
      assert s == t + tail;
      GroupHasNoPoint(t);
    }
  }

  /* ---------- the corrected formatter ---------- */

  /** The integer part cut at `|s| - dec` instead of at the relative index `-dec`. */
  function FixedWhole(bi: nat, dec: nat): string
  {
    var s := Padded(bi, dec);
    Group(s[..|s| - dec])
  }

  /** The leading `min(2, dec)` fractional digits, without their trailing zeros. */
  function FixedFraction(bi: nat, dec: nat): string
  {
    var s := Padded(bi, dec);
    var n := if dec < 2 then dec else 2;
    StripTrailingZeros(s[|s| - dec..|s| - dec + n])
  }

  /** `fmt` with absolute slice positions, so that `dec` of 0, 1 and 2 format like any other. */
  function FmtFixed(bi: nat, dec: nat): string
  {
    var frac := FixedFraction(bi, dec);
    FixedWhole(bi, dec) + (if frac != [] then ['.'] + frac else [])
  }
}
