/** `String.prototype.toLowerCase` restricted to ASCII letters, which is all that
    hexadecimal account and token addresses contain. */
module Ascii {

  function LowerChar(c: char): char
  {
    if 'A' <= c <= 'Z' then (c as int + 32) as char else c
  }

  /** Lower-cases every ASCII capital letter and keeps every other character. */
  function Lower(s: string): (r: string)
    ensures |r| == |s|
    ensures forall i :: 0 <= i < |s| ==> r[i] == LowerChar(s[i])
    ensures forall i :: 0 <= i < |s| ==> !('A' <= r[i] <= 'Z')
  {
    if s == [] then [] else [LowerChar(s[0])] + Lower(s[1..])
  }

  /** A string that lower-casing leaves unchanged. */
  predicate IsLower(s: string)
  {
    Lower(s) == s
  }

  /** Lower-casing twice is lower-casing once: every key built from `Lower` is itself lower case. */
  lemma LowerIsLower(s: string)
    ensures IsLower(Lower(s))
  {
    var r := Lower(s);
    assert forall i :: 0 <= i < |r| ==> Lower(r)[i] == r[i];
  }
}
