/** An optional value. */
module Options {

  datatype Option<+T> = None | Some(value: T)
}

/**
 Characters and small sequence helpers shared by the masking passes and the
 template clusterer.

 Character classes are restricted to ASCII: `\d` and `str.isdigit` are the
 digits `0`-`9`, and `\s`, `str.split` and `str.strip` treat as whitespace
 exactly the ASCII characters Python's `str.isspace` accepts (space, 9-13 and
 28-31). Case-insensitive matching folds only `A`-`Z`.
 */
module Text {

  function Min(a: nat, b: nat): nat {
    if a <= b then a else b
  }

  predicate IsDigit(c: char) {
    '0' <= c <= '9'
  }

  predicate IsSpace(c: char) {
    c == ' ' || 9 <= c as int <= 13 || 28 <= c as int <= 31
  }

  predicate IsWordChar(c: char) {
    !IsSpace(c)
  }

  /** ASCII lower-casing, used for `(?i)` matching against lower-case literals. */
  function Lower(c: char): char {
    if 'A' <= c <= 'Z' then (c as int + 32) as char else c
  }

  /** `w` spells the lower-case literal `lit`, ignoring the case of ASCII letters. */
  predicate SameIgnoringCase(w: string, lit: string) {
    |w| == |lit| && forall k :: 0 <= k < |w| ==> Lower(w[k]) == lit[k]
  }

  predicate AllDigits(w: string) {
    forall k :: 0 <= k < |w| ==> IsDigit(w[k])
  }

  predicate AllSpaces(w: string) {
    forall k :: 0 <= k < |w| ==> IsSpace(w[k])
  }

  /** Length of the longest prefix of `s` whose characters all satisfy `f`. */
  function Run(s: string, f: char -> bool): (n: nat)
    ensures n <= |s|
    ensures forall k :: 0 <= k < n ==> f(s[k])
    ensures n == |s| || !f(s[n])
  {
    if |s| == 0 || !f(s[0]) then 0 else 1 + Run(s[1..], f)
  }

  /** A prefix made only of `f`-characters is never longer than the run. */
  lemma RunIsMaximal(s: string, f: char -> bool, m: nat)
    requires m <= |s|
    requires forall k :: 0 <= k < m ==> f(s[k])
    ensures m <= Run(s, f)
  {
  }

  /* ---------------- Reading runs ---------------- */

  /** Where `\s*` starting at position `a` of `t` stops. */
  function SpacesEnd(t: string, a: nat): (e: nat)
    requires a <= |t|
    ensures a <= e <= |t| && AllSpaces(t[a..e])
    ensures e == |t| || !IsSpace(t[e])
  {
    var e := a + Run(t[a..], IsSpace);
    assert forall x :: 0 <= x < e - a ==> t[a..e][x] == t[a..][x];
    e
  }

  /** Where `\d*` starting at position `a` of `t` stops. */
  function DigitsEnd(t: string, a: nat): (e: nat)
    requires a <= |t|
    ensures a <= e <= |t| && AllDigits(t[a..e])
    ensures e == |t| || !IsDigit(t[e])
  {
    var e := a + Run(t[a..], IsDigit);
    assert forall x :: 0 <= x < e - a ==> t[a..e][x] == t[a..][x];
    e
  }
}
