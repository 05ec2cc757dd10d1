/**
 The four regular expressions of the pre-masking stage (src/masker.py:25-34),
 each given twice:

 - as a language, a predicate saying which strings the expression matches as
   a whole (`InLanguage`), written from the expression's structure;
 - as a hand-written greedy matcher anchored at the start of a string
   (`MatchAt`), following the order in which the regex engine tries the
   alternatives and quantifiers.

 For all four expressions the first match the backtracking engine finds at a
 position is the longest prefix there that lies in the language: every
 quantifier is greedy, nothing follows the last quantifier, and every shorter
 alternative the engine would backtrack into fails on the very next
 character. `MatchAt` is proved to return exactly that longest prefix.
 */
module Patterns {
  import opened Options
  import opened Text

  datatype Pattern =
    | Date           // \d{2}[-/]\d{2}[-/]\d{2,4}
    | Amount         // (?i)(rs\.?|inr|rp\.?)\s*(\d+(?:,\d+)*(?:\.\d{1,2})?)
    | MaskedAccount  // [X*x]{2,}\d{3,}
    | AccountNo      // (?i)(account\s+no\.?\s*)(\d+), replaced by \1<ACCOUNT>

  /** A match at the start of a string: `len` characters are matched; the
      first `keep` of them form the captured group that the replacement
      writes back before the placeholder (0 for every pattern but AccountNo). */
  datatype Hit = Hit(len: nat, keep: nat)

  function Placeholder(p: Pattern): string {
    match p
    case Date => "<DATE>"
    case Amount => "<AMOUNT>"
    case MaskedAccount => "<ACCOUNT>"
    case AccountNo => "<ACCOUNT>"
  }

  predicate IsSeparator(c: char) {
    c == '-' || c == '/'
  }

  predicate IsMaskChar(c: char) {
    c == 'X' || c == 'x' || c == '*'
  }

  predicate AllMaskChars(w: string) {
    forall k :: 0 <= k < |w| ==> IsMaskChar(w[k])
  }

  /* ---------------- Languages ---------------- */

  /** \d{2}[-/]\d{2}[-/]\d{2,4} */
  ghost predicate IsDate(w: string) {
    && 8 <= |w| <= 10
    && IsDigit(w[0]) && IsDigit(w[1]) && IsSeparator(w[2])
    && IsDigit(w[3]) && IsDigit(w[4]) && IsSeparator(w[5])
    && AllDigits(w[6..])
  }

  /** (?i)(rs\.?|inr|rp\.?) */
  ghost predicate IsMarker(a: string) {
    || SameIgnoringCase(a, "rs") || SameIgnoringCase(a, "rs.")
    || SameIgnoringCase(a, "inr")
    || SameIgnoringCase(a, "rp") || SameIgnoringCase(a, "rp.")
  }

  /** \d+(?:,\d+)* : digits and commas, starting with a digit, every comma
      followed by a digit. */
  ghost predicate IsGrouped(g: string) {
    && |g| > 0 && IsDigit(g[0])
    && forall k :: 0 <= k < |g| ==> GroupChar(g, k)
  }

  /** Position `k` of `c` may belong to \d+(?:,\d+)*: a digit, or a comma with a digit after it. */
  predicate GroupChar(c: string, k: nat)
    requires k < |c|
  {
    IsDigit(c[k]) || (c[k] == ',' && k + 1 < |c| && IsDigit(c[k + 1]))
  }

  /** (?:\.\d{1,2})? */
  ghost predicate IsFraction(d: string) {
    |d| == 0 || (d[0] == '.' && 2 <= |d| <= 3 && AllDigits(d[1..]))
  }

  /** \d+(?:,\d+)*(?:\.\d{1,2})? */
  ghost predicate IsNumber(c: string) {
    exists k :: 0 < k <= |c| && IsGrouped(c[..k]) && IsFraction(c[k..])
  }

  /** (?i)(rs\.?|inr|rp\.?)\s*(\d+(?:,\d+)*(?:\.\d{1,2})?) */
  ghost predicate IsAmount(w: string) {
    exists i, j :: 0 <= i <= j <= |w| && IsMarker(w[..i]) && AllSpaces(w[i..j]) && IsNumber(w[j..])
  }

  /** [X*x]{2,}\d{3,} */
  ghost predicate IsMaskedAccount(w: string) {
    exists m :: 2 <= m && m + 3 <= |w| && AllMaskChars(w[..m]) && AllDigits(w[m..])
  }

  /** \.?\s* */
  ghost predicate IsDotSpaces(v: string) {
    AllSpaces(v) || (|v| > 0 && v[0] == '.' && AllSpaces(v[1..]))
  }

  /** (?i)account\s+no\.?\s* : the captured group 1 of the account-number pattern. */
  ghost predicate IsAccountPhrase(u: string) {
    && 10 <= |u|
    && SameIgnoringCase(u[..7], "account")
    && exists j :: 8 <= j <= |u| - 2 && AllSpaces(u[7..j]) && SameIgnoringCase(u[j..j + 2], "no") && IsDotSpaces(u[j + 2..])
  }

  /** (?i)(account\s+no\.?\s*)(\d+) */
  ghost predicate IsAccountNo(w: string) {
    exists g :: 0 < g < |w| && IsAccountPhrase(w[..g]) && AllDigits(w[g..])
  }

  ghost predicate InLanguage(p: Pattern, w: string) {
    match p
    case Date => IsDate(w)
    case Amount => IsAmount(w)
    case MaskedAccount => IsMaskedAccount(w)
    case AccountNo => IsAccountNo(w)
  }

  /** `keep` splits the matched text `w` into the part written back by the
      replacement and the part replaced by the placeholder. */
  ghost predicate GroupSplit(p: Pattern, w: string, keep: nat) {
    if p == AccountNo then
      0 < keep < |w| && IsAccountPhrase(w[..keep]) && AllDigits(w[keep..])
    else
      keep == 0
  }

  /** `r` is the longest prefix of `t` in the language of `p`, with its
      (unique) group split; `None` when no prefix of `t` is in the language. */
  ghost predicate IsLongestMatch(p: Pattern, t: string, r: Option<Hit>) {
    match r
    case None =>
      forall n {:trigger InLanguage(p, t[..n])} :: 0 <= n <= |t| ==> !InLanguage(p, t[..n])
    case Some(h) =>
      && 0 < h.len <= |t|
      && InLanguage(p, t[..h.len])
      && (forall n {:trigger InLanguage(p, t[..n])} :: h.len < n <= |t| ==> !InLanguage(p, t[..n]))
      && GroupSplit(p, t[..h.len], h.keep)
      && (forall k :: GroupSplit(p, t[..h.len], k) ==> k == h.keep)
  }

  /* ---------------- Matchers ---------------- */

  function MatchDate(t: string): (r: Option<Hit>)
    ensures r.Some? ==> r.value.keep < r.value.len <= |t|
  {
    if && 8 <= |t|
       && IsDigit(t[0]) && IsDigit(t[1]) && IsSeparator(t[2])
       && IsDigit(t[3]) && IsDigit(t[4]) && IsSeparator(t[5])
       && IsDigit(t[6]) && IsDigit(t[7])
    then Some(Hit(Min(10, DigitsEnd(t, 8)), 0))
    else None
  }

  /** Length of the currency marker at the start of `t`, 0 when there is none.
      `rs.`/`rp.` are preferred to `rs`/`rp` as `\.?` is greedy; the shorter
      alternative could only continue with `\s*\d`, which `.` never starts. */
  function MarkerLen(t: string): (n: nat)
    ensures n <= |t|
  {
    if 3 <= |t| && (SameIgnoringCase(t[..3], "rs.") || SameIgnoringCase(t[..3], "inr") || SameIgnoringCase(t[..3], "rp.")) then 3
    else if 2 <= |t| && (SameIgnoringCase(t[..2], "rs") || SameIgnoringCase(t[..2], "rp")) then 2
    else 0
  }

  /** Length of the longest prefix of `c` matched by \d+(?:,\d+)* (when `c` starts with a digit). */
  function GroupedLen(c: string): (n: nat)
    ensures n <= |c|
    ensures forall k :: 0 <= k < n ==> GroupChar(c, k)
    ensures n == |c| || !GroupChar(c, n)
  {
    if |c| == 0 || !GroupChar(c, 0) then 0
    else
      var n := 1 + GroupedLen(c[1..]);
      assert forall k :: 1 <= k < |c| ==> (GroupChar(c, k) <==> GroupChar(c[1..], k - 1));
      n
  }

  /** Length matched by (?:\.\d{1,2})? at the start of `d`. */
  function FractionLen(d: string): (n: nat)
    ensures n <= |d|
  {
    if 2 <= |d| && d[0] == '.' && IsDigit(d[1]) then Min(3, DigitsEnd(d, 1)) else 0
  }

  function NumberLen(c: string): (n: nat)
    ensures n <= |c|
  {
    var g := GroupedLen(c);
    g + FractionLen(c[g..])
  }

  function MatchAmount(t: string): (r: Option<Hit>)
    ensures r.Some? ==> r.value.keep < r.value.len <= |t|
  {
    var m := MarkerLen(t);
    if m == 0 then None
    else
      var s := SpacesEnd(t, m);
      if s < |t| && IsDigit(t[s]) then Some(Hit(s + NumberLen(t[s..]), 0)) else None
  }

  function MatchMaskedAccount(t: string): (r: Option<Hit>)
    ensures r.Some? ==> r.value.keep < r.value.len <= |t|
  {
    var m := Run(t, IsMaskChar);
    if m < 2 then None
    else
      var e := DigitsEnd(t, m);
      if e - m < 3 then None else Some(Hit(e, 0))
  }

  function MatchAccountNo(t: string): (r: Option<Hit>)
    ensures r.Some? ==> r.value.keep < r.value.len <= |t|
  {
    if 7 <= |t| && SameIgnoringCase(t[..7], "account") then
      var j := SpacesEnd(t, 7);
      if 7 < j && j + 2 <= |t| && SameIgnoringCase(t[j..j + 2], "no") then
        var q := if j + 2 < |t| && t[j + 2] == '.' then j + 3 else j + 2;
        var g := SpacesEnd(t, q);
        var e := DigitsEnd(t, g);
        if g < e then Some(Hit(e, g)) else None
      else None
    else None
  }

  /** The match of `p` at the start of `t` (see `MatchAtIsLongest`). */
  function MatchAt(p: Pattern, t: string): (r: Option<Hit>)
    ensures r.Some? ==> r.value.keep < r.value.len <= |t|
  {
    match p
    case Date => MatchDate(t)
    case Amount => MatchAmount(t)
    case MaskedAccount => MatchMaskedAccount(t)
    case AccountNo => MatchAccountNo(t)
  }

  /** The matcher returns the longest prefix of `t` in the pattern's language,
      and the captured group it writes back is the only possible one. */
  lemma MatchAtIsLongest(p: Pattern, t: string)
    ensures IsLongestMatch(p, t, MatchAt(p, t))
  {
    match p
    case Date => DateIsLongest(t);
    case Amount => AmountIsLongest(t);
    case MaskedAccount => MaskedAccountIsLongest(t);
    case AccountNo => AccountNoIsLongest(t);
  }

  /* ---------------- Slicing and runs ---------------- */

  /** Pieces of the prefix `t[..n]` are pieces of `t`. */
  lemma PrefixPieces(t: string, n: nat, a: nat, b: nat)
    requires a <= b <= n <= |t|
    ensures t[..n][..a] == t[..a] && t[..n][a..b] == t[a..b] && t[..n][b..] == t[b..n]
  {
  }

  /** A prefix of the suffix from `a` is a slice. */
  lemma SuffixPrefix(t: string, a: nat, b: nat)
    requires a <= b <= |t|
    ensures t[a..][..b - a] == t[a..b]
  {
  }

  /** `\s*` from `a` stops at `b` when `a..b` are spaces and `b` is not. */
  lemma SpacesEndAt(t: string, a: nat, b: nat)
    requires a <= b < |t| && AllSpaces(t[a..b]) && !IsSpace(t[b])
    ensures SpacesEnd(t, a) == b
  {
  }

  /** `\d*` from `a` reads at least every digit of an all-digit slice `a..b`. */
  lemma DigitsAtLeast(t: string, a: nat, b: nat)
    requires a <= b <= |t| && AllDigits(t[a..b])
    ensures b <= DigitsEnd(t, a)
  {
  }

  /* ---------------- Dates ---------------- */

  lemma DateIsLongest(t: string)
    ensures IsLongestMatch(Date, t, MatchDate(t))
  {
    match MatchDate(t)
    case None =>
    case Some(h) =>
      DateIsSound(t, h.len);
      forall n | h.len < n <= |t| ensures !IsDate(t[..n]) {
        DigitsAfterDate(t, n);
      }
  }

  lemma DateIsSound(t: string, n: nat)
    requires MatchDate(t) == Some(Hit(n, 0))
    ensures IsDate(t[..n])
  {
    var e := DigitsEnd(t, 8);
    forall x | 6 <= x < n ensures IsDigit(t[..n][x]) {
      if 8 <= x {
        assert t[8..e][x - 8] == t[x];
      }
    }
    assert forall x :: 0 <= x < n - 6 ==> t[..n][6..][x] == t[..n][x + 6];
  }

  /** A date that is a prefix of `t` is no longer than the digits from position 8 allow. */
  lemma DigitsAfterDate(t: string, n: nat)
    requires 8 <= n <= |t|
    ensures IsDate(t[..n]) ==> n <= DigitsEnd(t, 8)
  {
    if IsDate(t[..n]) {
      assert forall k :: 0 <= k < n - 8 ==> t[8..n][k] == t[..n][6..][k + 2];
      DigitsAtLeast(t, 8, n);
    }
  }

  /* ---------------- Amounts ---------------- */

  lemma MarkerLenFacts(t: string, i: nat)
    requires i <= |t| && IsMarker(t[..i])
    ensures 0 < i
    ensures MarkerLen(t) == i || (MarkerLen(t) == 3 && i == 2 && t[2] == '.')
  {
    if i == 2 && 3 <= |t| {
      var a := t[..2];
      var b := t[..3];
      assert Lower(b[0]) == Lower(a[0]) == 'r';
      if MarkerLen(t) == 3 {
        assert Lower(b[2]) == '.';
        LowerKeepsPunctuation(b[2]);
      }
    }
  }

  lemma LowerKeepsPunctuation(c: char)
    requires Lower(c) == '.'
    ensures c == '.'
  {
  }

  lemma MarkerLenSound(t: string)
    requires MarkerLen(t) > 0
    ensures IsMarker(t[..MarkerLen(t)])
  {
  }

  /** A marker followed by spaces and a digit is the marker the matcher reads. */
  lemma MarkerIsRead(t: string, i: nat, j: nat)
    requires i <= j < |t| && IsMarker(t[..i]) && AllSpaces(t[i..j]) && IsDigit(t[j])
    ensures 0 < i && MarkerLen(t) == i
  {
    MarkerLenFacts(t, i);
    if i < j {
      assert t[i..j][0] == t[i];
    }
  }

  lemma GroupedLenIsLongest(c: string)
    requires 0 < |c| && IsDigit(c[0])
    ensures IsGrouped(c[..GroupedLen(c)])
    ensures forall k :: 0 <= k <= |c| && IsGrouped(c[..k]) ==> k <= GroupedLen(c)
  {
    GroupedLenSound(c);
    forall k | 0 <= k <= |c| && IsGrouped(c[..k]) ensures k <= GroupedLen(c) {
      GroupedLenMaximal(c, k);
    }
  }

  lemma GroupedLenSound(c: string)
    requires 0 < |c| && IsDigit(c[0])
    ensures IsGrouped(c[..GroupedLen(c)])
  {
    var n := GroupedLen(c);
    assert GroupChar(c, 0);
    GroupedRunEndsInDigit(c);
    forall k | 0 <= k < n ensures GroupChar(c[..n], k) {
      GroupCharOfRun(c, n, k);
    }
  }

  lemma GroupCharOfRun(c: string, n: nat, k: nat)
    requires k < n <= |c| && GroupChar(c, k) && (k + 1 < n || IsDigit(c[k]))
    ensures GroupChar(c[..n], k)
  {
  }

  lemma GroupedLenMaximal(c: string, k: nat)
    requires k <= |c| && IsGrouped(c[..k])
    ensures k <= GroupedLen(c)
  {
    var n := GroupedLen(c);
    if n < k {
      assert GroupChar(c[..k], n);
      GroupCharOfPrefix(c, k, n);
    }
  }

  /** The grouped run never ends on a comma: a comma it takes is followed by a digit it also takes. */
  lemma GroupedRunEndsInDigit(c: string)
    requires 0 < GroupedLen(c)
    ensures IsDigit(c[GroupedLen(c) - 1])
  {
    var n := GroupedLen(c);
    assert GroupChar(c, n - 1);
    if c[n - 1] == ',' {
      assert GroupChar(c, n);
    }
  }

  lemma GroupCharOfPrefix(c: string, k: nat, x: nat)
    requires x < k <= |c| && GroupChar(c[..k], x)
    ensures GroupChar(c, x)
  {
  }

  lemma FractionLenIsLongest(d: string)
    ensures IsFraction(d[..FractionLen(d)])
    ensures forall k :: 0 <= k <= |d| && IsFraction(d[..k]) ==> k <= FractionLen(d)
  {
    FractionLenSound(d);
    forall k | 0 <= k <= |d| && IsFraction(d[..k]) ensures k <= FractionLen(d) {
      FractionLenMaximal(d, k);
    }
  }

  lemma FractionLenSound(d: string)
    ensures IsFraction(d[..FractionLen(d)])
  {
    var f := FractionLen(d);
    if f > 0 {
      var e := DigitsEnd(d, 1);
      assert forall x :: 0 <= x < f - 1 ==> d[..f][1..][x] == d[1..e][x];
    }
  }

  lemma FractionLenMaximal(d: string, k: nat)
    requires k <= |d| && IsFraction(d[..k])
    ensures k <= FractionLen(d)
  {
    if 0 < k {
      PrefixPieces(d, k, 1, 1);
      assert d[..k][0] == d[0] && d[..k][1] == d[1];
      DigitsAtLeast(d, 1, k);
    }
  }

  lemma NumberStartsWithDigit(c: string)
    requires IsNumber(c)
    ensures 0 < |c| && IsDigit(c[0])
  {
    var k :| 0 < k <= |c| && IsGrouped(c[..k]) && IsFraction(c[k..]);
    assert c[..k][0] == c[0];
  }

  lemma NumberLenIsLongest(c: string)
    requires 0 < |c| && IsDigit(c[0])
    ensures 0 < NumberLen(c)
    ensures IsNumber(c[..NumberLen(c)])
    ensures forall k :: 0 <= k <= |c| && IsNumber(c[..k]) ==> k <= NumberLen(c)
  {
    NumberLenSound(c);
    forall k | 0 <= k <= |c| && IsNumber(c[..k]) ensures k <= NumberLen(c) {
      var g' :| 0 < g' <= k && IsGrouped(c[..k][..g']) && IsFraction(c[..k][g'..]);
      PrefixPieces(c, k, g', g');
      NumberBound(c, k, g');
    }
  }

  lemma NumberLenSound(c: string)
    requires 0 < |c| && IsDigit(c[0])
    ensures 0 < NumberLen(c)
    ensures IsNumber(c[..NumberLen(c)])
  {
    var g := GroupedLen(c);
    var n := NumberLen(c);
    GroupedLenSound(c);
    FractionLenSound(c[g..]);
    PrefixPieces(c, n, g, g);
    SuffixPrefix(c, g, n);
    assert IsGrouped(c[..n][..g]) && IsFraction(c[..n][g..]);
  }

  /** A number read as grouped digits `..g'` and a fraction `g'..k` ends no later than the matcher's. */
  lemma NumberBound(c: string, k: nat, g': nat)
    requires 0 < g' <= k <= |c| && IsGrouped(c[..g']) && IsFraction(c[g'..k])
    requires IsDigit(c[0])
    ensures k <= NumberLen(c)
  {
    var g := GroupedLen(c);
    GroupedLenMaximal(c, g');
    if g' < g {
      if g' < k {
        assert c[g'..k][0] == c[g'];
      }
    } else {
      SuffixPrefix(c, g, k);
      FractionLenMaximal(c[g..], k - g);
    }
  }

  /** What `MatchAmount` reads: the marker, the spaces after it, then a number. */
  lemma AmountReading(t: string)
    ensures var m := MarkerLen(t);
      MatchAmount(t).Some? <==> 0 < m && SpacesEnd(t, m) < |t| && IsDigit(t[SpacesEnd(t, m)])
    ensures var m := MarkerLen(t);
      MatchAmount(t).Some? ==> MatchAmount(t).value == Hit(SpacesEnd(t, m) + NumberLen(t[SpacesEnd(t, m)..]), 0)
  {
  }

  lemma AmountIsLongest(t: string)
    ensures IsLongestMatch(Amount, t, MatchAmount(t))
  {
    forall n | 0 <= n <= |t| && IsAmount(t[..n])
      ensures MatchAmount(t).Some? && n <= MatchAmount(t).value.len
    {
      AmountPrefixBound(t, n);
    }
    if MatchAmount(t).Some? {
      AmountIsSound(t);
    }
  }

  lemma AmountPrefixBound(t: string, n: nat)
    requires n <= |t| && IsAmount(t[..n])
    ensures MatchAmount(t).Some? && n <= MatchAmount(t).value.len
  {
    var w := t[..n];
    var i, j :| 0 <= i <= j <= |w| && IsMarker(w[..i]) && AllSpaces(w[i..j]) && IsNumber(w[j..]);
    PrefixPieces(t, n, i, j);
    AmountPartsAreFixed(t, i, j, n);
  }

  /** Any decomposition marker / spaces / number of a prefix of `t` is the
      one the matcher reads, so the prefix is no longer than its match. */
  lemma AmountPartsAreFixed(t: string, i: nat, j: nat, n: nat)
    requires i <= j <= n <= |t|
    requires IsMarker(t[..i]) && AllSpaces(t[i..j]) && IsNumber(t[j..n])
    ensures MatchAmount(t).Some? && n <= MatchAmount(t).value.len
  {
    NumberStartsWithDigit(t[j..n]);
    assert t[j..n][0] == t[j];
    MarkerIsRead(t, i, j);
    SpacesEndAt(t, i, j);
    AmountReading(t);
    NumberLenIsLongest(t[j..]);
    SuffixPrefix(t, j, n);
  }

  lemma AmountIsSound(t: string)
    requires MatchAmount(t).Some?
    ensures InLanguage(Amount, t[..MatchAmount(t).value.len])
  {
    AmountReading(t);
    var m := MarkerLen(t);
    var s := SpacesEnd(t, m);
    var n := MatchAmount(t).value.len;
    MarkerLenSound(t);
    NumberLenIsLongest(t[s..]);
    SuffixPrefix(t, s, n);
    AmountFromParts(t, m, s, n);
  }

  lemma AmountFromParts(t: string, i: nat, j: nat, n: nat)
    requires i <= j <= n <= |t|
    requires IsMarker(t[..i]) && AllSpaces(t[i..j]) && IsNumber(t[j..n])
    ensures IsAmount(t[..n])
  {
    PrefixPieces(t, n, i, j);
  }

  /* ---------------- Masked account numbers ---------------- */

  lemma MaskedAccountIsLongest(t: string)
    ensures IsLongestMatch(MaskedAccount, t, MatchMaskedAccount(t))
  {
    forall n | 0 <= n <= |t| && IsMaskedAccount(t[..n])
      ensures MatchMaskedAccount(t).Some? && n <= MatchMaskedAccount(t).value.len
    {
      var w := t[..n];
      var m :| 2 <= m && m + 3 <= |w| && AllMaskChars(w[..m]) && AllDigits(w[m..]);
      PrefixPieces(t, n, m, m);
      MaskedAccountPartsAreFixed(t, m, n);
    }
    if MatchMaskedAccount(t).Some? {
      MaskedAccountIsSound(t);
    }
  }

  lemma MaskedAccountPartsAreFixed(t: string, m: nat, n: nat)
    requires 2 <= m && m + 3 <= n <= |t|
    requires AllMaskChars(t[..m]) && AllDigits(t[m..n])
    ensures MatchMaskedAccount(t).Some? && n <= MatchMaskedAccount(t).value.len
  {
    RunIsMaximal(t, IsMaskChar, m);
    assert t[m..n][0] == t[m];
    assert Run(t, IsMaskChar) == m;
    DigitsAtLeast(t, m, n);
  }

  lemma MaskedAccountIsSound(t: string)
    requires MatchMaskedAccount(t).Some?
    ensures IsMaskedAccount(t[..MatchMaskedAccount(t).value.len])
  {
    var m := Run(t, IsMaskChar);
    var n := MatchMaskedAccount(t).value.len;
    PrefixPieces(t, n, m, m);
  }

  /* ---------------- Account-number phrases ---------------- */

  /** The group-1 phrase ends exactly where the matcher stops reading spaces. */
  lemma PhraseEnd(t: string, g': nat)
    requires g' < |t| && IsDigit(t[g'])
    requires IsAccountPhrase(t[..g'])
    ensures MatchAccountNo(t).Some? && MatchAccountNo(t).value.keep == g'
    ensures MatchAccountNo(t).value.len == DigitsEnd(t, g')
  {
    var j := PhraseParts(t, g');
    assert Lower(t[j..j + 2][0]) == 'n';
    SpacesEndAt(t, 7, j);
    var q := DotSpacesEnd(t, j + 2, g');
    SpacesEndAt(t, q, g');
    AccountNoReading(t, j, q, g');
  }

  /** What `MatchAccountNo` reads when every piece is where it should be. */
  lemma AccountNoReading(t: string, j: nat, q: nat, g: nat)
    requires 7 <= |t| && SameIgnoringCase(t[..7], "account")
    requires j == SpacesEnd(t, 7) && 7 < j && j + 2 <= |t| && SameIgnoringCase(t[j..j + 2], "no")
    requires q == if j + 2 < |t| && t[j + 2] == '.' then j + 3 else j + 2
    requires q <= |t| && g == SpacesEnd(t, q) && g < |t| && IsDigit(t[g])
    ensures MatchAccountNo(t) == Some(Hit(DigitsEnd(t, g), g))
  {
    DigitsAtLeast(t, g, g + 1);
  }

  /** Where the optional dot after "no" ends, and the spaces after it. */
  lemma DotSpacesEnd(t: string, a: nat, g: nat) returns (q: nat)
    requires a <= g < |t| && IsDotSpaces(t[a..g]) && IsDigit(t[g])
    ensures q == if a < |t| && t[a] == '.' then a + 1 else a
    ensures q <= g && AllSpaces(t[q..g])
  {
    q := if a < |t| && t[a] == '.' then a + 1 else a;
    if a < g {
      assert t[a..g][0] == t[a];
      assert t[a..g][1..] == t[a + 1..g];
    }
  }

  /** The pieces of a group-1 phrase that is a prefix of `t`, read off `t` itself. */
  lemma PhraseParts(t: string, g: nat) returns (j: nat)
    requires g <= |t| && IsAccountPhrase(t[..g])
    ensures 8 <= j && j + 2 <= g
    ensures SameIgnoringCase(t[..7], "account") && AllSpaces(t[7..j])
    ensures SameIgnoringCase(t[j..j + 2], "no") && IsDotSpaces(t[j + 2..g])
  {
    var u := t[..g];
    assert u[..7] == t[..7];
    j :| 8 <= j <= |u| - 2 && AllSpaces(u[7..j]) && SameIgnoringCase(u[j..j + 2], "no") && IsDotSpaces(u[j + 2..]);
    assert u[7..j] == t[7..j] && u[j..j + 2] == t[j..j + 2] && u[j + 2..] == t[j + 2..g];
  }

  lemma AccountNoIsLongest(t: string)
    ensures IsLongestMatch(AccountNo, t, MatchAccountNo(t))
  {
    forall n | 0 <= n <= |t| && IsAccountNo(t[..n])
      ensures MatchAccountNo(t).Some?
      ensures n <= MatchAccountNo(t).value.len
    {
      AccountNoPrefixBound(t, n);
    }
    if MatchAccountNo(t).Some? {
      var h := MatchAccountNo(t).value;
      AccountNoIsSound(t);
      forall k: nat | GroupSplit(AccountNo, t[..h.len], k) ensures k == h.keep {
        SplitIsUnique(t, h.len, k);
      }
    }
  }

  lemma AccountNoPrefixBound(t: string, n: nat)
    requires n <= |t| && IsAccountNo(t[..n])
    ensures MatchAccountNo(t).Some? && n <= MatchAccountNo(t).value.len
  {
    var w := t[..n];
    var g' :| 0 < g' < |w| && IsAccountPhrase(w[..g']) && AllDigits(w[g'..]);
    PrefixPieces(t, n, g', g');
    assert t[g'..n][0] == t[g'];
    PhraseEnd(t, g');
    DigitsAtLeast(t, g', n);
  }

  lemma SplitIsUnique(t: string, n: nat, k: nat)
    requires n <= |t| && GroupSplit(AccountNo, t[..n], k)
    ensures MatchAccountNo(t).Some? && MatchAccountNo(t).value.keep == k
  {
    PrefixPieces(t, n, k, k);
    assert t[k..n][0] == t[k];
    PhraseEnd(t, k);
  }

  lemma AccountNoIsSound(t: string)
    requires MatchAccountNo(t).Some?
    ensures GroupSplit(AccountNo, t[..MatchAccountNo(t).value.len], MatchAccountNo(t).value.keep)
    ensures InLanguage(AccountNo, t[..MatchAccountNo(t).value.len])
  {
    var h := MatchAccountNo(t).value;
    var j := SpacesEnd(t, 7);
    var q := if j + 2 < |t| && t[j + 2] == '.' then j + 3 else j + 2;
    var g := h.keep;
    assert g == SpacesEnd(t, q) && h.len == DigitsEnd(t, g);
    if q == j + 3 {
      DotThenSpaces(t, j + 2, g);
    }
    PhraseFromParts(t, j, g);
    PrefixPieces(t, h.len, g, g);
  }

  lemma DotThenSpaces(t: string, a: nat, g: nat)
    requires a < g <= |t| && t[a] == '.' && AllSpaces(t[a + 1..g])
    ensures IsDotSpaces(t[a..g])
  {
    assert t[a..g][1..] == t[a + 1..g];
  }

  lemma PhraseFromParts(t: string, j: nat, g: nat)
    requires 8 <= j && j + 2 <= g <= |t|
    requires SameIgnoringCase(t[..7], "account") && AllSpaces(t[7..j])
    requires SameIgnoringCase(t[j..j + 2], "no") && IsDotSpaces(t[j + 2..g])
    ensures IsAccountPhrase(t[..g])
  {
    var u := t[..g];
    assert u[..7] == t[..7] && u[7..j] == t[7..j] && u[j..j + 2] == t[j..j + 2] && u[j + 2..] == t[j + 2..g];
  }
}
