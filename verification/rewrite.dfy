/**
 `re.sub(pattern, replacement, text)` for the four pre-masking patterns: a
 left-to-right scan that, at each position, either replaces the match found
 there (the longest prefix in the pattern's language) and resumes right after
 it, or copies one character and moves on. Matches therefore never overlap,
 the leftmost match wins, and unmatched characters are copied in order.
 */
module Rewrite {
  import opened Options
  import opened Text
  import opened Patterns

  function Sub(p: Pattern, t: string): string
    decreases |t|
  {
    if |t| == 0 then []
    else
      match MatchAt(p, t)
      case Some(h) => t[..h.keep] + Placeholder(p) + Sub(p, t[h.len..])
      case None => [t[0]] + Sub(p, t[1..])
  }

  /** No substring of `t` is matched by `p`. */
  ghost predicate NoMatch(p: Pattern, t: string) {
    forall i, j {:trigger InLanguage(p, t[i..j])} :: 0 <= i <= j <= |t| ==> !InLanguage(p, t[i..j])
  }

  /** No match of `p` in `t` starts before position `i`. */
  ghost predicate NoMatchBefore(p: Pattern, t: string, i: nat) {
    forall a, b {:trigger InLanguage(p, t[a..b])} :: 0 <= a < i && a <= b <= |t| ==> !InLanguage(p, t[a..b])
  }

  /** The character a replacement overwrites first is never `<`: a pass
      always changes the text where it matches. */
  lemma MatchedTextIsNotBracket(p: Pattern, w: string, keep: nat)
    requires InLanguage(p, w) && GroupSplit(p, w, keep)
    ensures keep < |w| && w[keep] != '<'
  {
    match p
    case Date =>
    case Amount =>
      var i, j :| 0 <= i <= j <= |w| && IsMarker(w[..i]) && AllSpaces(w[i..j]) && IsNumber(w[j..]);
      assert Lower(w[..i][0]) == 'r' || Lower(w[..i][0]) == 'i';
    case MaskedAccount =>
      var m :| 2 <= m && m + 3 <= |w| && AllMaskChars(w[..m]) && AllDigits(w[m..]);
      assert IsMaskChar(w[..m][0]);
    case AccountNo =>
      assert IsDigit(w[keep..][0]);
  }

  /** A pass leaves the text unchanged exactly when the pattern matches nowhere in it. */
  lemma {:induction false} UnchangedIffNoMatch(p: Pattern, t: string)
    ensures Sub(p, t) == t <==> NoMatch(p, t)
    decreases |t|
  {
    if |t| == 0 {
      EmptyHasNoMatch(p, t);
    } else {
      match MatchAt(p, t)
      case Some(h) =>
        ChangedAtMatch(p, t, h);
      case None =>
        UnchangedIffNoMatch(p, t[1..]);
        NoMatchOfTail(p, t);
        NothingMatchedAtStart(p, t);
        CopiesUnmatched(p, t);
        ConsEqual(t[0], t[1..], Sub(p, t[1..]));
    }
  }

  lemma EmptyHasNoMatch(p: Pattern, t: string)
    requires |t| == 0
    ensures NoMatch(p, t)
  {
    forall i, j | 0 <= i <= j <= |t| ensures !InLanguage(p, t[i..j]) {
      assert t[i..j] == [];
      if InLanguage(p, []) {
        MatchedTextIsNotBracket(p, [], if p == AccountNo then 1 else 0);
      }
    }
  }

  /** A match at the start of `t` is a match in `t`, and the pass changes `t` there. */
  lemma ChangedAtMatch(p: Pattern, t: string, h: Hit)
    requires MatchAt(p, t) == Some(h)
    ensures !NoMatch(p, t) && Sub(p, t) != t
  {
    MatchAtIsLongest(p, t);
    assert t[0..h.len] == t[..h.len];
    MatchedTextIsNotBracket(p, t[..h.len], h.keep);
    ReplacesMatch(p, t, h);
    assert Sub(p, t)[h.keep] == '<';
  }

  lemma NothingMatchedAtStart(p: Pattern, t: string)
    requires MatchAt(p, t).None?
    ensures forall j :: 0 <= j <= |t| ==> !InLanguage(p, t[0..j])
  {
    MatchAtIsLongest(p, t);
    forall j | 0 <= j <= |t| ensures !InLanguage(p, t[0..j]) {
      assert t[0..j] == t[..j];
    }
  }

  lemma ConsEqual(c: char, xs: string, ys: string)
    ensures [c] + ys == [c] + xs <==> ys == xs
  {
    if [c] + ys == [c] + xs {
      assert ys == ([c] + ys)[1..];
    }
  }

  /** `t` has no match exactly when no match starts at 0 and its tail has none. */
  lemma NoMatchOfTail(p: Pattern, t: string)
    requires 0 < |t|
    ensures NoMatch(p, t) <==> NoMatch(p, t[1..]) && forall j :: 0 <= j <= |t| ==> !InLanguage(p, t[0..j])
  {
    var u := t[1..];
    if NoMatch(p, t) {
      forall i, j | 0 <= i <= j <= |u| ensures !InLanguage(p, u[i..j]) {
        TailSlice(t, i, j);
      }
    }
    if NoMatch(p, u) && forall j :: 0 <= j <= |t| ==> !InLanguage(p, t[0..j]) {
      forall i, j | 1 <= i <= j <= |t| ensures !InLanguage(p, t[i..j]) {
        TailSlice(t, i - 1, j - 1);
      }
    }
  }

  lemma TailSlice(t: string, a: nat, b: nat)
    requires a <= b < |t|
    ensures t[1..][a..b] == t[a + 1..b + 1]
  {
  }

  /** Where nothing matches, a pass copies the first character and scans on. */
  lemma CopiesUnmatched(p: Pattern, t: string)
    requires 0 < |t| && MatchAt(p, t).None?
    ensures Sub(p, t) == [t[0]] + Sub(p, t[1..])
  {
  }

  /** Everything before the first match is copied unchanged. */
  lemma {:induction false} CopiedUpToFirstMatch(p: Pattern, t: string, i: nat)
    requires i <= |t| && NoMatchBefore(p, t, i)
    ensures Sub(p, t) == t[..i] + Sub(p, t[i..])
    decreases i
  {
    if i == 0 {
      NothingBefore(t, Sub(p, t));
    } else {
      NoMatchBeforeOfTail(p, t, i);
      CopiedUpToFirstMatch(p, t[1..], i - 1);
      CopiedOne(p, t, i);
    }
  }

  lemma NothingBefore(t: string, r: string)
    ensures r == t[..0] + r && t[0..] == t
  {
  }

  /** One more unmatched character before the first match is copied too. */
  lemma CopiedOne(p: Pattern, t: string, i: nat)
    requires 0 < i <= |t| && NoMatchBefore(p, t, i)
    requires Sub(p, t[1..]) == t[1..][..i - 1] + Sub(p, t[1..][i - 1..])
    ensures Sub(p, t) == t[..i] + Sub(p, t[i..])
  {
    NoMatchAtStart(p, t, i);
    CopiesUnmatched(p, t);
    DropDrop(t, 1, i - 1);
    ConsPrefix(t, i, Sub(p, t), Sub(p, t[1..]), Sub(p, t[i..]));
  }

  lemma DropDrop(t: string, i: nat, n: nat)
    requires i + n <= |t|
    ensures t[i..][n..] == t[i + n..]
  {
  }

  /** Sequence bookkeeping for `CopiedOne`, kept apart from `Sub`. */
  lemma ConsPrefix(t: string, i: nat, whole: string, fromOne: string, after: string)
    requires 0 < i <= |t|
    requires whole == [t[0]] + fromOne && fromOne == t[1..][..i - 1] + after
    ensures whole == t[..i] + after
  {
    assert t[..i] == [t[0]] + t[1..][..i - 1];
  }

  lemma NoMatchAtStart(p: Pattern, t: string, i: nat)
    requires 0 < i <= |t| && NoMatchBefore(p, t, i)
    ensures MatchAt(p, t).None?
  {
    MatchAtIsLongest(p, t);
    forall n | 0 <= n <= |t| ensures !InLanguage(p, t[..n]) {
      assert t[..n] == t[0..n];
    }
  }

  lemma NoMatchBeforeOfTail(p: Pattern, t: string, i: nat)
    requires 0 < i <= |t| && NoMatchBefore(p, t, i)
    ensures NoMatchBefore(p, t[1..], i - 1)
  {
    var u := t[1..];
    forall a, b | 0 <= a < i - 1 && a <= b <= |u| ensures !InLanguage(p, u[a..b]) {
      TailSlice(t, a, b);
    }
  }

  /** `re.sub` semantics of one pass: the leftmost match, taken as long as
      possible, is the first to be replaced; the text before it is copied,
      its captured group is written back before the placeholder, and
      scanning resumes right after it. */
  lemma FirstMatchReplaced(p: Pattern, t: string, i: nat, h: Hit)
    requires i < |t| && NoMatchBefore(p, t, i) && MatchAt(p, t[i..]) == Some(h)
    ensures i + h.len <= |t|
    ensures var u := t[i..]; Sub(p, t) == t[..i] + (u[..h.keep] + Placeholder(p) + Sub(p, u[h.len..]))
  {
    CopiedUpToFirstMatch(p, t, i);
    ReplacesMatch(p, t[i..], h);
  }

  /** At a match, a pass writes back the captured group, then the placeholder, and scans on after the match. */
  lemma ReplacesMatch(p: Pattern, t: string, h: Hit)
    requires MatchAt(p, t) == Some(h)
    ensures h.keep <= h.len <= |t|
    ensures Sub(p, t) == t[..h.keep] + Placeholder(p) + Sub(p, t[h.len..])
  {
  }
}
