/**
 Whitespace handling in the clusterer (src/main.py): `str.strip` on each
 input line (line 29) and the normalisation `" ".join(s.split())` applied to
 a masked message before it is hashed (line 7).
 */
module Whitespace {
  import opened Text

  /** An element of `str.split()`'s result: non-empty, no whitespace. */
  predicate IsWord(w: string) {
    |w| > 0 && forall k :: 0 <= k < |w| ==> IsWordChar(w[k])
  }

  predicate AllWords(ws: seq<string>) {
    forall i :: 0 <= i < |ws| ==> IsWord(ws[i])
  }

  /** `s.split()`: the maximal runs of non-whitespace characters, in order. */
  function Words(s: string): (ws: seq<string>)
    ensures AllWords(ws)
    decreases |s|
  {
    if |s| == 0 then []
    else if IsSpace(s[0]) then Words(s[1..])
    else
      var n := Run(s, IsWordChar);
      assert forall k :: 0 <= k < n ==> s[..n][k] == s[k];
      [s[..n]] + Words(s[n..])
  }

  /** `" ".join(ws)` */
  function Join(ws: seq<string>): string {
    if |ws| == 0 then []
    else if |ws| == 1 then ws[0]
    else ws[0] + " " + Join(ws[1..])
  }

  /** `" ".join(s.split())` */
  function Normalize(s: string): string {
    Join(Words(s))
  }

  /** Single spaces between words and nowhere else: every whitespace
      character is a plain space with a non-whitespace character on its right
      and is not the first character. */
  predicate IsNormalized(r: string) {
    forall k :: 0 <= k < |r| && IsSpace(r[k]) ==> r[k] == ' ' && 0 < k && k + 1 < |r| && !IsSpace(r[k + 1])
  }

  /** `s` with every whitespace character removed. */
  function NonSpace(s: string): string {
    if |s| == 0 then [] else (if IsSpace(s[0]) then [] else [s[0]]) + NonSpace(s[1..])
  }

  function Concat(ws: seq<string>): string {
    if |ws| == 0 then [] else ws[0] + Concat(ws[1..])
  }

  /* ---------------- split / join ---------------- */

  /** Whitespace in front of a text does not change its words. */
  lemma WordsAfterSpace(c: char, x: string)
    requires IsSpace(c)
    ensures Words([c] + x) == Words(x)
  {
    assert ([c] + x)[1..] == x;
  }

  /** A word followed by whitespace (or by nothing) is the first element of the split. */
  lemma WordsOfWordThen(w: string, x: string)
    requires IsWord(w) && (|x| == 0 || IsSpace(x[0]))
    ensures Words(w + x) == [w] + Words(x)
  {
    var s := w + x;
    assert !IsSpace(s[0]);
    RunIsMaximal(s, IsWordChar, |w|);
    assert s[..|w|] == w && s[|w|..] == x;
  }

  /** Round trip: splitting a join of words gives back the words. */
  lemma {:induction false} WordsOfJoin(ws: seq<string>)
    requires AllWords(ws)
    ensures Words(Join(ws)) == ws
  {
    if |ws| == 1 {
      WordsOfWord(ws[0]);
    } else if |ws| > 1 {
      WordsOfJoin(ws[1..]);
      WordsOfWordSpace(ws[0], Join(ws[1..]), ws[1..]);
      assert ws == [ws[0]] + ws[1..];
    }
  }

  lemma WordsOfWord(w: string)
    requires IsWord(w)
    ensures Words(w) == [w]
  {
    WordsOfWordThen(w, []);
    assert w + [] == w;
  }

  /** A word, a space, then a text with words `ws`. */
  lemma WordsOfWordSpace(w: string, rest: string, ws: seq<string>)
    requires IsWord(w) && Words(rest) == ws
    ensures Words(w + " " + rest) == [w] + ws
  {
    assert w + " " + rest == w + ([' '] + rest);
    WordsOfWordThen(w, [' '] + rest);
    WordsAfterSpace(' ', rest);
  }

  /** A join of words is normalised. */
  lemma {:induction false} JoinIsNormalized(ws: seq<string>)
    requires AllWords(ws)
    ensures IsNormalized(Join(ws))
    ensures |ws| > 0 ==> 0 < |Join(ws)| && !IsSpace(Join(ws)[0])
  {
    if |ws| == 1 {
      assert IsWord(ws[0]);
    } else if |ws| > 1 {
      var w, rest := ws[0], Join(ws[1..]);
      JoinIsNormalized(ws[1..]);
      assert IsWord(w);
      var r := Join(ws);
      assert r == w + " " + rest;
      forall k | 0 <= k < |r| && IsSpace(r[k])
        ensures r[k] == ' ' && 0 < k && k + 1 < |r| && !IsSpace(r[k + 1])
      {
        if k > |w| {
          assert r[k] == rest[k - |w| - 1];
        }
      }
    }
  }

  /** A normalised text is a join of its own words. */
  lemma {:induction false} NormalizedIsJoin(r: string)
    requires IsNormalized(r)
    ensures Join(Words(r)) == r
    decreases |r|
  {
    if |r| > 0 {
      var n := Run(r, IsWordChar);
      if n == |r| {
        NormalizedWord(r);
      } else {
        NormalizedSuffix(r, n + 1);
        NormalizedIsJoin(r[n + 1..]);
        NormalizedStep(r, n);
      }
    }
  }

  lemma NormalizedWord(r: string)
    requires IsNormalized(r) && 0 < |r| && Run(r, IsWordChar) == |r|
    ensures Join(Words(r)) == r
  {
    WordsOfWord(r);
  }

  /** A normalised text is its first word, a space, then a normalised rest. */
  lemma NormalizedStep(r: string, n: nat)
    requires IsNormalized(r) && n == Run(r, IsWordChar) < |r|
    requires Join(Words(r[n + 1..])) == r[n + 1..] && Words(r[n + 1..]) != []
    ensures Join(Words(r)) == r
  {
    var w, tail := r[..n], r[n + 1..];
    assert 0 < n && r[n] == ' ';
    assert IsWord(w);
    SplitAtSpace(r, n);
    WordsOfWordSpace(w, tail, Words(tail));
    JoinCons(w, Words(tail));
  }

  lemma SplitAtSpace(r: string, n: nat)
    requires n < |r| && r[n] == ' '
    ensures r == r[..n] + " " + r[n + 1..]
  {
  }

  /** What follows a space of a normalised text is normalised and starts a word. */
  lemma NormalizedSuffix(r: string, i: nat)
    requires IsNormalized(r) && 0 < i < |r| && r[i - 1] == ' '
    ensures IsNormalized(r[i..]) && Words(r[i..]) != []
  {
    var tail := r[i..];
    forall k | 0 <= k < |tail| && IsSpace(tail[k])
      ensures tail[k] == ' ' && 0 < k && k + 1 < |tail| && !IsSpace(tail[k + 1])
    {
      assert tail[k] == r[i + k];
    }
    assert !IsSpace(tail[0]);
    assert Run(tail, IsSpace) == 0;
  }

  lemma JoinCons(w: string, ws: seq<string>)
    requires |ws| > 0
    ensures Join([w] + ws) == w + " " + Join(ws)
  {
    assert ([w] + ws)[1..] == ws;
  }

  /** The normal form of `s` is normalised. */
  lemma NormalizeIsNormalized(s: string)
    ensures IsNormalized(Normalize(s))
  {
    JoinIsNormalized(Words(s));
  }

  /** Normalisation leaves a text alone exactly when it is already normalised. */
  lemma NormalizeFixedIff(r: string)
    ensures Normalize(r) == r <==> IsNormalized(r)
  {
    if IsNormalized(r) {
      NormalizedIsJoin(r);
    } else {
      NormalizeIsNormalized(r);
    }
  }

  /** Normalisation keeps the words of a text, in order. */
  lemma NormalizeKeepsWords(s: string)
    ensures Words(Normalize(s)) == Words(s)
  {
    WordsOfJoin(Words(s));
  }

  lemma NormalizeIdempotent(s: string)
    ensures Normalize(Normalize(s)) == Normalize(s)
  {
    WordsOfJoin(Words(s));
  }

  /** Two texts get the same normal form exactly when they split into the same words. */
  lemma SameNormalFormIff(a: string, b: string)
    ensures Normalize(a) == Normalize(b) <==> Words(a) == Words(b)
  {
    WordsOfJoin(Words(a));
    WordsOfJoin(Words(b));
  }

  /* ---------------- Only whitespace changes ---------------- */

  lemma {:induction false} NonSpaceAppend(x: string, y: string)
    ensures NonSpace(x + y) == NonSpace(x) + NonSpace(y)
    decreases |x|
  {
    if |x| > 0 {
      assert (x + y)[1..] == x[1..] + y;
      NonSpaceAppend(x[1..], y);
    } else {
      assert x + y == y;
    }
  }

  lemma {:induction false} NonSpaceOfWord(w: string)
    requires forall k :: 0 <= k < |w| ==> IsWordChar(w[k])
    ensures NonSpace(w) == w
    decreases |w|
  {
    if |w| > 0 {
      NonSpaceOfWord(w[1..]);
      assert w == [w[0]] + w[1..];
    }
  }

  /** Splitting drops exactly the whitespace. */
  lemma {:induction false} WordsKeepText(s: string)
    ensures Concat(Words(s)) == NonSpace(s)
    decreases |s|
  {
    if |s| > 0 {
      if IsSpace(s[0]) {
        WordsKeepText(s[1..]);
      } else {
        var n := Run(s, IsWordChar);
        WordsKeepText(s[n..]);
        KeepTextStep(s, n);
      }
    }
  }

  lemma KeepTextStep(s: string, n: nat)
    requires 0 < |s| && !IsSpace(s[0]) && n == Run(s, IsWordChar)
    requires Concat(Words(s[n..])) == NonSpace(s[n..])
    ensures Concat(Words(s)) == NonSpace(s)
  {
    WordsOfWordStart(s, n);
    ConcatCons(s[..n], Words(s[n..]));
    WordPrefixText(s, n);
  }

  lemma WordsOfWordStart(s: string, n: nat)
    requires 0 < |s| && !IsSpace(s[0]) && n == Run(s, IsWordChar)
    ensures Words(s) == [s[..n]] + Words(s[n..])
  {
  }

  /** The non-whitespace of a text whose first `n` characters are a word. */
  lemma WordPrefixText(s: string, n: nat)
    requires n <= |s| && forall k :: 0 <= k < n ==> IsWordChar(s[k])
    ensures NonSpace(s) == s[..n] + NonSpace(s[n..])
  {
    var w, rest := s[..n], s[n..];
    assert forall k :: 0 <= k < n ==> w[k] == s[k];
    assert s == w + rest;
    WordThenText(w, rest);
  }

  /** The non-whitespace of a word followed by a text. */
  lemma WordThenText(w: string, rest: string)
    requires forall k :: 0 <= k < |w| ==> IsWordChar(w[k])
    ensures NonSpace(w + rest) == w + NonSpace(rest)
  {
    NonSpaceOfWord(w);
    NonSpaceAppend(w, rest);
  }

  lemma ConcatCons(w: string, ws: seq<string>)
    ensures Concat([w] + ws) == w + Concat(ws)
  {
    assert ([w] + ws)[1..] == ws;
  }

  /** Normalisation changes only whitespace: the non-whitespace characters
      are kept, in order. */
  lemma NormalizeKeepsText(s: string)
    ensures NonSpace(Normalize(s)) == NonSpace(s)
  {
    WordsOfJoin(Words(s));
    WordsKeepText(Normalize(s));
    WordsKeepText(s);
  }

  /* ---------------- strip ---------------- */

  /** Number of whitespace characters at the end of `s`. */
  function TrailingSpaces(s: string): (n: nat)
    ensures n <= |s| && AllSpaces(s[|s| - n..])
    ensures n == |s| || !IsSpace(s[|s| - 1 - n])
  {
    if |s| == 0 || !IsSpace(s[|s| - 1]) then 0
    else
      var t := s[..|s| - 1];
      var n := 1 + TrailingSpaces(t);
      var u, v := s[|s| - n..], t[|t| - (n - 1)..];
      assert forall k :: 0 <= k < n - 1 ==> u[k] == v[k];
      n
  }

  /** `s.strip()`: `s` without its leading and trailing whitespace. */
  function Strip(s: string): (r: string)
    ensures exists a :: 0 <= a && a + |r| <= |s| && r == s[a..a + |r|] && AllSpaces(s[..a]) && AllSpaces(s[a + |r|..])
    ensures |r| == 0 || (!IsSpace(r[0]) && !IsSpace(r[|r| - 1]))
  {
    var a := SpacesEnd(s, 0);
    if a == |s| then
      Infix(s, a, a);
      []
    else
      var b := |s| - TrailingSpaces(s);
      StripBounds(s, a, b);
      Infix(s, a, b);
      Ends(s, a, b);
      s[a..b]
  }

  /** The whitespace at the two ends of a text that is not all whitespace does not meet. */
  lemma StripBounds(s: string, a: nat, b: nat)
    requires a < |s| && !IsSpace(s[a])
    requires b <= |s| && AllSpaces(s[b..]) && (b == 0 || !IsSpace(s[b - 1]))
    ensures a < b && !IsSpace(s[b - 1])
  {
    forall k | b <= k < |s| ensures IsSpace(s[k]) {
      assert s[b..][k - b] == s[k];
    }
  }

  lemma Ends(s: string, a: nat, b: nat)
    requires a < b <= |s| && !IsSpace(s[a]) && !IsSpace(s[b - 1])
    ensures var r := s[a..b]; !IsSpace(r[0]) && !IsSpace(r[|r| - 1])
  {
  }

  /** `s[a..b]` with whitespace on both sides meets `Strip`'s first postcondition. */
  lemma Infix(s: string, a: nat, b: nat)
    requires a <= b <= |s| && AllSpaces(s[..a]) && AllSpaces(s[b..])
    ensures var r := s[a..b];
      exists a' :: 0 <= a' && a' + |r| <= |s| && r == s[a'..a' + |r|] && AllSpaces(s[..a']) && AllSpaces(s[a' + |r|..])
  {
    assert a + |s[a..b]| == b;
  }

  /** A line strips to nothing exactly when it is all whitespace, that is,
      exactly when it has no words. */
  lemma StripEmptyIff(s: string)
    ensures Strip(s) == [] <==> AllSpaces(s)
    ensures Strip(s) == [] <==> Words(s) == []
  {
    if Strip(s) == [] {
      BlankStrip(s);
    } else {
      FilledStrip(s);
    }
  }

  lemma BlankStrip(s: string)
    requires Strip(s) == []
    ensures AllSpaces(s) && Words(s) == []
  {
    StripReadsRun(s);
    WordsEmptyIff(s);
  }

  lemma FilledStrip(s: string)
    requires Strip(s) != []
    ensures !AllSpaces(s) && Words(s) != []
  {
    StripReadsRun(s);
    WordsEmptyIff(s);
  }

  /** `strip` keeps something exactly when `s` is not all whitespace. */
  lemma StripReadsRun(s: string)
    ensures Strip(s) == [] <==> AllSpaces(s)
  {
  }

  /** A text has no words exactly when it is all whitespace. */
  lemma {:induction false} WordsEmptyIff(s: string)
    ensures Words(s) == [] <==> AllSpaces(s)
    decreases |s|
  {
    if |s| > 0 && IsSpace(s[0]) {
      WordsEmptyIff(s[1..]);
      assert AllSpaces(s) <==> AllSpaces(s[1..]) by {
        assert forall k :: 0 <= k < |s| - 1 ==> s[1..][k] == s[k + 1];
      }
    }
  }
}
