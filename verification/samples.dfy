/**
 Worked inputs for the four pre-masking passes (src/masker.py:24-34): the
 formats the source's comments name, and the edge cases its expressions
 imply (no word boundary before a currency marker, a greedy year, at most
 two decimals, fewer than three digits after a mask). One input for the
 span pass (src/masker.py:65-68) shows that its conflict check does not
 protect a placeholder as a whole.

 Each sample takes its text as a parameter fixed by `requires t == "..."`
 rather than as a literal argument: with a literal argument the verifier
 unfolds the recursive pass eagerly and the proof grows large. For the same
 reason the last step of several samples is a small lemma (`TrailingFive`,
 `LeadingH`, `MaskedAfter`, `PhraseKept`, `FirstCopied`) that assembles the
 expected text from the pieces of the pass's result.
 */
module Samples {
  import opened Options
  import opened Text
  import opened Patterns
  import opened Rewrite
  import opened Entities

  /* ---------------- Reading a pass on a short text ---------------- */

  /** A text matched from start to end becomes its group and the placeholder. */
  lemma WholeMatch(p: Pattern, t: string, h: Hit)
    requires MatchAt(p, t) == Some(h) && h.len == |t|
    ensures Sub(p, t) == t[..h.keep] + Placeholder(p)
  {
    ReplacesMatch(p, t, h);
    assert t[h.len..] == [];
  }

  /** The currency matcher on a marker of length `m` followed by a number of length `n`. */
  lemma AmountOf(t: string, m: nat, s: nat, n: nat)
    requires MarkerLen(t) == m && 0 < m && SpacesEnd(t, m) == s
    requires s < |t| && IsDigit(t[s]) && NumberLen(t[s..]) == n
    ensures MatchAt(Amount, t) == Some(Hit(s + n, 0))
  {
    AmountReading(t);
  }

  /** A run of digits with no comma or dot after it is a whole number. */
  lemma PlainNumber(c: string)
    requires 0 < |c| && AllDigits(c)
    ensures NumberLen(c) == |c|
  {
    assert forall k :: 0 <= k < |c| ==> GroupChar(c, k);
    assert GroupedLen(c) == |c|;
    assert c[|c|..] == [];
  }

  /** `\s*` at `a` reads exactly one whitespace character. */
  lemma OneSpace(t: string, a: nat)
    requires a + 1 < |t| && IsSpace(t[a]) && !IsSpace(t[a + 1])
    ensures SpacesEnd(t, a) == a + 1
  {
    assert t[a..a + 1] == [t[a]];
    SpacesEndAt(t, a, a + 1);
  }

  /** `rs` or `rp` without a dot is a two-character marker. */
  lemma TwoLetterMarker(t: string)
    requires 3 <= |t| && Lower(t[0]) == 'r' && (Lower(t[1]) == 's' || Lower(t[1]) == 'p') && t[2] != '.'
    ensures MarkerLen(t) == 2
  {
    assert Lower(t[..3][2]) != '.';
    assert Lower(t[..3][0]) != 'i';
    assert t[..2][0] == t[0] && t[..2][1] == t[1];
  }

  /** The currency pass at a character that cannot start a marker. */
  lemma NotAMarker(t: string)
    requires 0 < |t| && Lower(t[0]) != 'r' && Lower(t[0]) != 'i'
    ensures Sub(Amount, t) == [t[0]] + Sub(Amount, t[1..])
  {
    assert MarkerLen(t) == 0 by {
      assert 3 <= |t| ==> Lower(t[..3][0]) == Lower(t[0]);
      assert 2 <= |t| ==> Lower(t[..2][0]) == Lower(t[0]);
    }
    CopiesUnmatched(Amount, t);
  }

  /* ---------------- Dates ---------------- */

  lemma DashedDate(t: string)
    requires t == "12-05-2025"
    ensures Sub(Date, t) == "<DATE>"
  {
    assert DigitsEnd(t, 8) == 10;
    WholeMatch(Date, t, Hit(10, 0));
  }

  lemma SlashedShortDate(t: string)
    requires t == "01/01/24"
    ensures Sub(Date, t) == "<DATE>"
  {
    assert DigitsEnd(t, 8) == 8;
    WholeMatch(Date, t, Hit(8, 0));
  }

  /** `\d{2,4}` takes at most four digits; the fifth is copied. */
  lemma LongYear(t: string)
    requires t == "12-05-20251"
    ensures Sub(Date, t) == "<DATE>1"
  {
    assert MatchAt(Date, t) == Some(Hit(10, 0));
    ReplacesMatch(Date, t, Hit(10, 0));
    assert t[10..] == "1";
    CopiesUnmatched(Date, "1");
    assert "1"[1..] == [];
  }

  /* ---------------- Amounts ---------------- */

  lemma RupeesWithSpace(t: string)
    requires t == "Rs 100"
    ensures Sub(Amount, t) == "<AMOUNT>"
  {
    TwoLetterMarker(t);
    OneSpace(t, 2);
    assert t[3..] == "100";
    PlainNumber("100");
    AmountOf(t, 2, 3, 3);
    WholeMatch(Amount, t, Hit(6, 0));
  }

  lemma IndianRupees(t: string)
    requires t == "INR 500"
    ensures Sub(Amount, t) == "<AMOUNT>"
  {
    assert SameIgnoringCase(t[..3], "inr");
    OneSpace(t, 3);
    assert t[4..] == "500";
    PlainNumber("500");
    AmountOf(t, 3, 4, 3);
    WholeMatch(Amount, t, Hit(7, 0));
  }

  lemma RupeesWithDecimals(t: string)
    requires t == "Rs. 100.00"
    ensures Sub(Amount, t) == "<AMOUNT>"
  {
    assert SameIgnoringCase(t[..3], "rs.");
    OneSpace(t, 3);
    assert t[4..] == "100.00";
    Decimals("100.00");
    AmountOf(t, 3, 4, 6);
    WholeMatch(Amount, t, Hit(10, 0));
  }

  lemma Decimals(c: string)
    requires c == "100.00"
    ensures NumberLen(c) == 6
  {
    assert GroupedLen(c) == 3 by {
      assert GroupChar(c, 0) && GroupChar(c, 1) && GroupChar(c, 2) && !GroupChar(c, 3);
    }
    assert c[3..] == ".00";
    assert FractionLen(".00") == 3;
  }

  /** `(?:\.\d{1,2})?` takes two decimals at most; the third is copied. */
  lemma ThirdDecimal(t: string)
    requires t == "rs 1.505"
    ensures Sub(Amount, t) == "<AMOUNT>5"
  {
    TwoLetterMarker(t);
    OneSpace(t, 2);
    ThreeDecimals(t[3..]);
    AmountOf(t, 2, 3, 4);
    ReplacesMatch(Amount, t, Hit(7, 0));
    var rest := t[7..];
    NotAMarker(rest);
    assert Sub(Amount, rest[1..]) == [];
    TrailingFive(Sub(Amount, t), t[..0], Sub(Amount, rest), rest[0], Sub(Amount, rest[1..]));
  }

  lemma TrailingFive(x: string, kept: string, y: string, c: char, z: string)
    requires x == kept + Placeholder(Amount) + y && kept == [] && y == [c] + z && c == '5' && z == []
    ensures x == "<AMOUNT>5"
  {
  }

  lemma ThreeDecimals(c: string)
    requires c == "1.505"
    ensures NumberLen(c) == 4
  {
    assert GroupedLen(c) == 1 by { assert GroupChar(c, 0) && !GroupChar(c, 1); }
    assert c[1..] == ".505";
    assert FractionLen(".505") == 3;
  }

  /** There is no word boundary before the marker: the `rs` inside `hrs` counts. */
  lemma MarkerInsideWord(t: string)
    requires t == "hrs 5"
    ensures Sub(Amount, t) == "h<AMOUNT>"
  {
    NotAMarker(t);
    FiveRupees(t[1..]);
    LeadingH(Sub(Amount, t), t[0], Sub(Amount, t[1..]));
  }

  lemma LeadingH(x: string, c: char, y: string)
    requires x == [c] + y && c == 'h' && y == "<AMOUNT>"
    ensures x == "h<AMOUNT>"
  {
  }

  lemma FiveRupees(u: string)
    requires u == "rs 5"
    ensures Sub(Amount, u) == "<AMOUNT>"
  {
    TwoLetterMarker(u);
    OneSpace(u, 2);
    PlainNumber(u[3..]);
    AmountOf(u, 2, 3, 1);
    WholeMatch(Amount, u, Hit(4, 0));
  }

  /** A digit must follow the marker and its spaces: the currency pass
      leaves `Rs XXX123` as it is. */
  lemma MarkerWithoutNumber(t: string)
    requires t == "Rs XXX123"
    ensures Sub(Amount, t) == t
  {
    NoAmountAtStart(t);
    CopiesUnmatched(Amount, t);
    NoMarkerAfterR(t);
    NoMarkerFrom(t, 1);
    FirstCopied(Sub(Amount, t), t, Sub(Amount, t[1..]));
  }

  lemma NoAmountAtStart(t: string)
    requires t == "Rs XXX123"
    ensures MatchAt(Amount, t) == None
  {
    TwoLetterMarker(t);
    OneSpace(t, 2);
    AmountReading(t);
  }

  lemma NoMarkerAfterR(t: string)
    requires t == "Rs XXX123"
    ensures forall k :: 1 <= k < |t| ==> Lower(t[k]) != 'r' && Lower(t[k]) != 'i'
  {
  }

  lemma FirstCopied(x: string, t: string, y: string)
    requires 0 < |t| && x == [t[0]] + y && y == t[1..]
    ensures x == t
  {
  }

  /** From position `i` on no character can start a marker: the currency
      pass copies the rest of `t`. */
  lemma {:induction false} NoMarkerFrom(t: string, i: nat)
    requires i <= |t|
    requires forall k :: i <= k < |t| ==> Lower(t[k]) != 'r' && Lower(t[k]) != 'i'
    ensures Sub(Amount, t[i..]) == t[i..]
    decreases |t| - i
  {
    if i < |t| {
      NoMarkerFrom(t, i + 1);
      NotAMarker(t[i..]);
      assert t[i..][1..] == t[i + 1..];
      assert [t[i]] + t[i + 1..] == t[i..];
    }
  }

  /** The currency pass and then the masked-account pass, in source order:
      `Rs XXX123` becomes `Rs <ACCOUNT>`. */
  lemma MarkerThenAccount(t: string)
    requires t == "Rs XXX123"
    ensures Sub(MaskedAccount, Sub(Amount, t)) == "Rs <ACCOUNT>"
  {
    MarkerWithoutNumber(t);
    AccountAfterMarker(t);
  }

  /* ---------------- Account numbers ---------------- */

  /** `[X*x]*` at the start of `t` reads exactly `m` characters. */
  lemma MaskRun(t: string, m: nat)
    requires m <= |t| && AllMaskChars(t[..m]) && (m == |t| || !IsMaskChar(t[m]))
    ensures Run(t, IsMaskChar) == m
  {
    assert forall k :: 0 <= k < m ==> IsMaskChar(t[..m][k]);
    RunIsMaximal(t, IsMaskChar, m);
  }

  /** `\d*` at `a` reads exactly the characters up to `e`. */
  lemma DigitRun(t: string, a: nat, e: nat)
    requires a <= e <= |t| && AllDigits(t[a..e]) && (e == |t| || !IsDigit(t[e]))
    ensures DigitsEnd(t, a) == e
  {
    DigitsAtLeast(t, a, e);
  }

  lemma MaskedCardNumber(t: string)
    requires t == "XXXX1234"
    ensures Sub(MaskedAccount, t) == "<ACCOUNT>"
  {
    MaskRun(t, 4);
    DigitRun(t, 4, 8);
    WholeMatch(MaskedAccount, t, Hit(8, 0));
  }

  /** Two digits after the mask are not enough: nothing matches anywhere. */
  lemma TooFewDigits(t: string)
    requires t == "XX12"
    ensures Sub(MaskedAccount, t) == t
  {
    var t1, t2, t3 := t[1..], t[2..], t[3..];
    MaskRun(t, 2);
    DigitRun(t, 2, 4);
    CopiesUnmatched(MaskedAccount, t);
    MaskRun(t1, 1);
    CopiesUnmatched(MaskedAccount, t1);
    MaskRun(t2, 0);
    CopiesUnmatched(MaskedAccount, t2);
    MaskRun(t3, 0);
    CopiesUnmatched(MaskedAccount, t3);
    assert t1[1..] == t2 && t2[1..] == t3 && t3[1..] == [];
  }

  /** The masked digits after the marker are still caught by the account pass. */
  lemma AccountAfterMarker(t: string)
    requires t == "Rs XXX123"
    ensures Sub(MaskedAccount, t) == "Rs <ACCOUNT>"
  {
    var t1, t2, t3 := t[1..], t[2..], t[3..];
    MaskRun(t, 0);
    CopiesUnmatched(MaskedAccount, t);
    MaskRun(t1, 0);
    CopiesUnmatched(MaskedAccount, t1);
    MaskRun(t2, 0);
    CopiesUnmatched(MaskedAccount, t2);
    assert t1[1..] == t2 && t2[1..] == t3;
    MaskedTail(t3);
    MaskedAfter(Sub(MaskedAccount, t), t[0], Sub(MaskedAccount, t1), t1[0], Sub(MaskedAccount, t2), t2[0], Sub(MaskedAccount, t3));
  }

  lemma MaskedTail(u: string)
    requires u == "XXX123"
    ensures Sub(MaskedAccount, u) == "<ACCOUNT>"
  {
    MaskRun(u, 3);
    DigitRun(u, 3, 6);
    WholeMatch(MaskedAccount, u, Hit(6, 0));
  }

  lemma MaskedAfter(x: string, a: char, x1: string, b: char, x2: string, c: char, x3: string)
    requires x == [a] + x1 && x1 == [b] + x2 && x2 == [c] + x3
    requires a == 'R' && b == 's' && c == ' ' && x3 == "<ACCOUNT>"
    ensures x == "Rs <ACCOUNT>"
  {
  }

  /** The phrase is written back as it stands; only the digits are replaced. */
  lemma AccountNumberPhrase(t: string)
    requires t == "account no 998877"
    ensures Sub(AccountNo, t) == "account no <ACCOUNT>"
  {
    PhraseWords(t);
    PhraseMatch(t);
    WholeMatch(AccountNo, t, Hit(17, 11));
    PhraseKept(Sub(AccountNo, t), t[..11]);
  }

  lemma PhraseMatch(t: string)
    requires t == "account no 998877"
    ensures MatchAt(AccountNo, t) == Some(Hit(17, 11))
  {
    PhraseWords(t);
    OneSpace(t, 7);
    OneSpace(t, 10);
    AccountNoReading(t, 8, 10, 11);
    DigitRun(t, 11, 17);
  }

  lemma PhraseKept(x: string, kept: string)
    requires x == kept + Placeholder(AccountNo) && kept == "account no "
    ensures x == "account no <ACCOUNT>"
  {
  }

  lemma PhraseWords(t: string)
    requires t == "account no 998877"
    ensures SameIgnoringCase(t[..7], "account") && SameIgnoringCase(t[8..10], "no")
    ensures t[..11] == "account no " && AllDigits(t[11..17])
  {
    assert t[..7] == "account";
    assert t[8..10] == "no";
  }

  /* ---------------- The span pass ---------------- */

  /** The conflict check looks for `<` only: a span that covers the end of
      a placeholder but not its `<` still replaces that part. */
  lemma InsidePlaceholder(text: string)
    requires text == "<DATE>"
    ensures Step(text, text, Entity(1, 6, "ORG")) == "<<ENTITY>"
  {
    var e := Entity(1, 6, "ORG");
    assert Slice(text, 1, 6) == text[1..6];
    assert '<' !in text[1..6] by {
      assert forall k :: 0 <= k < 5 ==> text[1..6][k] == text[k + 1];
    }
    TagTable("ORG", text[1..6]);
    assert TagFor("ORG", text[1..6]) == Some("<ENTITY>");
    StepChangesIff(text, text, e);
    assert text[..1] == "<" && text[6..] == [];
  }
}
