/**
 The entity-span pass of `AutoMasker.mask_message` (src/masker.py:39-68).

 The recogniser's output is a list of spans over the pre-masked text `src`.
 The loop visits them from last to first, and for each one picks a tag from
 the label table and splices it into the working text unless the span's
 current slice already holds a `<`.

 Python's slicing clamps out-of-range offsets, so the pass is modelled as a
 total function; the facts about it assume spans the way a recogniser
 delivers them (`WellFormed`).
 */
module Entities {
  import opened Options
  import opened Text

  /** A recogniser span: character offsets into the text it ran on, and its label. */
  datatype Entity = Entity(start: nat, stop: nat, category: string)

  /** In bounds, sorted by start and non-overlapping. */
  predicate WellFormed(ents: seq<Entity>, n: nat) {
    && (forall i :: 0 <= i < |ents| ==> ents[i].start <= ents[i].stop <= n)
    && (forall i, j :: 0 <= i < j < |ents| ==> ents[i].stop <= ents[j].start)
  }

  /* ---------------- Python slicing ---------------- */

  /** s[i:j] */
  function Slice(s: string, i: nat, j: nat): string {
    var a := Min(i, |s|);
    var b := Min(j, |s|);
    if a <= b then s[a..b] else []
  }

  /** s[:i] */
  function Head(s: string, i: nat): string {
    s[..Min(i, |s|)]
  }

  /** s[j:] */
  function Tail(s: string, j: nat): string {
    s[Min(j, |s|)..]
  }

  /* ---------------- Label table ---------------- */

  /** The labels the loop acts on. */
  const Recognised: seq<string> := ["MONEY", "CARDINAL", "DATE", "TIME", "ORG", "PERSON", "GPE"]

  const LabelMap: map<string, string> := map[
    "MONEY" := "<AMOUNT>",
    "CARDINAL" := "<NUMBER>",
    "DATE" := "<DATE>",
    "TIME" := "<TIME>",
    "ORG" := "<ENTITY>",
    "PERSON" := "<ENTITY>",
    "GPE" := "<LOCATION>"
  ]

  /** The closed set of placeholders the pass can write. */
  const Placeholders: set<string> := {"<AMOUNT>", "<NUMBER>", "<DATE>", "<TIME>", "<ENTITY>", "<LOCATION>"}

  /** str.isdigit(): non-empty and all digits. */
  predicate IsDigitString(s: string) {
    |s| > 0 && AllDigits(s)
  }

  /** The tag for a span labelled `cat` whose text in the source is `text`;
      None when the loop skips that label. */
  function TagFor(cat: string, text: string): Option<string> {
    if cat !in Recognised then None
    else if cat == "DATE" && IsDigitString(text) then Some("<NUMBER>")
    else Some(if cat in LabelMap then LabelMap[cat] else "<" + cat + ">")
  }

  /* ---------------- The loop ---------------- */

  /** One iteration: `text` is the working text, `src` the text the spans refer to. */
  function Step(text: string, src: string, e: Entity): string {
    match TagFor(e.category, Slice(src, e.start, e.stop))
    case None => text
    case Some(tag) =>
      if '<' in Slice(text, e.start, e.stop) then text
      else Head(text, e.start) + tag + Tail(text, e.stop)
  }

  /** `for ent in reversed(ents)`: the last span is applied first. */
  function Substitute(text: string, src: string, ents: seq<Entity>): string
    decreases |ents|
  {
    if |ents| == 0 then text
    else Substitute(Step(text, src, ents[|ents| - 1]), src, ents[..|ents| - 1])
  }

  function MaskEntities(src: string, ents: seq<Entity>): string {
    Substitute(src, src, ents)
  }

  /* ---------------- Reference: each span on its own ---------------- */

  /** What one span becomes when judged against `src` alone: its tag, or its
      own text when the cat is skipped or the text already holds a `<`. */
  function Piece(src: string, e: Entity): string {
    var slice := Slice(src, e.start, e.stop);
    match TagFor(e.category, slice)
    case None => slice
    case Some(tag) => if '<' in slice then slice else tag
  }

  /** `src` from `from` on, with the gaps between spans copied verbatim and
      each span replaced by its `Piece`. */
  function Assemble(src: string, ents: seq<Entity>, from: nat): string
    decreases |ents|
  {
    if |ents| == 0 then Tail(src, from)
    else Slice(src, from, ents[0].start) + Piece(src, ents[0]) + Assemble(src, ents[1..], ents[0].stop)
  }

  /* ---------------- Facts ---------------- */

  /** The label table: only the seven listed labels get a tag, every tag is
      one of the fixed placeholders (the `<LABEL>` fallback never fires),
      each label gets its own placeholder, and a DATE span gets `<NUMBER>`
      exactly when its text is all digits. */
  lemma TagTable(cat: string, text: string)
    ensures TagFor(cat, text).Some? <==> cat in LabelMap
    ensures TagFor(cat, text).Some? ==> TagFor(cat, text).value in Placeholders
    ensures cat == "MONEY" ==> TagFor(cat, text) == Some("<AMOUNT>")
    ensures cat == "CARDINAL" ==> TagFor(cat, text) == Some("<NUMBER>")
    ensures cat == "TIME" ==> TagFor(cat, text) == Some("<TIME>")
    ensures cat == "ORG" ==> TagFor(cat, text) == Some("<ENTITY>")
    ensures cat == "PERSON" ==> TagFor(cat, text) == Some("<ENTITY>")
    ensures cat == "GPE" ==> TagFor(cat, text) == Some("<LOCATION>")
    ensures cat == "DATE" ==> (TagFor(cat, text) == Some("<NUMBER>") <==> IsDigitString(text))
    ensures cat == "DATE" && !IsDigitString(text) ==> TagFor(cat, text) == Some("<DATE>")
  {
    assert LabelMap.Keys == set l | l in Recognised;
  }

  /** Conflict rule: one iteration changes the text exactly when the label
      is listed and the span's current slice holds no `<`; it then replaces
      exactly that slice and keeps what lies before and after it. */
  lemma StepChangesIff(text: string, src: string, e: Entity)
    requires e.start <= e.stop <= |text|
    ensures
      var tag := TagFor(e.category, Slice(src, e.start, e.stop));
      Step(text, src, e) != text <==> tag.Some? && '<' !in text[e.start..e.stop]
    ensures
      var tag := TagFor(e.category, Slice(src, e.start, e.stop));
      tag.Some? && '<' !in text[e.start..e.stop] ==>
        Step(text, src, e) == text[..e.start] + tag.value + text[e.stop..]
  {
    var tag := TagFor(e.category, Slice(src, e.start, e.stop));
    if tag.Some? && '<' !in text[e.start..e.stop] {
      TagTable(e.category, Slice(src, e.start, e.stop));
      var r := Step(text, src, e);
      assert tag.value[0] == '<';
      if e.start < e.stop {
        assert r[e.start] == '<' && text[e.start] == text[e.start..e.stop][0];
      } else {
        assert |r| > |text|;
      }
    }
  }

  /** Spans whose labels are not listed change nothing. */
  lemma {:induction false} UnlistedLabelsChangeNothing(text: string, src: string, ents: seq<Entity>)
    requires forall i :: 0 <= i < |ents| ==> ents[i].category !in Recognised
    ensures Substitute(text, src, ents) == text
    decreases |ents|
  {
    if |ents| > 0 {
      UnlistedLabelsChangeNothing(text, src, ents[..|ents| - 1]);
    }
  }

  /** The working text once spans `k..` have been applied: `src` up to the
      end of span `k - 1`, then the reference assembly of spans `k..`. */
  function Partial(src: string, ents: seq<Entity>, k: nat): string
    requires k <= |ents|
  {
    var p := if k == 0 then 0 else ents[k - 1].stop;
    Head(src, p) + Assemble(src, ents[k..], p)
  }

  /** Right-to-left invariant: applying span `k - 1` to the working text
      after spans `k..` gives the working text after spans `k - 1..`. The
      slice the span reads is still its slice of `src`, as every change so
      far lies at or after its end. */
  lemma StepExtendsPartial(src: string, ents: seq<Entity>, k: nat)
    requires WellFormed(ents, |src|) && 0 < k <= |ents|
    ensures Step(Partial(src, ents, k), src, ents[k - 1]) == Partial(src, ents, k - 1)
  {
    var e := ents[k - 1];
    var p := if k == 1 then 0 else ents[k - 2].stop;
    var rest := Assemble(src, ents[k..], e.stop);
    var text := Partial(src, ents, k);
    assert text == src[..e.stop] + rest;
    assert p <= e.start;
    assert Slice(text, e.start, e.stop) == src[e.start..e.stop];
    assert Head(text, e.start) == src[..e.start];
    assert Tail(text, e.stop) == rest;
    assert ents[k - 1..][1..] == ents[k..];
    assert Assemble(src, ents[k - 1..], p) == src[p..e.start] + Piece(src, e) + rest;
    Reassemble(src, p, e.start, e.stop, Piece(src, e), rest);
  }

  lemma Reassemble(src: string, p: nat, s: nat, t: nat, piece: string, rest: string)
    requires p <= s <= t <= |src|
    ensures src[..s] + piece + rest == src[..p] + (src[p..s] + piece + rest)
    ensures src[..t] + rest == src[..p] + (src[p..s] + src[s..t] + rest)
  {
    assert src[..s] == src[..p] + src[p..s];
    assert src[..t] == src[..p] + src[p..s] + src[s..t];
  }

  lemma {:induction false} SubstitutePartial(src: string, ents: seq<Entity>, k: nat)
    requires WellFormed(ents, |src|) && k <= |ents|
    ensures Substitute(Partial(src, ents, k), src, ents[..k]) == Assemble(src, ents, 0)
    decreases k
  {
    if k == 0 {
      assert Partial(src, ents, 0) == Assemble(src, ents, 0);
    } else {
      StepExtendsPartial(src, ents, k);
      assert ents[..k][..k - 1] == ents[..k - 1];
      assert ents[..k][k - 1] == ents[k - 1];
      SubstitutePartial(src, ents, k - 1);
    }
  }

  /** Right-to-left application equals judging every span independently
      against the pre-recogniser text: gaps between spans are copied
      verbatim and each span is either kept or replaced by its tag. */
  lemma RightToLeft(src: string, ents: seq<Entity>)
    requires WellFormed(ents, |src|)
    ensures MaskEntities(src, ents) == Assemble(src, ents, 0)
  {
    var n := |ents|;
    var p := if n == 0 then 0 else ents[n - 1].stop;
    assert Partial(src, ents, n) == src by {
      assert ents[n..] == [];
      assert src[..p] + src[p..] == src;
    }
    assert ents[..n] == ents;
    SubstitutePartial(src, ents, n);
  }
}
