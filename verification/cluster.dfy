/**
 The clustering loop of src/main.py (lines 28-47): each input line is
 stripped, skipped when blank, masked, and filed under the digest of its
 whitespace-normalised masked text. The first line with a given key fixes the
 entry's template; every line with that key adds one to its count, and the
 first three (stripped) lines are kept as examples.

 The masker and the digest (MD5 in hex) are parameters. The loop itself is
 stated for any `Filing` (how a line is stripped, masked and keyed);
 `Report` instantiates it with `Strip`, the masker and `TemplateKey`. The
 `templates` dictionary is a sequence of entries in insertion order, which
 is the order Python dictionaries iterate in.
 */
module Cluster {
  import opened Options
  import opened Text
  import opened Whitespace
  import opened Masker

  type MaskFn = string -> string
  /** A digest of a text: MD5 in hex in the source, and also the key a
      masked text is filed under (`generate_template_hash`). */
  type Digest = string -> string

  /** How a line is filed: `str.strip`, the masker, and the key of a masked text. */
  datatype Filing = Filing(strip: string -> string, mask: MaskFn, hash: Digest)

  /** At most this many example lines are kept per template. */
  const ExampleCap: nat := 3

  datatype Record = Record(template: string, count: nat, examples: seq<string>)

  datatype Entry = Entry(key: string, record: Record)

  /** The `templates` dictionary, in insertion order. */
  type Aggregate = seq<Entry>

  /** `generate_template_hash`: the digest of the normalised text. */
  function TemplateKey(digest: Digest, masked: string): string {
    digest(Normalize(masked))
  }

  /** The key a line is filed under, None for a blank line. */
  function KeyOf(line: string, f: Filing): Option<string> {
    var original := f.strip(line);
    if original == [] then None else Some(f.hash(f.mask(original)))
  }

  function Keys(agg: Aggregate): (ks: seq<string>)
    ensures |ks| == |agg| && forall i :: 0 <= i < |agg| ==> ks[i] == agg[i].key
  {
    if |agg| == 0 then [] else [agg[0].key] + Keys(agg[1..])
  }

  /** Position of the entry with key `key`, or `|agg|` when there is none. */
  function IndexOf(agg: Aggregate, key: string): (i: nat)
    ensures i <= |agg|
    ensures i < |agg| ==> agg[i].key == key
    ensures forall j :: 0 <= j < i ==> agg[j].key != key
  {
    if |agg| == 0 then 0
    else if agg[0].key == key then 0
    else 1 + IndexOf(agg[1..], key)
  }

  /** `count += 1`, and the line joins the examples while there are fewer than three. */
  function Observe(r: Record, original: string): Record {
    Record(r.template, r.count + 1, if |r.examples| < ExampleCap then r.examples + [original] else r.examples)
  }

  /** One iteration of the loop. */
  function Ingest(agg: Aggregate, line: string, f: Filing): Aggregate {
    var original := f.strip(line);
    if original == [] then agg
    else
      var masked := f.mask(original);
      var key := f.hash(masked);
      var i := IndexOf(agg, key);
      if i == |agg| then agg + [Entry(key, Observe(Record(masked, 0, []), original))]
      else agg[i := Entry(key, Observe(agg[i].record, original))]
  }

  /** The whole loop over the lines of the input file. */
  function Process(lines: seq<string>, f: Filing): Aggregate
    decreases |lines|
  {
    if |lines| == 0 then []
    else Ingest(Process(lines[..|lines| - 1], f), lines[|lines| - 1], f)
  }

  /** `main` after reading the input file, before printing. */
  function Report(lines: seq<string>, mask: MaskFn, digest: Digest): Aggregate {
    Process(lines, MainFiling(mask, digest))
  }

  /** The filing `main` uses: `str.strip`, then the masker, then `TemplateKey`. */
  function MainFiling(mask: MaskFn, digest: Digest): Filing {
    Filing(Strip, mask, m => TemplateKey(digest, m))
  }

  /** The masker with the recogniser `nlp`. */
  function Masking(nlp: Option<Recognizer>): MaskFn {
    m => Mask(nlp, m)
  }

  /** `main` once the input file is read (src/main.py:11-47): nothing when the
      language model failed to load, otherwise the templates of the lines. */
  function Templates(nlp: Option<Recognizer>, lines: seq<string>, digest: Digest): (r: Option<Aggregate>)
    ensures r.None? <==> nlp.None?
  {
    match nlp
    case None => None
    case Some(_) => Some(Report(lines, Masking(nlp), digest))
  }

  function TotalCount(agg: Aggregate): nat {
    if |agg| == 0 then 0 else agg[0].record.count + TotalCount(agg[1..])
  }

  /* ---------------- Reference definitions ---------------- */

  /** The stripped non-blank lines filed under `key`, in input order. */
  function Originals(lines: seq<string>, f: Filing, key: string): seq<string>
    decreases |lines|
  {
    if |lines| == 0 then []
    else
      var prev := Originals(lines[..|lines| - 1], f, key);
      var last := lines[|lines| - 1];
      if KeyOf(last, f) == Some(key) then prev + [f.strip(last)] else prev
  }

  /** The keys of the non-blank lines, each once, in order of first appearance. */
  function FirstSeen(lines: seq<string>, f: Filing): seq<string>
    decreases |lines|
  {
    if |lines| == 0 then []
    else
      var prev := FirstSeen(lines[..|lines| - 1], f);
      match KeyOf(lines[|lines| - 1], f)
      case Some(key) => if key in prev then prev else prev + [key]
      case None => prev
  }

  function NonBlank(lines: seq<string>, strip: string -> string): nat
    decreases |lines|
  {
    if |lines| == 0 then 0
    else NonBlank(lines[..|lines| - 1], strip) + (if strip(lines[|lines| - 1]) == [] then 0 else 1)
  }

  predicate Distinct(ks: seq<string>) {
    forall i, j :: 0 <= i < j < |ks| ==> ks[i] != ks[j]
  }

  /** A record summarises the lines `os` filed under its key: the template is
      the first line's masked text, the count is the number of lines, and the
      examples are the first three lines. */
  predicate Tally(r: Record, os: seq<string>, mask: MaskFn) {
    && |os| > 0
    && r.count == |os|
    && r.template == mask(os[0])
    && r.examples == os[..Min(ExampleCap, |os|)]
  }

  /** The aggregate after reading `lines`: one entry per key in order of first
      appearance, each summarising exactly the lines filed under it. */
  predicate Summarises(agg: Aggregate, lines: seq<string>, f: Filing) {
    && Keys(agg) == FirstSeen(lines, f)
    && forall i :: 0 <= i < |agg| ==> Tally(agg[i].record, Originals(lines, f, agg[i].key), f.mask)
  }

  /* ---------------- Facts ---------------- */

  /** The loop's result: keys are distinct and in order of first appearance,
      every entry summarises exactly the lines filed under its key, and the
      counts add up to the number of non-blank lines. */
  lemma ProcessSpec(lines: seq<string>, f: Filing)
    ensures Summarises(Process(lines, f), lines, f)
    ensures Distinct(Keys(Process(lines, f)))
    ensures TotalCount(Process(lines, f)) == NonBlank(lines, f.strip)
  {
    ProcessSummarises(lines, f);
    FirstSeenDistinct(lines, f);
    ProcessTotal(lines, f);
  }

  /** `ProcessSpec` for the filing `main` uses: blank means all whitespace. */
  lemma ReportSpec(lines: seq<string>, mask: MaskFn, digest: Digest)
    ensures Summarises(Report(lines, mask, digest), lines, MainFiling(mask, digest))
    ensures Distinct(Keys(Report(lines, mask, digest)))
    ensures TotalCount(Report(lines, mask, digest)) == NonBlank(lines, Strip)
  {
    ProcessSpec(lines, MainFiling(mask, digest));
  }

  /** With a model loaded, `main` groups the non-blank lines by the key of
      their masked text, each template being the masked first line. */
  lemma TemplatesSpec(nlp: Option<Recognizer>, lines: seq<string>, digest: Digest)
    requires nlp.Some?
    ensures Templates(nlp, lines, digest).Some?
    ensures
      var agg := Templates(nlp, lines, digest).value;
      && Summarises(agg, lines, MainFiling(Masking(nlp), digest))
      && Distinct(Keys(agg))
      && TotalCount(agg) == NonBlank(lines, Strip)
  {
    ReportSpec(lines, Masking(nlp), digest);
  }

  /** Two masked texts with the same words get the same key, whatever the digest. */
  lemma SameWordsSameKey(digest: Digest, a: string, b: string)
    requires Words(a) == Words(b)
    ensures TemplateKey(digest, a) == TemplateKey(digest, b)
  {
    SameNormalFormIff(a, b);
  }

  /** Two non-blank lines whose masked texts have the same words are filed
      in one entry of `main`'s aggregate, whatever the digest. */
  lemma SameWordsOneEntry(lines: seq<string>, mask: MaskFn, digest: Digest, i: nat, j: nat)
    requires i < |lines| && j < |lines|
    requires Strip(lines[i]) != [] && Strip(lines[j]) != []
    requires Words(mask(Strip(lines[i]))) == Words(mask(Strip(lines[j])))
    ensures
      var f := MainFiling(mask, digest);
      var key := TemplateKey(digest, mask(Strip(lines[i])));
      && key in Keys(Report(lines, mask, digest))
      && Strip(lines[i]) in Originals(lines, f, key)
      && Strip(lines[j]) in Originals(lines, f, key)
  {
    var f := MainFiling(mask, digest);
    var key := TemplateKey(digest, mask(Strip(lines[i])));
    SameWordsSameKey(digest, mask(Strip(lines[i])), mask(Strip(lines[j])));
    assert KeyOf(lines[i], f) == Some(key) && KeyOf(lines[j], f) == Some(key);
    FiledUnderKey(lines, f, i);
    FiledUnderKey(lines, f, j);
    ReportSpec(lines, mask, digest);
    SeenIffFiled(lines, f, key);
  }

  /** A non-blank line's stripped text is among the lines filed under its key. */
  lemma {:induction false} FiledUnderKey(lines: seq<string>, f: Filing, i: nat)
    requires i < |lines| && KeyOf(lines[i], f).Some?
    ensures f.strip(lines[i]) in Originals(lines, f, KeyOf(lines[i], f).value)
    decreases |lines|
  {
    var key := KeyOf(lines[i], f).value;
    var init := lines[..|lines| - 1];
    if i < |lines| - 1 {
      assert init[i] == lines[i];
      FiledUnderKey(init, f, i);
    }
  }

  /** With a collision-free digest, two masked texts share an entry exactly
      when they have the same words; `SameWordsSameKey` gives the forward
      direction for any digest. */
  lemma SameKeyIff(digest: Digest, a: string, b: string)
    requires forall x, y :: digest(x) == digest(y) ==> x == y
    ensures TemplateKey(digest, a) == TemplateKey(digest, b) <==> Words(a) == Words(b)
  {
    SameNormalFormIff(a, b);
  }

  /** Every record keeps at most three examples and never more than its count. */
  lemma TallyBounds(r: Record, os: seq<string>, mask: MaskFn)
    requires Tally(r, os, mask)
    ensures |r.examples| <= ExampleCap && |r.examples| <= r.count
    ensures |r.examples| == ExampleCap || |r.examples| == r.count
  {
  }

  lemma {:induction false} ProcessSummarises(lines: seq<string>, f: Filing)
    ensures Summarises(Process(lines, f), lines, f)
    decreases |lines|
  {
    if |lines| > 0 {
      ProcessSummarises(lines[..|lines| - 1], f);
      IngestSummarises(Process(lines[..|lines| - 1], f), lines, f);
    }
  }

  lemma {:induction false} FirstSeenDistinct(lines: seq<string>, f: Filing)
    ensures Distinct(FirstSeen(lines, f))
    decreases |lines|
  {
    if |lines| > 0 {
      FirstSeenDistinct(lines[..|lines| - 1], f);
    }
  }

  /** A key has been seen exactly when some line has been filed under it. */
  lemma {:induction false} SeenIffFiled(lines: seq<string>, f: Filing, key: string)
    ensures key in FirstSeen(lines, f) <==> Originals(lines, f, key) != []
    decreases |lines|
  {
    if |lines| > 0 {
      SeenIffFiled(lines[..|lines| - 1], f, key);
    }
  }

  /** Reading the last of `lines`. */
  lemma IngestSummarises(agg: Aggregate, lines: seq<string>, f: Filing)
    requires 0 < |lines| && Summarises(agg, lines[..|lines| - 1], f)
    ensures Summarises(Ingest(agg, lines[|lines| - 1], f), lines, f)
  {
    match KeyOf(lines[|lines| - 1], f)
    case None =>
      BlankLineKeepsSummary(agg, lines, f);
    case Some(key) =>
      FirstSeenDistinct(lines[..|lines| - 1], f);
      if IndexOf(agg, key) == |agg| {
        NewKeySummary(agg, lines, f, key);
      } else {
        KnownKeySummary(agg, lines, f, key);
      }
  }

  lemma BlankLineKeepsSummary(agg: Aggregate, lines: seq<string>, f: Filing)
    requires 0 < |lines| && Summarises(agg, lines[..|lines| - 1], f)
    requires KeyOf(lines[|lines| - 1], f).None?
    ensures Summarises(Ingest(agg, lines[|lines| - 1], f), lines, f)
  {
    var init := lines[..|lines| - 1];
    assert FirstSeen(lines, f) == FirstSeen(init, f);
    forall i | 0 <= i < |agg|
      ensures Originals(lines, f, agg[i].key) == Originals(init, f, agg[i].key)
    {
    }
  }

  /** What one non-blank line does to the aggregate: a new key gets a fresh
      entry at the end, a known key's entry observes the line in place. */
  lemma IngestFiles(agg: Aggregate, line: string, f: Filing, key: string)
    requires KeyOf(line, f) == Some(key)
    ensures
      var original := f.strip(line);
      var i := IndexOf(agg, key);
      Ingest(agg, line, f) ==
        if i == |agg| then agg + [Entry(key, Record(f.mask(original), 1, [original]))]
        else agg[i := Entry(key, Observe(agg[i].record, original))]
  {
    var original := f.strip(line);
    assert Observe(Record(f.mask(original), 0, []), original) == Record(f.mask(original), 1, [original]);
  }

  /** Filing the last line under `key` extends that key's lines and no other's. */
  lemma OriginalsStep(lines: seq<string>, f: Filing, key: string, other: string)
    requires 0 < |lines| && KeyOf(lines[|lines| - 1], f) == Some(key)
    ensures other == key ==>
      Originals(lines, f, other) == Originals(lines[..|lines| - 1], f, other) + [f.strip(lines[|lines| - 1])]
    ensures other != key ==>
      Originals(lines, f, other) == Originals(lines[..|lines| - 1], f, other)
  {
  }

  lemma NewKeySummary(agg: Aggregate, lines: seq<string>, f: Filing, key: string)
    requires 0 < |lines| && Summarises(agg, lines[..|lines| - 1], f)
    requires KeyOf(lines[|lines| - 1], f) == Some(key)
    requires IndexOf(agg, key) == |agg|
    ensures Summarises(Ingest(agg, lines[|lines| - 1], f), lines, f)
  {
    var original := f.strip(lines[|lines| - 1]);
    IngestFiles(agg, lines[|lines| - 1], f, key);
    NewKeyKeys(agg, lines, f, key, Record(f.mask(original), 1, [original]));
    NewKeyTallies(agg, lines, f, key);
  }

  /** A new key goes to the end of the key order. */
  lemma NewKeyKeys(agg: Aggregate, lines: seq<string>, f: Filing, key: string, r: Record)
    requires 0 < |lines| && Keys(agg) == FirstSeen(lines[..|lines| - 1], f)
    requires KeyOf(lines[|lines| - 1], f) == Some(key)
    requires IndexOf(agg, key) == |agg|
    ensures Keys(agg + [Entry(key, r)]) == FirstSeen(lines, f)
  {
    AbsentKey(agg, key);
    KeysAppend(agg, Entry(key, r));
  }

  lemma AbsentKey(agg: Aggregate, key: string)
    requires IndexOf(agg, key) == |agg|
    ensures key !in Keys(agg)
  {
  }

  /** The entries before the new one keep their lines; the new one has just the last line. */
  lemma NewKeyTallies(agg: Aggregate, lines: seq<string>, f: Filing, key: string)
    requires 0 < |lines| && Summarises(agg, lines[..|lines| - 1], f)
    requires KeyOf(lines[|lines| - 1], f) == Some(key)
    requires IndexOf(agg, key) == |agg|
    ensures
      var original := f.strip(lines[|lines| - 1]);
      var agg' := agg + [Entry(key, Record(f.mask(original), 1, [original]))];
      forall i :: 0 <= i < |agg'| ==> Tally(agg'[i].record, Originals(lines, f, agg'[i].key), f.mask)
  {
    var init := lines[..|lines| - 1];
    var original := f.strip(lines[|lines| - 1]);
    var agg' := agg + [Entry(key, Record(f.mask(original), 1, [original]))];
    AbsentKey(agg, key);
    SeenIffFiled(init, f, key);
    forall i | 0 <= i < |agg'|
      ensures Tally(agg'[i].record, Originals(lines, f, agg'[i].key), f.mask)
    {
      OriginalsStep(lines, f, key, agg'[i].key);
      if i < |agg| {
        assert agg'[i] == agg[i] && agg[i].key != key;
      } else {
        FirstTally(original, f.mask);
      }
    }
  }

  /** The entry created for a key's first line. */
  lemma FirstTally(o: string, mask: MaskFn)
    ensures Tally(Record(mask(o), 1, [o]), [o], mask)
  {
    assert [o][..Min(ExampleCap, 1)] == [o];
  }

  lemma KnownKeySummary(agg: Aggregate, lines: seq<string>, f: Filing, key: string)
    requires 0 < |lines| && Summarises(agg, lines[..|lines| - 1], f)
    requires Distinct(FirstSeen(lines[..|lines| - 1], f))
    requires KeyOf(lines[|lines| - 1], f) == Some(key)
    requires IndexOf(agg, key) < |agg|
    ensures Summarises(Ingest(agg, lines[|lines| - 1], f), lines, f)
  {
    var init, line := lines[..|lines| - 1], lines[|lines| - 1];
    var original := f.strip(line);
    var i := IndexOf(agg, key);
    var r := Observe(agg[i].record, original);
    IngestFiles(agg, line, f, key);
    var agg' := agg[i := Entry(key, r)];
    assert Keys(agg') == FirstSeen(lines, f) by {
      assert key in Keys(agg);
      KeysUpdate(agg, i, r);
    }
    forall j | 0 <= j < |agg'|
      ensures Tally(agg'[j].record, Originals(lines, f, agg'[j].key), f.mask)
    {
      OriginalsStep(lines, f, key, agg'[j].key);
      if j == i {
        ObserveTally(agg[i].record, Originals(init, f, key), original, f.mask);
      } else {
        assert Keys(agg)[j] != Keys(agg)[i];
      }
    }
  }

  /** Observing one more line keeps a record in step with its lines. */
  lemma ObserveTally(r: Record, os: seq<string>, original: string, mask: MaskFn)
    requires Tally(r, os, mask)
    ensures Tally(Observe(r, original), os + [original], mask)
  {
    var os' := os + [original];
    assert os'[0] == os[0];
    if |os| < ExampleCap {
      assert os'[..|os| + 1] == os';
      assert os[..|os|] == os;
    } else {
      assert os'[..ExampleCap] == os[..ExampleCap];
    }
  }

  lemma KeysAppend(agg: Aggregate, e: Entry)
    ensures Keys(agg + [e]) == Keys(agg) + [e.key]
  {
  }

  lemma KeysUpdate(agg: Aggregate, i: nat, r: Record)
    requires i < |agg|
    ensures Keys(agg[i := Entry(agg[i].key, r)]) == Keys(agg)
  {
  }

  /* ---------------- Counts ---------------- */

  lemma {:induction false} ProcessTotal(lines: seq<string>, f: Filing)
    ensures TotalCount(Process(lines, f)) == NonBlank(lines, f.strip)
    decreases |lines|
  {
    if |lines| > 0 {
      var init := lines[..|lines| - 1];
      ProcessTotal(init, f);
      IngestTotal(Process(init, f), lines[|lines| - 1], f);
    }
  }

  /** Each non-blank line adds exactly one to the total count. */
  lemma IngestTotal(agg: Aggregate, line: string, f: Filing)
    ensures TotalCount(Ingest(agg, line, f)) == TotalCount(agg) + (if f.strip(line) == [] then 0 else 1)
  {
    var original := f.strip(line);
    if original != [] {
      var masked := f.mask(original);
      var key := f.hash(masked);
      var i := IndexOf(agg, key);
      if i == |agg| {
        TotalAppend(agg, Entry(key, Observe(Record(masked, 0, []), original)));
      } else {
        TotalUpdate(agg, i, Entry(key, Observe(agg[i].record, original)));
      }
    }
  }

  lemma {:induction false} TotalAppend(agg: Aggregate, e: Entry)
    ensures TotalCount(agg + [e]) == TotalCount(agg) + e.record.count
    decreases |agg|
  {
    if |agg| > 0 {
      assert (agg + [e])[1..] == agg[1..] + [e];
      TotalAppend(agg[1..], e);
    } else {
      assert agg + [e] == [e];
    }
  }

  lemma {:induction false} TotalUpdate(agg: Aggregate, i: nat, e: Entry)
    requires i < |agg|
    ensures TotalCount(agg[i := e]) + agg[i].record.count == TotalCount(agg) + e.record.count
    decreases |agg|
  {
    if i > 0 {
      assert agg[i := e][1..] == agg[1..][i - 1 := e];
      TotalUpdate(agg[1..], i - 1, e);
    } else {
      assert agg[i := e][1..] == agg[1..];
    }
  }
}
