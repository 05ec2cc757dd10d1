# Auto-Masking in Dafny

A model of the masking pipeline and the template clustering of Auto-Masking.

**Masking.** `AutoMasker.mask_message` turns an SMS-style message into a template. It works in two stages:

1. Four regular-expression passes run in a fixed order:
   - dates become `<DATE>`;
   - currency amounts become `<AMOUNT>`;
   - masked account numbers such as `XXXX1234` become `<ACCOUNT>`;
   - the digits after an "account no" phrase become `<ACCOUNT>`.
2. An entity-span pass replaces the spans a named-entity recogniser finds by tags such as `<ENTITY>` or `<NUMBER>`.

**Clustering.** The `main` loop of the clusterer does the following for each input line:

- it strips the line and skips it when blank;
- it masks the line;
- it files the line under a digest of the whitespace-normalised masked text, counting the lines of each template and keeping the first three as examples.

## Modules

- `Text` (text.dfy) holds the ASCII character classes, `Run` (the length of a leading run), and `SpacesEnd` and `DigitsEnd` (where a `\s*` or `\d*` run starting at a position stops). It also holds `Options` with the `Option` type.
- `Patterns` (patterns.dfy) covers the four expressions. Each one has a declarative language (`InLanguage`) written from the expression's structure, and a greedy matcher anchored at the start of a string (`MatchAt`). The matcher is proved to return the longest prefix in the language, together with the only possible captured group.
- `Rewrite` (rewrite.dfy) defines `Sub`, one `re.sub` pass. The scan runs left to right; at each position it either replaces the match found there and resumes after it, or copies one character.
- `Entities` (entities.dfy) covers the span pass:
  - the label table and the digit override for DATE spans;
  - the `<` conflict check;
  - the right-to-left loop, with Python's clamped slicing.

  The pass is proved equal to a reference that judges every span on its own against the pre-masked text.
- `Masker` (masker.dfy) composes the two stages into `Mask`. The recogniser is a parameter, and `None` stands for a model that failed to load.
- `Whitespace` (whitespace.dfy) models `str.split`, `" ".join`, their composition `Normalize` and `str.strip`.
- `Cluster` (cluster.dfy) models the aggregation loop. It is stated for any way of stripping, masking and keying a line (`Filing`), and instantiated with `Strip`, `Mask` and the digest of the normal form.
- `Samples` (samples.dfy) works through the inputs the source's comments and expressions single out.

Every quantifier in the four expressions is greedy, and nothing follows the last quantifier of any of them. Every shorter alternative the backtracking engine could fall back to fails on the next character. So the first match Python's engine finds at a position is the longest prefix there that lies in the language, which is what `MatchAt` returns.

## Model

| member | source | states |
|---|---|---|
| Masker.MaskSpec | src/masker.py:12-68 | Without a model every message gives exactly `Error: Model not loaded.`. With one, the result is the pre-masked text with the gaps between spans copied and each span judged on its own. |
| Masker.PremaskKeepsPlainText | src/masker.py:22-34 | A message in which none of the four patterns occurs leaves the regex stage unchanged. |
| Patterns.MatchAtIsLongest | src/masker.py:24-34 | Each pass's matcher finds the longest prefix of the text in the pattern's language, or reports that no prefix is in it; its captured-group split is the only possible one. |
| Patterns.DateIsLongest | src/masker.py:24-25 | The date matcher returns the longest prefix in the language of `\d{2}[-/]\d{2}[-/]\d{2,4}`, and nothing when no prefix is in it. |
| Patterns.AmountIsLongest | src/masker.py:27-30 | The currency matcher returns the longest prefix in the language of marker, optional whitespace and number with optional `,ddd` groups and at most two decimals, and nothing when no prefix is in it. |
| Patterns.MaskedAccountIsLongest | src/masker.py:32-33 | The masked-account matcher returns the longest prefix in the language of `[X*x]{2,}\d{3,}`, and nothing when no prefix is in it. |
| Patterns.AccountNoIsLongest | src/masker.py:34 | The account-phrase matcher returns the longest prefix in the language of `(account\s+no\.?\s*)(\d+)`, and nothing when no prefix is in it. Its group 1 is the only split of that prefix into a phrase and a digit run. |
| Patterns.GroupedLen | src/masker.py:30 | `\d+(?:,\d+)*` stops at the first character that is neither a digit nor a comma followed by a digit. |
| Text.SpacesEnd | src/masker.py:30 | `\s*` reads only whitespace and stops at the first character that is not whitespace. |
| Text.DigitsEnd | src/masker.py:25 | `\d*` reads only digits and stops at the first character that is not a digit. |
| Rewrite.UnchangedIffNoMatch | src/masker.py:25-34 | A pass leaves the text unchanged exactly when the pattern matches no substring of it. |
| Rewrite.CopiedUpToFirstMatch | src/masker.py:25-34 | Everything before the leftmost match is copied unchanged. |
| Rewrite.FirstMatchReplaced | src/masker.py:25-34 | The leftmost match is replaced. Its captured group is written back before the placeholder, and scanning resumes right after the match. |
| Rewrite.MatchedTextIsNotBracket | src/masker.py:25-34 | Every match is non-empty and the first character a replacement overwrites is not `<`, so a pass changes the text wherever it matches. |
| Entities.TagTable | src/masker.py:44-60 | Only the seven listed labels get a tag, and every tag is one of six fixed placeholders (the `<LABEL>` fallback never fires). MONEY gets `<AMOUNT>`, CARDINAL `<NUMBER>`, TIME `<TIME>`, ORG and PERSON `<ENTITY>`, GPE `<LOCATION>`. A DATE span gets `<NUMBER>` exactly when its text is non-empty and all digits, and `<DATE>` otherwise. |
| Entities.StepChangesIff | src/masker.py:62-68 | One iteration changes the text exactly when the label is listed and the current slice holds no `<`. It then replaces exactly that slice and keeps what lies before and after it. |
| Entities.UnlistedLabelsChangeNothing | src/masker.py:42-44 | Spans with labels outside the list leave the text as it is. |
| Entities.StepExtendsPartial | src/masker.py:42-68 | Processing one more span from the right keeps the working text equal to the pre-masked text up to that span followed by the reference result for the spans already processed. So each span's slice is still its slice of the pre-masked text. |
| Entities.RightToLeft | src/masker.py:39-68 | The reversed loop equals judging every span independently against the pre-masked text, with the gaps between spans copied verbatim. |
| Whitespace.Words | src/main.py:7 | Every element of `str.split()` is non-empty and free of whitespace. |
| Whitespace.WordsOfJoin | src/main.py:7 | Splitting the space-join of words gives the words back. |
| Whitespace.NormalizeIsNormalized | src/main.py:7 | The normal form has no leading or trailing whitespace, and its only whitespace is single plain spaces between words. |
| Whitespace.NormalizeKeepsWords | src/main.py:7 | The normal form has the same words, in the same order, as the input. |
| Whitespace.NormalizeKeepsText | src/main.py:7 | Normalisation keeps every non-whitespace character, in order, and changes only whitespace. |
| Whitespace.NormalizeFixedIff | src/main.py:7 | Normalising leaves a text unchanged exactly when it is already normalised. |
| Whitespace.NormalizeIdempotent | src/main.py:7 | Normalising twice is normalising once. |
| Whitespace.SameNormalFormIff | src/main.py:4-8 | Two texts have the same normal form exactly when they split into the same words. |
| Whitespace.Strip | src/main.py:29 | The stripped line is the part of the line between its leading and its trailing whitespace, and it neither starts nor ends with whitespace. |
| Whitespace.StripEmptyIff | src/main.py:29-31 | A line strips to nothing exactly when it is all whitespace, that is, exactly when it has no words. |
| Cluster.SameWordsSameKey | src/main.py:4-8 | For any digest, two masked texts with the same words get the same key. |
| Cluster.SameWordsOneEntry | src/main.py:28-47 | For any digest, two non-blank lines whose masked texts have the same words are filed under one key, and that key has an entry in `main`'s aggregate. |
| Cluster.FiledUnderKey | src/main.py:29-47 | A non-blank line's stripped text is among the lines filed under its key. |
| Cluster.SameKeyIff | src/main.py:4-8 | With a collision-free digest, two masked texts share a key exactly when they have the same words. Only the converse (same key, so same words) needs that assumption. |
| Cluster.BlankLineKeepsSummary | src/main.py:29-31 | After a line that strips to nothing, the aggregate still summarises all lines read so far. |
| Cluster.IngestFiles | src/main.py:36-47 | A new key gets an entry at the end with the masked text as its template, count 1 and the stripped line as its only example. A known key's entry is updated in place. |
| Cluster.ObserveTally | src/main.py:45-47 | Observing one more line adds one to the count, keeps the template, and keeps the examples equal to the first three lines filed under the key. |
| Cluster.IngestTotal | src/main.py:29-45 | Each non-blank line adds exactly one to the sum of the counts; a blank line adds nothing. |
| Cluster.TallyBounds | src/main.py:45-47 | A record keeps at most three examples, never more than its count, and exactly `min(count, 3)`. |
| Cluster.FirstSeenDistinct | src/main.py:38-43 | The keys in order of first appearance are pairwise distinct. |
| Cluster.SeenIffFiled | src/main.py:36-43 | A key has an entry exactly when some non-blank line has been filed under it. |
| Cluster.ProcessSpec | src/main.py:28-47 | After the loop there is one entry per key, in order of first appearance. Each entry's template is the masked first line of that key, its count is the number of lines filed under the key, and its examples are the first three of those lines. The counts add up to the number of non-blank lines. |
| Cluster.ReportSpec | src/main.py:28-47 | The same holds for the filing `main` uses: `str.strip`, the masker, and the digest of the normal form. |
| Cluster.Templates | src/main.py:11-14 | Without a model `main` produces no templates; with one it does. |
| Cluster.TemplatesSpec | src/main.py:10-47 | With a model loaded, `main` groups the non-blank lines by the key of their masked text, as `ProcessSpec` describes. |
| Samples.DashedDate | src/masker.py:24-25 | `12-05-2025` becomes `<DATE>`. |
| Samples.SlashedShortDate | src/masker.py:24-25 | `01/01/24` becomes `<DATE>`. |
| Samples.LongYear | src/masker.py:25 | `12-05-20251` becomes `<DATE>1`: the year takes at most four digits. |
| Samples.RupeesWithSpace | src/masker.py:27-30 | `Rs 100` becomes `<AMOUNT>`. |
| Samples.IndianRupees | src/masker.py:27-30 | `INR 500` becomes `<AMOUNT>`. |
| Samples.RupeesWithDecimals | src/masker.py:27-30 | `Rs. 100.00` becomes `<AMOUNT>`. |
| Samples.ThirdDecimal | src/masker.py:29-30 | `rs 1.505` becomes `<AMOUNT>5`: at most two decimals are taken. |
| Samples.MarkerInsideWord | src/masker.py:30 | `hrs 5` becomes `h<AMOUNT>`: there is no word boundary before the marker. |
| Samples.MarkerWithoutNumber | src/masker.py:28-30 | The currency pass leaves `Rs XXX123` unchanged, because a digit must follow the marker and its spaces, and no later position starts a marker. |
| Samples.MarkerThenAccount | src/masker.py:30-33 | The currency pass and then the masked-account pass, in source order, turn `Rs XXX123` into `Rs <ACCOUNT>`. |
| Samples.AccountAfterMarker | src/masker.py:32-33 | The account pass turns `Rs XXX123` into `Rs <ACCOUNT>`. |
| Samples.MaskedCardNumber | src/masker.py:32-33 | `XXXX1234` becomes `<ACCOUNT>`. |
| Samples.TooFewDigits | src/masker.py:33 | `XX12` is left alone: a mask needs three digits after it. |
| Samples.AccountNumberPhrase | src/masker.py:34 | `account no 998877` becomes `account no <ACCOUNT>`: the phrase is written back as it stands. |
| Samples.InsidePlaceholder | src/masker.py:65-68 | An ORG span over `DATE>` inside `<DATE>` turns it into `<<ENTITY>`, because the conflict check looks for `<` only. |

## Left out

- The spaCy language model and its loading (src/masker.py:1-10, 37) are outside the model. The recogniser is a parameter (`Masker.Recognizer`), and `None` stands for a model that failed to load.
- Facts about the span pass assume spans in bounds, sorted and non-overlapping (`Entities.WellFormed`), as spaCy's `doc.ents` delivers them. The pass itself is total.
- MD5 (src/main.py:8) is a parameter `digest`. Masked texts with the same words share a key for any digest (`Cluster.SameWordsSameKey`, `Cluster.SameWordsOneEntry`). Only the converse in `Cluster.SameKeyIff`, that a shared key means the same words, assumes a collision-free digest, which MD5 is not; for MD5 it holds only up to collisions. All other facts hold for any digest.
- File reading, the progress and error messages, report printing (src/main.py:16-26, 49-60) and both `__main__` blocks are I/O and are left out.
- Character classes are ASCII only:
  - `\d`, `str.isdigit` and `(?i)` are modelled on ASCII digits and letters;
  - `\s`, `str.split` and `str.strip` are modelled on the ASCII whitespace Python accepts (space, 9-13, 28-31).

  Python applies these to all of Unicode.
- Patterns.MatchAtIsLongest: the regex engine is not modelled. The step from "longest prefix in the language" to "first match of the backtracking engine" is argued in the `Patterns` module comment rather than proved.
- The `f"<{label}>"` fallback (src/masker.py:60) is modelled, but `Entities.TagTable` shows it is unreachable, because the filter at src/masker.py:44 admits only labels that are in the table. Spans with other labels therefore change nothing; the model follows the code here, not the reading in which other labels get a tag built from their name.
- Masking is sometimes described as idempotent, with placeholders never overwritten. The code does not guarantee either, so neither is claimed. The check at src/masker.py:66-67 looks for `<` only, and `Samples.InsidePlaceholder` shows a span overwriting the tail of a placeholder. A recogniser may also tag different spans on a second run.
