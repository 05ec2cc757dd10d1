/**
 `AutoMasker.mask_message` (src/masker.py:12-72): four regex passes over the
 message, then the entity-span pass over the recogniser's output on the
 pre-masked text.

 The recogniser (spaCy's `nlp`) is a parameter: `None` when the language model
 could not be loaded, otherwise a function from a text to its entity spans.
 */
module Masker {
  import opened Options
  import opened Patterns
  import opened Rewrite
  import opened Entities

  type Recognizer = string -> seq<Entity>

  const ModelNotLoaded: string := "Error: Model not loaded."

  /** The regex stage, in source order: dates, amounts, masked account
      numbers, then "account no" phrases. */
  function Premask(message: string): string {
    Sub(AccountNo, Sub(MaskedAccount, Sub(Amount, Sub(Date, message))))
  }

  function Mask(nlp: Option<Recognizer>, message: string): string {
    match nlp
    case None => ModelNotLoaded
    case Some(recognise) =>
      var pre := Premask(message);
      MaskEntities(pre, recognise(pre))
  }

  /** Without a model every message yields the fixed error text; with one,
      the result is the pre-masked text with each recognised span judged on
      its own (kept, or replaced by its tag). */
  lemma MaskSpec(nlp: Option<Recognizer>, message: string)
    ensures nlp.None? ==> Mask(nlp, message) == ModelNotLoaded
    ensures nlp.Some? && WellFormed(nlp.value(Premask(message)), |Premask(message)|) ==>
      Mask(nlp, message) == Assemble(Premask(message), nlp.value(Premask(message)), 0)
  {
    if nlp.Some? && WellFormed(nlp.value(Premask(message)), |Premask(message)|) {
      RightToLeft(Premask(message), nlp.value(Premask(message)));
    }
  }

  /** A message in which none of the four patterns matches leaves the regex
      stage unchanged. */
  lemma PremaskKeepsPlainText(message: string)
    requires NoMatch(Date, message) && NoMatch(Amount, message)
    requires NoMatch(MaskedAccount, message) && NoMatch(AccountNo, message)
    ensures Premask(message) == message
  {
    UnchangedIffNoMatch(Date, message);
    UnchangedIffNoMatch(Amount, message);
    UnchangedIffNoMatch(MaskedAccount, message);
    UnchangedIffNoMatch(AccountNo, message);
  }
}
