/** Translation of Hindi or Kannada text to English before summarisation:
    `HindiProcessor.translate_hindi_to_english` and
    `KannadaProcessor.translate_kannada_to_english`, which differ only in the
    source language handed to the translator and the sentence splitter.

    A short text is translated in one call; a long one sentence by sentence,
    keeping only the translations with enough visible text. A translator call
    that raises aborts the whole translation with a message. */
module IndicTranslation {
  import opened Outcomes
  import opened Seqs
  import opened Text

  const DefaultChunkSize: nat := 550

  /** Every message of the translate function begins with the word the callers
      test for. */
  const ErrorWord := "Error"
  const InvalidInput := ErrorWord + ": Invalid input text. Please provide a string."
  const Insufficient := ErrorWord + ": Translation produced insufficient text."
  const ExceptionPrefix := ErrorWord + ": Translation failed with exception: "

  /** The services for one source language: the tokenizer's count, the sentence
      splitter, and the translator to English (a call that raises is a `Failure`;
      a call that returns nothing is the empty string). */
  datatype Translator = Translator(tokens: string -> nat, splitSentences: string -> seq<string>,
                                   translate: string -> Result<string>)

  /** A sentence translation is kept when it has at least 5 visible characters
      once stripped. */
  predicate Usable(t: string)
  {
    |Strip(t)| >= 5
  }

  /** The kept sentence translations, in order, or the error of the first call
      that raised. */
  function KeptTranslations(sentences: seq<string>, translate: string -> Result<string>): Result<seq<string>>
  {
    if sentences == [] then Success([])
    else
      var n := |sentences| - 1;
      match KeptTranslations(sentences[..n], translate)
      case Failure(e) => Failure(e)
      case Success(kept) =>
        match translate(sentences[n])
        case Failure(e) => Failure(e)
        case Success(t) => Success(kept + (if Usable(t) then [t] else []))
  }

  /** The single-pass answer: fewer than 10 visible characters is insufficient;
      otherwise the translation as returned, unstripped. */
  function SinglePass(r: Result<string>): string
  {
    match r
    case Failure(e) => ExceptionPrefix + e
    case Success(t) => if |Strip(t)| < 10 then Insufficient else t
  }

  /** The sentence-by-sentence answer: the kept translations joined by spaces, or
      insufficient when that has fewer than 20 visible characters. */
  function Combined(r: Result<seq<string>>): string
  {
    match r
    case Failure(e) => ExceptionPrefix + e
    case Success(kept) =>
      var joined := JoinWith(kept, " ");
      if |Strip(joined)| < 20 then Insufficient else joined
  }

  /** What the translate function returns for `text` and `chunk_size`. */
  function Translation(text: string, chunkSize: nat, tr: Translator): string
  {
    if IsBlank(text) then InvalidInput
    else if tr.tokens(text) <= chunkSize then SinglePass(tr.translate(text))
    else Combined(KeptTranslations(tr.splitSentences(text), tr.translate))
  }

  /** The translate function: a blank text is rejected; a text within `chunk_size`
      tokens is translated whole; a longer one sentence by sentence, stopping at
      the first call that raises. */
  method TranslateToEnglish(text: string, chunkSize: nat, tr: Translator) returns (r: string)
    ensures r == Translation(text, chunkSize, tr)
  {
    if IsBlank(text) {
      return InvalidInput;
    }
    if tr.tokens(text) <= chunkSize {
      var single := tr.translate(text);
      if single.Failure? {
        return ExceptionPrefix + single.error;
      }
      var translated := single.value;
      if |Strip(translated)| < 10 {
        return Insufficient;
      }
      return translated;
    }
    var kept := TranslateSentences(tr.splitSentences(text), tr.translate);
    if kept.Failure? {
      return ExceptionPrefix + kept.error;
    }
    var translatedText := JoinWith(kept.value, " ");
    if |Strip(translatedText)| < 20 {
      return Insufficient;
    }
    r := translatedText;
  }

  /** The sentence loop of the translate function: each sentence is translated in
      turn and the usable translations are kept; the first call that raises ends
      the loop. */
  method TranslateSentences(sentences: seq<string>, translate: string -> Result<string>)
    returns (r: Result<seq<string>>)
    ensures r == KeptTranslations(sentences, translate)
  {
    var translatedSentences: seq<string> := [];
    var i := 0;
    while i < |sentences|
      invariant 0 <= i <= |sentences|
      invariant KeptTranslations(sentences[..i], translate) == Success(translatedSentences)
    {
      KeptStep(sentences, i, translate, translatedSentences);
      var translated := translate(sentences[i]);
      if translated.Failure? {
        KeptFailureStays(sentences, i + 1, translate);
        assert sentences[..|sentences|] == sentences;
        return Failure(translated.error);
      }
      if Usable(translated.value) {
        translatedSentences := translatedSentences + [translated.value];
      }
      i := i + 1;
    }
    assert sentences[..i] == sentences;
    return Success(translatedSentences);
  }

  lemma KeptStep(sentences: seq<string>, i: nat, translate: string -> Result<string>, kept: seq<string>)
    requires i < |sentences|
    requires KeptTranslations(sentences[..i], translate) == Success(kept)
    ensures translate(sentences[i]).Failure? ==>
              KeptTranslations(sentences[..i + 1], translate) == Failure(translate(sentences[i]).error)
    ensures translate(sentences[i]).Success? && Usable(translate(sentences[i]).value) ==>
              KeptTranslations(sentences[..i + 1], translate) == Success(kept + [translate(sentences[i]).value])
    ensures translate(sentences[i]).Success? && !Usable(translate(sentences[i]).value) ==>
              KeptTranslations(sentences[..i + 1], translate) == Success(kept)
  {
    assert sentences[..i + 1][..i] == sentences[..i];
    assert kept + [] == kept;
  }

  /** Once a call has raised, reading more sentences keeps that error. */
  lemma {:induction false} KeptFailureStays(sentences: seq<string>, i: nat, translate: string -> Result<string>)
    requires 0 < i <= |sentences|
    requires KeptTranslations(sentences[..i], translate).Failure?
    ensures KeptTranslations(sentences, translate) == KeptTranslations(sentences[..i], translate)
    decreases |sentences| - i
  {
    if i < |sentences| {
      assert sentences[..i + 1][..i] == sentences[..i];
      KeptFailureStays(sentences, i + 1, translate);
    } else {
      assert sentences[..i] == sentences;
    }
  }

  /** The sentence loop fails exactly when some call raises. */
  lemma {:induction false} KeptFailsIff(sentences: seq<string>, translate: string -> Result<string>)
    ensures KeptTranslations(sentences, translate).Success? <==>
              forall k :: 0 <= k < |sentences| ==> translate(sentences[k]).Success?
  {
    if sentences != [] {
      var n := |sentences| - 1;
      KeptFailsIff(sentences[..n], translate);
      assert forall k :: 0 <= k < n ==> sentences[..n][k] == sentences[k];
    }
  }

  /** When the sentence loop succeeds, every kept translation is usable and there
      is at most one per sentence. */
  lemma {:induction false} KeptUsable(sentences: seq<string>, translate: string -> Result<string>)
    requires KeptTranslations(sentences, translate).Success?
    ensures |KeptTranslations(sentences, translate).value| <= |sentences|
    ensures forall j :: 0 <= j < |KeptTranslations(sentences, translate).value| ==>
              Usable(KeptTranslations(sentences, translate).value[j])
  {
    if sentences != [] {
      var n := |sentences| - 1;
      KeptUsable(sentences[..n], translate);
    }
  }

  /** When the sentence loop succeeds, every usable translation is kept. */
  lemma {:induction false} KeptComplete(sentences: seq<string>, translate: string -> Result<string>, k: nat)
    requires KeptTranslations(sentences, translate).Success?
    requires k < |sentences| && translate(sentences[k]).Success?
    requires Usable(translate(sentences[k]).value)
    ensures translate(sentences[k]).value in KeptTranslations(sentences, translate).value
  {
    var n := |sentences| - 1;
    var prefix := sentences[..n];
    var kept := KeptTranslations(prefix, translate).value;
    var t := translate(sentences[n]).value;
    assert KeptTranslations(sentences, translate) == Success(kept + (if Usable(t) then [t] else []));
    if k < n {
      assert prefix[k] == sentences[k];
      KeptComplete(prefix, translate, k);
    }
  }

  /** The messages of the translate function all begin with "Error". */
  lemma ErrorMessages()
    ensures StartsWith(InvalidInput, "Error") && StartsWith(Insufficient, "Error")
    ensures forall e :: StartsWith(ExceptionPrefix + e, "Error")
  {
    StartsWithAppend(ErrorWord, ": Invalid input text. Please provide a string.");
    StartsWithAppend(ErrorWord, ": Translation produced insufficient text.");
    forall e
      ensures StartsWith(ExceptionPrefix + e, "Error")
    {
      assert ExceptionPrefix + e == ErrorWord + (": Translation failed with exception: " + e);
      StartsWithAppend(ErrorWord, ": Translation failed with exception: " + e);
    }
  }

  /** Every answer is either an error message or a translation with at least 10
      visible characters; a translation from the sentence loop has at least 20. */
  lemma TranslationVerdict(text: string, chunkSize: nat, tr: Translator)
    ensures var r := Translation(text, chunkSize, tr);
      StartsWith(r, "Error") || |Strip(r)| >= 10
    ensures var r := Translation(text, chunkSize, tr);
      !IsBlank(text) && tr.tokens(text) > chunkSize && !StartsWith(r, "Error") ==> |Strip(r)| >= 20
  {
    ErrorMessages();
  }
}
