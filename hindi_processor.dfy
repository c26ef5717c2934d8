/** `HindiProcessor.process`: checks the input and its language, translates it to
    English, pads a short translation with a fixed sentence, summarises it with
    the English chunker, and falls back to the translation when the summary is
    too short. The translate step is `IndicTranslation`. */
module HindiProcessor {
  import opened Outcomes
  import opened Text
  import IndicTranslation
  import EnglishChunker

  const InvalidInput := "Error: Invalid input text"
  const NotHindi := "Error: Input must be in Hindi"
  const ErrorPrefix := "Error: "
  const FallbackSentence := " This is a summary of the provided Hindi text."

  /** The services `process` relies on: the language detector (a call that raises
      is a `Failure`), the Hindi-to-English translator and the English pipeline. */
  datatype Services = Services(detect: string -> Result<string>,
                               translator: IndicTranslation.Translator,
                               english: EnglishChunker.Pipeline)

  /** A translation shorter than 20 characters, counted before stripping, gets the
      fallback sentence appended. */
  function Padded(t: string): string
  {
    if |t| < 20 then t + FallbackSentence else t
  }

  /** The summary unless it is empty or has fewer than 10 visible characters, in
      which case the translation. */
  function Choose(summary: string, translation: string): string
  {
    if summary == [] || |Strip(summary)| < 10 then translation else summary
  }

  /** What `process(text)` returns. */
  function Process(text: string, sv: Services): string
  {
    if IsBlank(text) then InvalidInput
    else
      match sv.detect(text)
      case Failure(e) => ErrorPrefix + e
      case Success(lang) =>
        if lang != "hi" then NotHindi
        else
          var t := IndicTranslation.Translation(text, IndicTranslation.DefaultChunkSize, sv.translator);
          if StartsWith(t, "Error") then t
          else
            var padded := Padded(t);
            Choose(EnglishChunker.Outcome(padded, EnglishChunker.DefaultMaxTokens, sv.english), padded)
  }

  /** The padded translation has at least 20 characters, begins with the
      translation, and keeps at least 10 visible characters when the translation
      has them. */
  lemma PaddedSpec(t: string)
    ensures |Padded(t)| >= 20
    ensures StartsWith(Padded(t), t)
    ensures |Strip(t)| >= 10 ==> |Strip(Padded(t))| >= 10
  {
    assert |FallbackSentence| == 46 && FallbackSentence[45] == '.';
    StartsWithAppend(t, FallbackSentence);
    assert t[..|t|] == t;
    if |Strip(t)| >= 10 && |t| < 20 {
      StripSpec(t);
      StripAppendVisible(t, FallbackSentence);
    }
  }

  /** Every result is either an error message or a text with at least 10 visible
      characters. */
  lemma ProcessVerdict(text: string, sv: Services)
    ensures var r := Process(text, sv);
      StartsWith(r, "Error") || |Strip(r)| >= 10
  {
    assert InvalidInput[..5] == "Error" && NotHindi[..5] == "Error";
    if !IsBlank(text) {
      match sv.detect(text)
      case Failure(e) =>
        assert (ErrorPrefix + e)[..5] == "Error";
      case Success(lang) =>
        if lang == "hi" {
          var t := IndicTranslation.Translation(text, IndicTranslation.DefaultChunkSize, sv.translator);
          IndicTranslation.TranslationVerdict(text, IndicTranslation.DefaultChunkSize, sv.translator);
          PaddedSpec(t);
        }
    }
  }

  /** The ladder of `process`: a blank input, a detector error, a language other
      than Hindi and a failed translation each produce their message and nothing
      is summarised; otherwise the padded translation is summarised, and a summary
      that is empty or has fewer than 10 visible characters is replaced by the
      padded translation. */
  lemma ProcessLadder(text: string, sv: Services)
    ensures IsBlank(text) ==> Process(text, sv) == InvalidInput
    ensures !IsBlank(text) && sv.detect(text).Failure? ==> Process(text, sv) == ErrorPrefix + sv.detect(text).error
    ensures !IsBlank(text) && sv.detect(text).Success? && sv.detect(text).value != "hi" ==>
              Process(text, sv) == NotHindi
    ensures !IsBlank(text) && sv.detect(text) == Success("hi") ==>
              var t := IndicTranslation.Translation(text, IndicTranslation.DefaultChunkSize, sv.translator);
              var summary := EnglishChunker.Outcome(Padded(t), EnglishChunker.DefaultMaxTokens, sv.english);
              && (StartsWith(t, "Error") ==> Process(text, sv) == t)
              && (!StartsWith(t, "Error") && |Strip(summary)| >= 10 ==> Process(text, sv) == summary)
              && (!StartsWith(t, "Error") && |Strip(summary)| < 10 ==>
                    Process(text, sv) == Padded(t) && StartsWith(Process(text, sv), t) && |Process(text, sv)| >= 20)
  {
    if !IsBlank(text) && sv.detect(text) == Success("hi") {
      var t := IndicTranslation.Translation(text, IndicTranslation.DefaultChunkSize, sv.translator);
      PaddedSpec(t);
    }
  }
}
