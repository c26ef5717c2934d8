/** `KannadaProcessor.process`: the Hindi ladder for Kannada, except that the
    translation is stripped before the length test and before it is summarised
    or returned. The translate step is `IndicTranslation`. */
module KannadaProcessor {
  import opened Outcomes
  import opened Text
  import IndicTranslation
  import EnglishChunker
  import HindiProcessor

  const InvalidInput := "Error: Invalid input text"
  const NotKannada := "Error: Input must be in Kannada"
  const ErrorPrefix := "Error: "
  const FallbackSentence := " This is a summary of the provided Kannada text."

  /** The services `process` relies on: the language detector (a call that raises
      is a `Failure`), the Kannada-to-English translator and the English pipeline. */
  datatype Services = Services(detect: string -> Result<string>,
                               translator: IndicTranslation.Translator,
                               english: EnglishChunker.Pipeline)

  /** The stripped translation, with the fallback sentence appended when it has
      fewer than 20 characters. */
  function Padded(t: string): string
  {
    var s := Strip(t);
    if |s| < 20 then s + FallbackSentence else s
  }

  /** What `process(text)` returns. */
  function Process(text: string, sv: Services): string
  {
    if IsBlank(text) then InvalidInput
    else
      match sv.detect(text)
      case Failure(e) => ErrorPrefix + e
      case Success(lang) =>
        if lang != "kn" then NotKannada
        else
          var t := IndicTranslation.Translation(text, IndicTranslation.DefaultChunkSize, sv.translator);
          if StartsWith(t, "Error") then t
          else
            var padded := Padded(t);
            var summary := EnglishChunker.Outcome(padded, EnglishChunker.DefaultMaxTokens, sv.english);
            if summary == [] || |Strip(summary)| < 10 then padded else summary
  }

  /** For a translation with visible text, the padded form has at least 20
      characters, has no whitespace at either end, begins with the stripped
      translation and keeps at least 10 visible characters when the translation
      has them. */
  lemma PaddedSpec(t: string)
    requires !IsBlank(t)
    ensures |Padded(t)| >= 20
    ensures Strip(Padded(t)) == Padded(t)
    ensures StartsWith(Padded(t), Strip(t))
    ensures |Strip(t)| >= 10 ==> |Strip(Padded(t))| >= 10
  {
    var s := Strip(t);
    StripSpec(t);
    StripOfTrimmed(s);
    assert |FallbackSentence| == 48 && FallbackSentence[47] == '.';
    StartsWithAppend(s, FallbackSentence);
    assert s[..|s|] == s;
    if |s| < 20 {
      StripAppendVisible(s, FallbackSentence);
      assert StripLeft(s) == s;
    }
  }

  /** Every result is either an error message or a text with at least 10 visible
      characters. */
  lemma ProcessVerdict(text: string, sv: Services)
    ensures var r := Process(text, sv);
      StartsWith(r, "Error") || |Strip(r)| >= 10
  {
    assert InvalidInput[..5] == "Error" && NotKannada[..5] == "Error";
    if !IsBlank(text) {
      match sv.detect(text)
      case Failure(e) =>
        assert (ErrorPrefix + e)[..5] == "Error";
      case Success(lang) =>
        if lang == "kn" {
          var t := IndicTranslation.Translation(text, IndicTranslation.DefaultChunkSize, sv.translator);
          IndicTranslation.TranslationVerdict(text, IndicTranslation.DefaultChunkSize, sv.translator);
          if !StartsWith(t, "Error") {
            StripSpec(t);
            PaddedSpec(t);
          }
        }
    }
  }

  /** The ladder of `process`: a blank input, a detector error, a language other
      than Kannada and a failed translation each produce their message and
      nothing is summarised; otherwise the stripped, padded translation is
      summarised, and a summary that is empty or has fewer than 10 visible
      characters is replaced by that translation, which has no whitespace at
      either end. */
  lemma ProcessLadder(text: string, sv: Services)
    ensures IsBlank(text) ==> Process(text, sv) == InvalidInput
    ensures !IsBlank(text) && sv.detect(text).Failure? ==> Process(text, sv) == ErrorPrefix + sv.detect(text).error
    ensures !IsBlank(text) && sv.detect(text).Success? && sv.detect(text).value != "kn" ==>
              Process(text, sv) == NotKannada
    ensures !IsBlank(text) && sv.detect(text) == Success("kn") ==>
              var t := IndicTranslation.Translation(text, IndicTranslation.DefaultChunkSize, sv.translator);
              var summary := EnglishChunker.Outcome(Padded(t), EnglishChunker.DefaultMaxTokens, sv.english);
              && (StartsWith(t, "Error") ==> Process(text, sv) == t)
              && (!StartsWith(t, "Error") && |Strip(summary)| >= 10 ==> Process(text, sv) == summary)
              && (!StartsWith(t, "Error") && |Strip(summary)| < 10 ==>
                    && Process(text, sv) == Padded(t)
                    && StartsWith(Process(text, sv), Strip(t))
                    && Strip(Process(text, sv)) == Process(text, sv))
  {
    if !IsBlank(text) && sv.detect(text) == Success("kn") {
      var t := IndicTranslation.Translation(text, IndicTranslation.DefaultChunkSize, sv.translator);
      IndicTranslation.TranslationVerdict(text, IndicTranslation.DefaultChunkSize, sv.translator);
      if !StartsWith(t, "Error") {
        StripSpec(t);
        PaddedSpec(t);
      }
    }
  }

  /** The two processors pad differently: a translation of 19 visible characters
      after one leading space is long enough for the Hindi test, which counts the
      space, and too short for the Kannada one, which strips it first. */
  lemma PaddingContrast()
    ensures HindiProcessor.Padded(" The text translated") == " The text translated"
    ensures Padded(" The text translated") == "The text translated" + FallbackSentence
  {
    var t := " The text translated";
    assert |t| == 20 && t[1..] == "The text translated";
    assert StripLeft(t) == StripLeft(t[1..]) == t[1..];
    assert Strip(t) == t[1..];
  }
}
