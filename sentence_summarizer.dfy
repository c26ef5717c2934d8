/** The sentence-by-sentence variant of `EnglishTextProcessor.process_text`: every
    sentence within the token budget is summarised on its own and the summaries
    are joined with spaces. The tokenizer, the sentence splitter and the
    summarisation pipeline are parameters; a call that raises is a `Failure`. */
module SentenceSummarizer {
  import opened Outcomes
  import opened Seqs
  import opened Text

  const DefaultMaxTokens: nat := 1000

  const InvalidInput := "Error: Invalid input text"
  const NoSummaries := "Error: No summaries generated."

  /** The pipeline, called with the text, `max_length` and `min_length`. */
  type Summarizer = (string, nat, nat) -> Result<string>

  /** The sentences that are summarised: those within the budget, in order. */
  function Fitting(sentences: seq<string>, tokens: string -> nat, maxTokens: nat): seq<string>
  {
    Filter(sentences, s => tokens(s) <= maxTokens)
  }

  /** The pipeline call for each fitting sentence, in order. */
  function Attempts(sentences: seq<string>, summarize: Summarizer): (rs: seq<Result<string>>)
    ensures |rs| == |sentences|
    ensures forall k :: 0 <= k < |sentences| ==> rs[k] == summarize(sentences[k], 80, 20)
  {
    if sentences == [] then []
    else
      var n := |sentences| - 1;
      Attempts(sentences[..n], summarize) + [summarize(sentences[n], 80, 20)]
  }

  /** The summaries collected by the loop. */
  function Summaries(sentences: seq<string>, tokens: string -> nat, maxTokens: nat, summarize: Summarizer): seq<string>
  {
    Successes(Attempts(Fitting(sentences, tokens, maxTokens), summarize))
  }

  lemma FittingStep(sentences: seq<string>, i: nat, tokens: string -> nat, maxTokens: nat)
    requires i < |sentences|
    ensures Fitting(sentences[..i + 1], tokens, maxTokens) ==
      Fitting(sentences[..i], tokens, maxTokens) + (if tokens(sentences[i]) <= maxTokens then [sentences[i]] else [])
  {
    assert sentences[..i + 1][..i] == sentences[..i];
  }

  lemma AttemptsAppend(sentences: seq<string>, s: string, summarize: Summarizer)
    ensures Attempts(sentences + [s], summarize) == Attempts(sentences, summarize) + [summarize(s, 80, 20)]
  {
    assert (sentences + [s])[..|sentences|] == sentences;
  }

  /** `process_text(text, max_tokens)`: the empty text is rejected; each sentence
      over the budget is skipped, each other one summarised with lengths (80, 20),
      a call that raises being skipped; an empty join is an error. */
  method ProcessText(text: string, maxTokens: nat, tokens: string -> nat,
                     splitSentences: string -> seq<string>, summarize: Summarizer)
    returns (r: string)
    ensures text == [] ==> r == InvalidInput
    ensures text != [] ==>
              var joined := JoinWith(Summaries(splitSentences(text), tokens, maxTokens, summarize), " ");
              r == if joined == [] then NoSummaries else joined
  {
    if text == [] {
      return InvalidInput;
    }
    var sentences := splitSentences(text);
    var summarized: seq<string> := [];
    ghost var fitting: seq<string> := [];
    var i := 0;
    while i < |sentences|
      invariant 0 <= i <= |sentences|
      invariant fitting == Fitting(sentences[..i], tokens, maxTokens)
      invariant summarized == Successes(Attempts(fitting, summarize))
    {
      var sentence := sentences[i];
      FittingStep(sentences, i, tokens, maxTokens);
      if tokens(sentence) > maxTokens {
        i := i + 1;
        continue;
      }
      AttemptsAppend(fitting, sentence, summarize);
      var summary := summarize(sentence, 80, 20);
      if summary.Success? {
        summarized := summarized + [summary.value];
      }
      fitting := fitting + [sentence];
      i := i + 1;
    }
    assert sentences[..i] == sentences;
    var finalSummary := JoinWith(summarized, " ");
    if finalSummary != [] {
      r := finalSummary;
    } else {
      r := NoSummaries;
    }
  }

  /** A sentence is summarised exactly when it is within the budget; there is at
      most one summary per sentence; and the error is reported exactly when no
      call succeeded or the only summary produced is empty. */
  lemma SummariesSpec(sentences: seq<string>, tokens: string -> nat, maxTokens: nat, summarize: Summarizer)
    ensures forall s :: s in Fitting(sentences, tokens, maxTokens) <==> s in sentences && tokens(s) <= maxTokens
    ensures |Summaries(sentences, tokens, maxTokens, summarize)| <= |sentences|
    ensures var summaries := Summaries(sentences, tokens, maxTokens, summarize);
      JoinWith(summaries, " ") == [] <==>
        summaries == [[]] ||
        forall s :: s in Fitting(sentences, tokens, maxTokens) ==> summarize(s, 80, 20).Failure?
  {
    var keep := s => tokens(s) <= maxTokens;
    forall s
      ensures s in Fitting(sentences, tokens, maxTokens) <==> s in sentences && tokens(s) <= maxTokens
    {
      FilterMember(sentences, keep, s);
    }
    var fitting := Fitting(sentences, tokens, maxTokens);
    var rs := Attempts(fitting, summarize);
    SuccessesEmpty(rs);
    JoinWithEmpty(Successes(rs), " ");
    assert (forall k :: 0 <= k < |rs| ==> rs[k].Failure?) <==>
           (forall s :: s in fitting ==> summarize(s, 80, 20).Failure?) by {
      if forall k :: 0 <= k < |rs| ==> rs[k].Failure? {
        forall s | s in fitting
          ensures summarize(s, 80, 20).Failure?
        {
          var k :| 0 <= k < |fitting| && fitting[k] == s;
          assert rs[k] == summarize(s, 80, 20);
        }
      }
    }
  }

  /** A successful summary of a sentence within the budget ends up in the result;
      a sentence over the budget is never sent to the pipeline. */
  lemma SummaryIncluded(sentences: seq<string>, tokens: string -> nat, maxTokens: nat, summarize: Summarizer, s: string)
    requires s in sentences && tokens(s) <= maxTokens
    requires summarize(s, 80, 20).Success?
    ensures summarize(s, 80, 20).value in Summaries(sentences, tokens, maxTokens, summarize)
  {
    var fitting := Fitting(sentences, tokens, maxTokens);
    FilterMember(sentences, s => tokens(s) <= maxTokens, s);
    var k :| 0 <= k < |fitting| && fitting[k] == s;
    var rs := Attempts(fitting, summarize);
    assert rs[k] == summarize(s, 80, 20);
    SuccessesMember(rs, summarize(s, 80, 20).value);
  }
}
