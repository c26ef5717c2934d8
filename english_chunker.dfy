/** `EnglishTextProcessor.process_text` of the English chunker: a text within the
    token budget is summarised in one call; a longer one is split into sentences,
    the sentences are packed greedily into chunks, each chunk is summarised, and
    the successful summaries are joined with spaces.

    The tokenizer, the sentence splitter and the summarisation pipeline are
    parameters; a pipeline call that raises is a `Failure`. */
module EnglishChunker {
  import opened Outcomes
  import opened Seqs
  import opened Text

  const DefaultMaxTokens: nat := 1000

  const InvalidInput := "Error: Invalid input text"
  const NoSummaries := "Error: No summaries generated"
  const SummarizationErrorPrefix := "Summarization error: "

  /** The pipeline, called with the text, `max_length` and `min_length`. */
  type Summarizer = (string, nat, nat) -> Result<string>

  /** The loop state of the packer: the finished chunks (as sentence lists), the
      chunk being filled and its token count. */
  datatype Packing = Packing(chunks: seq<seq<string>>, current: seq<string>, currentTokens: nat)

  /** One iteration of the packing loop. A sentence that does not fit flushes the
      current chunk (when it has sentences) and then becomes a chunk of its own. */
  function Step(p: Packing, sentence: string, tokens: string -> nat, maxTokens: nat): Packing
  {
    var t := tokens(sentence);
    if p.currentTokens + t > maxTokens then
      Packing(p.chunks + (if p.current != [] then [p.current] else []) + [[sentence]], [], 0)
    else
      Packing(p.chunks, p.current + [sentence], p.currentTokens + t)
  }

  /** The loop state after the given sentences. */
  function PackPrefix(sentences: seq<string>, tokens: string -> nat, maxTokens: nat): Packing
  {
    if sentences == [] then Packing([], [], 0)
    else
      var n := |sentences| - 1;
      Step(PackPrefix(sentences[..n], tokens, maxTokens), sentences[n], tokens, maxTokens)
  }

  /** Loop state plus the final flush: the chunks as lists of sentences. */
  /** One more sentence is one more step of the loop. */
  lemma PackPrefixNext(sentences: seq<string>, i: nat, tokens: string -> nat, maxTokens: nat)
    requires i < |sentences|
    ensures PackPrefix(sentences[..i + 1], tokens, maxTokens)
         == Step(PackPrefix(sentences[..i], tokens, maxTokens), sentences[i], tokens, maxTokens)
  {
    assert sentences[..i + 1][..i] == sentences[..i];
  }

  function Groups(sentences: seq<string>, tokens: string -> nat, maxTokens: nat): seq<seq<string>>
  {
    var p := PackPrefix(sentences, tokens, maxTokens);
    p.chunks + (if p.current != [] then [p.current] else [])
  }

  /** A chunk's text: its sentences joined by single spaces. */
  function JoinSentences(group: seq<string>): string
  {
    JoinWith(group, " ")
  }

  /** What the loop keeps true: the chunks and the current chunk hold the sentences
      seen so far, in order; no chunk is empty; the running count is the current
      chunk's token total and stays within the budget; a chunk of several
      sentences is within the budget. */
  predicate PackingInv(p: Packing, sentences: seq<string>, tokens: string -> nat, maxTokens: nat)
  {
    && Flatten(p.chunks) + p.current == sentences
    && p.currentTokens == SumOf(p.current, tokens)
    && p.currentTokens <= maxTokens
    && forall k :: 0 <= k < |p.chunks| ==> WellFormed(p.chunks[k], tokens, maxTokens)
  }

  /** A chunk has at least one sentence, and a chunk of several sentences is within
      the token budget. */
  predicate WellFormed(group: seq<string>, tokens: string -> nat, maxTokens: nat)
  {
    group != [] && (|group| > 1 ==> SumOf(group, tokens) <= maxTokens)
  }

  lemma {:induction false} PackPrefixInv(sentences: seq<string>, tokens: string -> nat, maxTokens: nat)
    ensures PackingInv(PackPrefix(sentences, tokens, maxTokens), sentences, tokens, maxTokens)
  {
    if sentences != [] {
      var n := |sentences| - 1;
      var s := sentences[n];
      var p := PackPrefix(sentences[..n], tokens, maxTokens);
      PackPrefixInv(sentences[..n], tokens, maxTokens);
      var q := Step(p, s, tokens, maxTokens);
      assert sentences == sentences[..n] + [s];
      if p.currentTokens + tokens(s) > maxTokens {
        var flushed := if p.current != [] then [p.current] else [];
        FlattenAppend(p.chunks + flushed, [[s]]);
        FlattenAppend(p.chunks, flushed);
        assert Flatten([[s]]) == [s];
        if p.current != [] {
          assert Flatten(flushed) == p.current;
        }
        assert Flatten(q.chunks) + q.current == sentences;
        assert forall k :: 0 <= k < |q.chunks| ==> WellFormed(q.chunks[k], tokens, maxTokens) by {
          forall k | 0 <= k < |q.chunks|
            ensures WellFormed(q.chunks[k], tokens, maxTokens)
          {
            if k < |p.chunks| {
              assert q.chunks[k] == p.chunks[k];
            } else if k == |q.chunks| - 1 {
              assert q.chunks[k] == [s];
            } else {
              assert q.chunks[k] == p.current;
            }
          }
        }
      } else {
        SumOfAppend(p.current, s, tokens);
        assert Flatten(p.chunks) + (p.current + [s]) == sentences;
      }
    }
  }

  /** Packing loses, duplicates and reorders no sentence, makes no empty chunk,
      and puts several sentences together only within the token budget. */
  lemma GroupsSpec(sentences: seq<string>, tokens: string -> nat, maxTokens: nat)
    ensures Flatten(Groups(sentences, tokens, maxTokens)) == sentences
    ensures forall k :: 0 <= k < |Groups(sentences, tokens, maxTokens)| ==>
              WellFormed(Groups(sentences, tokens, maxTokens)[k], tokens, maxTokens)
  {
    var p := PackPrefix(sentences, tokens, maxTokens);
    PackPrefixInv(sentences, tokens, maxTokens);
    if p.current != [] {
      FlattenAppend(p.chunks, [p.current]);
      assert Flatten([p.current]) == p.current;
      assert WellFormed(p.current, tokens, maxTokens) by {
        assert |p.current| > 1 ==> SumOf(p.current, tokens) == p.currentTokens;
      }
    } else {
      assert p.chunks + [] == p.chunks;
    }
  }

  /** Chunks already closed stay closed: reading more sentences only appends chunks. */
  lemma {:induction false} ChunksStable(xs: seq<string>, ys: seq<string>, tokens: string -> nat, maxTokens: nat)
    ensures PackPrefix(xs, tokens, maxTokens).chunks <= PackPrefix(xs + ys, tokens, maxTokens).chunks
    decreases |ys|
  {
    if ys == [] {
      assert xs + ys == xs;
    } else {
      var n := |ys| - 1;
      ChunksStable(xs, ys[..n], tokens, maxTokens);
      assert (xs + ys)[..|xs + ys| - 1] == xs + ys[..n];
    }
  }

  /** A sentence that does not fit beside the current chunk first closes that chunk
      as it was, when it has sentences, and then is the next chunk on its own, even
      when it would fit in an empty chunk; the chunks before it hold exactly the
      sentences before it. */
  lemma OverflowIsSingleton(sentences: seq<string>, i: nat, tokens: string -> nat, maxTokens: nat)
    requires i < |sentences|
    requires PackPrefix(sentences[..i], tokens, maxTokens).currentTokens + tokens(sentences[i]) > maxTokens
    ensures var p := PackPrefix(sentences[..i], tokens, maxTokens);
      var g := Groups(sentences, tokens, maxTokens);
      var j := |p.chunks| + (if p.current != [] then 1 else 0);
      && j < |g| && g[j] == [sentences[i]]
      && (p.current != [] ==> g[|p.chunks|] == p.current)
      && Flatten(g[..j]) == sentences[..i]
  {
    var p := PackPrefix(sentences[..i], tokens, maxTokens);
    var flushed := if p.current != [] then [p.current] else [];
    var j := |p.chunks| + |flushed|;
    OverflowStep(sentences, i, tokens, maxTokens);
    var g := Groups(sentences, tokens, maxTokens);
    assert g[..j] == p.chunks + flushed;
    PackPrefixInv(sentences[..i], tokens, maxTokens);
    FlattenAppend(p.chunks, flushed);
    if p.current != [] {
      assert Flatten(flushed) == p.current;
    }
  }

  /** The chunks after an overflowing sentence: the closed ones, the flushed
      current chunk, the sentence alone, and whatever later sentences add. */
  lemma OverflowStep(sentences: seq<string>, i: nat, tokens: string -> nat, maxTokens: nat)
    requires i < |sentences|
    requires PackPrefix(sentences[..i], tokens, maxTokens).currentTokens + tokens(sentences[i]) > maxTokens
    ensures var p := PackPrefix(sentences[..i], tokens, maxTokens);
      p.chunks + (if p.current != [] then [p.current] else []) + [[sentences[i]]] <= Groups(sentences, tokens, maxTokens)
  {
    assert sentences[..i + 1][..i] == sentences[..i];
    ChunksStable(sentences[..i + 1], sentences[i + 1..], tokens, maxTokens);
    assert sentences[..i + 1] + sentences[i + 1..] == sentences;
  }

  /** Sentences whose total fits the budget stay together as one chunk. */
  lemma {:induction false} FittingIsOneChunk(sentences: seq<string>, tokens: string -> nat, maxTokens: nat)
    requires SumOf(sentences, tokens) <= maxTokens
    ensures PackPrefix(sentences, tokens, maxTokens) == Packing([], sentences, SumOf(sentences, tokens))
  {
    if sentences != [] {
      var n := |sentences| - 1;
      assert sentences == sentences[..n] + [sentences[n]];
      SumOfAppend(sentences[..n], sentences[n], tokens);
      FittingIsOneChunk(sentences[..n], tokens, maxTokens);
    }
  }

  /** Closing a group appends its joined text to the chunks. */
  lemma CloseChunk(closed: seq<seq<string>>, group: seq<string>)
    ensures Map(closed + [group], JoinSentences) == Map(closed, JoinSentences) + [JoinWith(group, " ")]
    ensures |group| == 1 ==> JoinWith(group, " ") == group[0]
  {
    MapAppend(closed, [group], JoinSentences);
    assert Map([group], JoinSentences) == [JoinWith(group, " ")];
  }

  /** The packing loop of `process_text`. */
  method Pack(sentences: seq<string>, tokens: string -> nat, maxTokens: nat) returns (chunks: seq<string>)
    ensures chunks == Map(Groups(sentences, tokens, maxTokens), JoinSentences)
  {
    chunks := [];
    var current: seq<string> := [];
    var currentTokens: nat := 0;
    ghost var closed: seq<seq<string>> := [];
    var i := 0;
    while i < |sentences|
      invariant 0 <= i <= |sentences|
      invariant PackPrefix(sentences[..i], tokens, maxTokens) == Packing(closed, current, currentTokens)
      invariant chunks == Map(closed, JoinSentences)
    {
      var sent := sentences[i];
      var sentTokens := tokens(sent);
      PackPrefixNext(sentences, i, tokens, maxTokens);
      if currentTokens + sentTokens > maxTokens {
        if current != [] {
          CloseChunk(closed, current);
          chunks := chunks + [JoinWith(current, " ")];
          closed := closed + [current];
          current := [];
          currentTokens := 0;
        }
        CloseChunk(closed, [sent]);
        chunks := chunks + [sent];
        closed := closed + [[sent]];
      } else {
        current := current + [sent];
        currentTokens := currentTokens + sentTokens;
      }
      i := i + 1;
    }
    assert sentences[..i] == sentences;
    if current != [] {
      CloseChunk(closed, current);
      chunks := chunks + [JoinWith(current, " ")];
    } else {
      assert closed + [] == closed;
    }
  }

  /** The pipeline call for each chunk, in order. */
  function Attempts(chunks: seq<string>, summarize: Summarizer): (rs: seq<Result<string>>)
    ensures |rs| == |chunks|
    ensures forall k :: 0 <= k < |chunks| ==> rs[k] == summarize(chunks[k], 150, 50)
  {
    if chunks == [] then []
    else
      var n := |chunks| - 1;
      Attempts(chunks[..n], summarize) + [summarize(chunks[n], 150, 50)]
  }

  /** The summarising loop of `process_text`: a chunk whose call raises is skipped;
      an empty summary is kept. */
  method SummarizeChunks(chunks: seq<string>, summarize: Summarizer) returns (summaries: seq<string>)
    ensures summaries == Successes(Attempts(chunks, summarize))
  {
    summaries := [];
    var i := 0;
    while i < |chunks|
      invariant 0 <= i <= |chunks|
      invariant summaries == Successes(Attempts(chunks[..i], summarize))
    {
      assert chunks[..i + 1][..i] == chunks[..i];
      var r := summarize(chunks[i], 150, 50);
      if r.Success? {
        summaries := summaries + [r.value];
      }
      i := i + 1;
    }
    assert chunks[..i] == chunks;
  }

  /** The final join: the summaries separated by spaces, or the error when there
      are none. */
  function JoinSummaries(summaries: seq<string>): string
  {
    if summaries == [] then NoSummaries else JoinWith(summaries, " ")
  }

  /** The services `process_text` calls: the tokenizer's count, the sentence
      splitter and the summarisation pipeline. */
  datatype Pipeline = Pipeline(tokens: string -> nat, splitSentences: string -> seq<string>, summarize: Summarizer)

  /** The chunks of a text over the budget. */
  function ChunksOf(text: string, maxTokens: nat, p: Pipeline): seq<string>
  {
    Map(Groups(p.splitSentences(text), p.tokens, maxTokens), JoinSentences)
  }

  /** What `process_text(text, max_tokens)` returns. */
  function Outcome(text: string, maxTokens: nat, p: Pipeline): string
  {
    if text == [] then InvalidInput
    else if p.tokens(text) <= maxTokens then
      match p.summarize(text, 300, 100)
      case Success(s) => s
      case Failure(e) => SummarizationErrorPrefix + e
    else JoinSummaries(Successes(Attempts(ChunksOf(text, maxTokens, p), p.summarize)))
  }

  /** `process_text(text, max_tokens)`: the empty text is rejected; a text within the
      budget is summarised whole with lengths (300, 100), a raised error becoming
      a message; a longer text is packed and summarised chunk by chunk with
      lengths (150, 50). */
  method ProcessText(text: string, maxTokens: nat, p: Pipeline) returns (r: string)
    ensures r == Outcome(text, maxTokens, p)
  {
    if text == [] {
      return InvalidInput;
    }
    if p.tokens(text) <= maxTokens {
      var whole := p.summarize(text, 300, 100);
      match whole {
        case Success(s) => r := s;
        case Failure(e) => r := SummarizationErrorPrefix + e;
      }
      return;
    }
    var chunks := Pack(p.splitSentences(text), p.tokens, maxTokens);
    var summaries := SummarizeChunks(chunks, p.summarize);
    r := JoinSummaries(summaries);
  }

  /** The empty text is refused; a text within the budget is never split, so its
      result depends only on the single whole-text call; a text over the budget
      gives the error exactly when every chunk's call raised, and otherwise joins
      the chunk summaries, each successful one included. */
  lemma OutcomeSpec(text: string, maxTokens: nat, p: Pipeline, q: Pipeline)
    ensures Outcome([], maxTokens, p) == InvalidInput
    ensures text != [] && p.tokens(text) <= maxTokens && p.tokens == q.tokens &&
            p.summarize(text, 300, 100) == q.summarize(text, 300, 100) ==>
              Outcome(text, maxTokens, p) == Outcome(text, maxTokens, q)
    ensures text != [] && p.tokens(text) > maxTokens ==>
              var chunks := ChunksOf(text, maxTokens, p);
              && ((forall k :: 0 <= k < |chunks| ==> p.summarize(chunks[k], 150, 50).Failure?) ==>
                    Outcome(text, maxTokens, p) == NoSummaries)
              && ((exists k :: 0 <= k < |chunks| && p.summarize(chunks[k], 150, 50).Success?) ==>
                    Outcome(text, maxTokens, p) == JoinWith(Successes(Attempts(chunks, p.summarize)), " "))
  {
    if text != [] && p.tokens(text) > maxTokens {
      ChunkedResult(ChunksOf(text, maxTokens, p), p.summarize);
    }
  }

  /** In the chunked path every successful chunk summary is collected, and the
      error is reported exactly when every chunk's call raised. */
  lemma ChunkedResult(chunks: seq<string>, summarize: Summarizer)
    ensures Successes(Attempts(chunks, summarize)) == [] <==>
              forall k :: 0 <= k < |chunks| ==> summarize(chunks[k], 150, 50).Failure?
    ensures forall k :: 0 <= k < |chunks| && summarize(chunks[k], 150, 50).Success? ==>
              summarize(chunks[k], 150, 50).value in Successes(Attempts(chunks, summarize))
  {
    var rs := Attempts(chunks, summarize);
    SuccessesEmpty(rs);
    forall k | 0 <= k < |chunks| && summarize(chunks[k], 150, 50).Success?
      ensures summarize(chunks[k], 150, 50).value in Successes(rs)
    {
      SuccessesMember(rs, summarize(chunks[k], 150, 50).value);
      assert rs[k] == Success(summarize(chunks[k], 150, 50).value);
    }
  }
}
