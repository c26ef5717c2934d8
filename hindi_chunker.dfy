/** The Hindi summariser without translation: `estimate_tokens`, `chunk_text` and
    `process_text`. The tokenizer may be missing or may raise; the sentence
    splitter, the language detector and the summarisation service are parameters. */
module HindiChunker {
  import opened Outcomes
  import opened Seqs
  import opened Text

  const ChunkThreshold: nat := 1000
  const ChunkMaxTokens: nat := 500

  const InvalidInput := "Error: Invalid input text"
  const NotHindi := "Error: Input must be in Hindi"
  const NoValidSummaries := "Error: No valid summaries generated"
  const ErrorPrefix := "Error: "

  /** The module-level tokenizer: absent when loading failed, otherwise an encoder
      that gives a token count or raises. */
  datatype Tokenizer = NoTokenizer | Loaded(encode: string -> Result<nat>)

  /** `estimate_tokens`: the tokenizer's count, or twice the number of
      whitespace-separated words when there is no tokenizer or it raises. */
  function EstimateTokens(tok: Tokenizer, text: string): (n: nat)
  {
    if tok.Loaded? && tok.encode(text).Success? then tok.encode(text).value
    else 2 * |Words(text)|
  }

  /** The fallback estimate is zero exactly for blank text. */
  lemma FallbackEstimate(tok: Tokenizer, text: string)
    requires tok.NoTokenizer? || tok.encode(text).Failure?
    ensures EstimateTokens(tok, text) == 2 * |Words(text)|
    ensures EstimateTokens(tok, text) == 0 <==> IsBlank(text)
  {
    WordsEmptyIffBlank(text);
  }

  /** Without a tokenizer, normalising the whitespace of a text does not change its
      estimate. */
  lemma FallbackEstimateCollapse(text: string)
    ensures EstimateTokens(NoTokenizer, Collapse(text)) == EstimateTokens(NoTokenizer, text)
  {
    WordsOfJoin(Words(text));
  }

  lemma {:induction false} WordsEmptyIffBlank(s: string)
    ensures Words(s) == [] <==> IsBlank(s)
  {
    StripLeftSpec(s);
  }

  /** The loop state of `chunk_text`. */
  datatype Packing = Packing(chunks: seq<seq<string>>, current: seq<string>, currentTokens: nat)

  /** One iteration of `chunk_text`: a sentence that does not fit closes the current
      chunk and starts the next one; only when there is no current chunk is it
      emitted on its own. */
  function Step(p: Packing, sentence: string, tokens: string -> nat, maxTokens: nat): Packing
  {
    var t := tokens(sentence);
    if p.currentTokens + t > maxTokens then
      if p.current != [] then Packing(p.chunks + [p.current], [sentence], t)
      else Packing(p.chunks + [[sentence]], [], 0)
    else
      Packing(p.chunks, p.current + [sentence], p.currentTokens + t)
  }

  function PackPrefix(sentences: seq<string>, tokens: string -> nat, maxTokens: nat): Packing
  {
    if sentences == [] then Packing([], [], 0)
    else
      var n := |sentences| - 1;
      Step(PackPrefix(sentences[..n], tokens, maxTokens), sentences[n], tokens, maxTokens)
  }

  /** One more sentence is one more step of the loop. */
  lemma PackPrefixNext(sentences: seq<string>, i: nat, tokens: string -> nat, maxTokens: nat)
    requires i < |sentences|
    ensures PackPrefix(sentences[..i + 1], tokens, maxTokens)
         == Step(PackPrefix(sentences[..i], tokens, maxTokens), sentences[i], tokens, maxTokens)
  {
    assert sentences[..i + 1][..i] == sentences[..i];
  }

  function Groups(sentences: seq<string>, tokens: string -> nat, maxTokens: nat): seq<seq<string>>
  {
    var p := PackPrefix(sentences, tokens, maxTokens);
    p.chunks + (if p.current != [] then [p.current] else [])
  }

  function JoinSentences(group: seq<string>): string
  {
    JoinWith(group, " ")
  }

  /** A chunk has at least one sentence, and a chunk of several sentences is within
      the token budget. */
  predicate WellFormed(group: seq<string>, tokens: string -> nat, maxTokens: nat)
  {
    group != [] && (|group| > 1 ==> SumOf(group, tokens) <= maxTokens)
  }

  /** What the loop keeps true. Unlike the English packer, the current chunk may
      hold one sentence that is over the budget on its own. */
  predicate PackingInv(p: Packing, sentences: seq<string>, tokens: string -> nat, maxTokens: nat)
  {
    && Flatten(p.chunks) + p.current == sentences
    && p.currentTokens == SumOf(p.current, tokens)
    && (|p.current| > 1 ==> p.currentTokens <= maxTokens)
    && forall k :: 0 <= k < |p.chunks| ==> WellFormed(p.chunks[k], tokens, maxTokens)
  }

  lemma {:induction false} PackPrefixInv(sentences: seq<string>, tokens: string -> nat, maxTokens: nat)
    ensures PackingInv(PackPrefix(sentences, tokens, maxTokens), sentences, tokens, maxTokens)
  {
    if sentences != [] {
      var n := |sentences| - 1;
      var s := sentences[n];
      var p := PackPrefix(sentences[..n], tokens, maxTokens);
      PackPrefixInv(sentences[..n], tokens, maxTokens);
      var q := Step(p, s, tokens, maxTokens);
      assert sentences == sentences[..n] + [s];
      assert SumOf([s], tokens) == tokens(s);
      if p.currentTokens + tokens(s) > maxTokens {
        if p.current != [] {
          FlattenAppend(p.chunks, [p.current]);
          assert Flatten([p.current]) == p.current;
          assert WellFormed(p.current, tokens, maxTokens);
          assert forall k :: 0 <= k < |q.chunks| ==> WellFormed(q.chunks[k], tokens, maxTokens) by {
            forall k | 0 <= k < |q.chunks|
              ensures WellFormed(q.chunks[k], tokens, maxTokens)
            {
              if k < |p.chunks| {
                assert q.chunks[k] == p.chunks[k];
              }
            }
          }
        } else {
          FlattenAppend(p.chunks, [[s]]);
          assert Flatten([[s]]) == [s];
          assert forall k :: 0 <= k < |q.chunks| ==> WellFormed(q.chunks[k], tokens, maxTokens) by {
            forall k | 0 <= k < |q.chunks|
              ensures WellFormed(q.chunks[k], tokens, maxTokens)
            {
              if k < |p.chunks| {
                assert q.chunks[k] == p.chunks[k];
              }
            }
          }
        }
      } else {
        SumOfAppend(p.current, s, tokens);
        assert Flatten(p.chunks) + (p.current + [s]) == sentences;
      }
    }
  }

  /** `chunk_text` keeps every sentence, in order, makes no empty chunk, and a chunk
      is either one sentence or within the token budget. */
  lemma GroupsSpec(sentences: seq<string>, tokens: string -> nat, maxTokens: nat)
    ensures Flatten(Groups(sentences, tokens, maxTokens)) == sentences
    ensures forall k :: 0 <= k < |Groups(sentences, tokens, maxTokens)| ==>
              WellFormed(Groups(sentences, tokens, maxTokens)[k], tokens, maxTokens)
  {
    var p := PackPrefix(sentences, tokens, maxTokens);
    PackPrefixInv(sentences, tokens, maxTokens);
    if p.current != [] {
      FlattenAppend(p.chunks, [p.current]);
      assert Flatten([p.current]) == p.current;
    } else {
      assert p.chunks + [] == p.chunks;
    }
  }

  /** Reading more sentences keeps the closed chunks, and the chunk being filled
      keeps its first sentence: it is either still being filled or has been closed
      right after them. */
  lemma {:induction false} CurrentHeadKept(xs: seq<string>, ys: seq<string>, tokens: string -> nat, maxTokens: nat)
    requires PackPrefix(xs, tokens, maxTokens).current != []
    ensures var p, q := PackPrefix(xs, tokens, maxTokens), PackPrefix(xs + ys, tokens, maxTokens);
      && p.chunks <= q.chunks
      && (if |q.chunks| == |p.chunks| then q.current != [] && q.current[0] == p.current[0]
          else q.chunks[|p.chunks|] != [] && q.chunks[|p.chunks|][0] == p.current[0])
    decreases |ys|
  {
    if ys == [] {
      assert xs + ys == xs;
    } else {
      var n := |ys| - 1;
      CurrentHeadKept(xs, ys[..n], tokens, maxTokens);
      assert (xs + ys)[..|xs + ys| - 1] == xs + ys[..n];
    }
  }

  /** A sentence that overflows a nonempty current chunk closes that chunk as it was
      and begins the next one; it is not emitted on its own. */
  lemma OverflowStartsNext(sentences: seq<string>, i: nat, tokens: string -> nat, maxTokens: nat)
    requires i < |sentences|
    requires PackPrefix(sentences[..i], tokens, maxTokens).current != []
    requires PackPrefix(sentences[..i], tokens, maxTokens).currentTokens + tokens(sentences[i]) > maxTokens
    ensures var p, c := PackPrefix(sentences[..i], tokens, maxTokens), |PackPrefix(sentences[..i], tokens, maxTokens).chunks|;
      && c + 1 < |Groups(sentences, tokens, maxTokens)|
      && Groups(sentences, tokens, maxTokens)[c] == p.current
      && Groups(sentences, tokens, maxTokens)[c + 1] != []
      && Groups(sentences, tokens, maxTokens)[c + 1][0] == sentences[i]
  {
    var p := PackPrefix(sentences[..i], tokens, maxTokens);
    var q := PackPrefix(sentences[..i + 1], tokens, maxTokens);
    assert sentences[..i + 1][..i] == sentences[..i];
    assert q == Packing(p.chunks + [p.current], [sentences[i]], tokens(sentences[i]));
    CurrentHeadKept(sentences[..i + 1], sentences[i + 1..], tokens, maxTokens);
    assert sentences[..i + 1] + sentences[i + 1..] == sentences;
  }

  /** With no current chunk, an overflowing sentence is the next chunk, on its own;
      the chunks before it hold exactly the sentences before it. */
  lemma OverflowAloneWhenEmpty(sentences: seq<string>, i: nat, tokens: string -> nat, maxTokens: nat)
    requires i < |sentences|
    requires PackPrefix(sentences[..i], tokens, maxTokens).current == []
    requires tokens(sentences[i]) > maxTokens
    ensures var c := |PackPrefix(sentences[..i], tokens, maxTokens).chunks|;
      var g := Groups(sentences, tokens, maxTokens);
      && c < |g| && g[c] == [sentences[i]]
      && Flatten(g[..c]) == sentences[..i]
  {
    var p := PackPrefix(sentences[..i], tokens, maxTokens);
    var q := PackPrefix(sentences[..i + 1], tokens, maxTokens);
    assert sentences[..i + 1][..i] == sentences[..i];
    assert q.chunks == p.chunks + [[sentences[i]]] && q.current == [];
    ChunksStable(sentences[..i + 1], sentences[i + 1..], tokens, maxTokens);
    assert sentences[..i + 1] + sentences[i + 1..] == sentences;
    var g := Groups(sentences, tokens, maxTokens);
    var c := |p.chunks|;
    assert g[c] == q.chunks[c] == [sentences[i]];
    assert g[..c] == p.chunks;
    PackPrefixInv(sentences[..i], tokens, maxTokens);
    assert Flatten(p.chunks) + [] == sentences[..i];
  }

  /** Under the Hindi policy, where an overflowing sentence opens the next chunk,
      a chunk once closed is never reopened: more sentences only append chunks. */
  lemma {:induction false} ChunksStable(xs: seq<string>, ys: seq<string>, tokens: string -> nat, maxTokens: nat)
    ensures PackPrefix(xs, tokens, maxTokens).chunks <= PackPrefix(xs + ys, tokens, maxTokens).chunks
    decreases |ys|
  {
    if ys == [] {
      assert xs + ys == xs;
    } else {
      var n := |ys| - 1;
      ChunksStable(xs, ys[..n], tokens, maxTokens);
      assert (xs + ys)[..|xs + ys| - 1] == xs + ys[..n];
    }
  }

  /** Closing a group appends its joined text to the chunks. */
  lemma CloseChunk(closed: seq<seq<string>>, group: seq<string>)
    ensures Map(closed + [group], JoinSentences) == Map(closed, JoinSentences) + [JoinWith(group, " ")]
    ensures |group| == 1 ==> JoinWith(group, " ") == group[0]
  {
    MapAppend(closed, [group], JoinSentences);
    assert Map([group], JoinSentences) == [JoinWith(group, " ")];
  }

  /** `chunk_text(text, max_tokens)`. */
  method ChunkText(text: string, maxTokens: nat, tok: Tokenizer, splitSentences: string -> seq<string>)
    returns (chunks: seq<string>)
    ensures chunks == Map(Groups(splitSentences(text), t => EstimateTokens(tok, t), maxTokens), JoinSentences)
  {
    var sentences := splitSentences(text);
    var tokens := t => EstimateTokens(tok, t);
    chunks := [];
    var current: seq<string> := [];
    var currentTokens: nat := 0;
    ghost var closed: seq<seq<string>> := [];
    var i := 0;
    while i < |sentences|
      invariant 0 <= i <= |sentences|
      invariant PackPrefix(sentences[..i], tokens, maxTokens) == Packing(closed, current, currentTokens)
      invariant chunks == Map(closed, JoinSentences)
    {
      var sentence := sentences[i];
      var t := tokens(sentence);
      PackPrefixNext(sentences, i, tokens, maxTokens);
      if currentTokens + t > maxTokens {
        if current != [] {
          CloseChunk(closed, current);
          chunks := chunks + [JoinWith(current, " ")];
          closed := closed + [current];
          current := [sentence];
          currentTokens := t;
        } else {
          CloseChunk(closed, [sentence]);
          chunks := chunks + [sentence];
          closed := closed + [[sentence]];
          current := [];
          currentTokens := 0;
        }
      } else {
        current := current + [sentence];
        currentTokens := currentTokens + t;
      }
      i := i + 1;
    }
    assert sentences[..i] == sentences;
    if current != [] {
      CloseChunk(closed, current);
      chunks := chunks + [JoinWith(current, " ")];
    } else {
      assert closed + [] == closed;
    }
  }

  /** The response of `process_text` when a summary was produced. */
  datatype HindiSummary = HindiSummary(summary: string, language: string, numChunks: nat, methodName: string)

  /** `summarize_chunk`: posts the chunk with the method and sentence count and
      without chunking; `None` when the request fails or the service reports an
      error, otherwise the returned summary (possibly empty). */
  type ChunkSummarizer = (string, string, int, bool) -> Option<string>

  /** The chunks `process_text` summarises: the text itself when its estimate is at
      most 1000 tokens, otherwise `chunk_text` with a budget of 500. */
  function ChunksFor(text: string, tok: Tokenizer, splitSentences: string -> seq<string>): seq<string>
  {
    if EstimateTokens(tok, text) > ChunkThreshold then
      Map(Groups(splitSentences(text), t => EstimateTokens(tok, t), ChunkMaxTokens), JoinSentences)
    else [text]
  }

  /** The service's answer for each chunk, a falsy answer (none or empty) counting
      as a failure. */
  function Attempts(chunks: seq<string>, methodName: string, numSentences: int, summarize: ChunkSummarizer)
    : (rs: seq<Result<string>>)
    ensures |rs| == |chunks|
    ensures forall k :: 0 <= k < |chunks| ==>
              (rs[k].Success? <==> summarize(chunks[k], methodName, numSentences, false).Some? &&
                                   summarize(chunks[k], methodName, numSentences, false).value != [])
    ensures forall k :: 0 <= k < |chunks| && rs[k].Success? ==>
              rs[k].value == summarize(chunks[k], methodName, numSentences, false).value
  {
    if chunks == [] then []
    else
      var n := |chunks| - 1;
      var answer := summarize(chunks[n], methodName, numSentences, false);
      Attempts(chunks[..n], methodName, numSentences, summarize) +
        [if answer.Some? && answer.value != [] then Success(answer.value) else Failure("")]
  }

  /** The loop of `process_text` over the chunks: each chunk is posted in turn and
      its summary kept when the answer is a nonempty one. */
  method SummarizeChunks(chunks: seq<string>, methodName: string, numSentences: int, summarize: ChunkSummarizer)
    returns (summaries: seq<string>)
    ensures summaries == Successes(Attempts(chunks, methodName, numSentences, summarize))
  {
    summaries := [];
    var i := 0;
    while i < |chunks|
      invariant 0 <= i <= |chunks|
      invariant summaries == Successes(Attempts(chunks[..i], methodName, numSentences, summarize))
    {
      assert chunks[..i + 1][..i] == chunks[..i];
      var summary := summarize(chunks[i], methodName, numSentences, false);
      if summary.Some? && summary.value != [] {
        summaries := summaries + [summary.value];
      }
      i := i + 1;
    }
    assert chunks[..i] == chunks;
  }

  /** `process_text(text, method, num_sentences)`: a blank text is rejected; a
      detector error becomes a message, and a language other than Hindi is
      refused; the chunks are summarised one by one and the nonempty summaries
      joined; a blank join is an error, otherwise the summary is returned with the
      number of chunks. */
  method ProcessText(text: string, methodName: string, numSentences: int, tok: Tokenizer,
                     detect: string -> Result<string>, splitSentences: string -> seq<string>,
                     summarize: ChunkSummarizer)
    returns (r: Result<HindiSummary>)
    ensures IsBlank(text) ==> r == Failure(InvalidInput)
    ensures !IsBlank(text) && detect(text).Failure? ==> r == Failure(ErrorPrefix + detect(text).error)
    ensures !IsBlank(text) && detect(text).Success? && detect(text).value != "hi" ==> r == Failure(NotHindi)
    ensures !IsBlank(text) && detect(text) == Success("hi") ==>
              var chunks := ChunksFor(text, tok, splitSentences);
              var joined := JoinWith(Successes(Attempts(chunks, methodName, numSentences, summarize)), " ");
              r == if IsBlank(joined) then Failure(NoValidSummaries)
                   else Success(HindiSummary(joined, "hi", |chunks|, methodName))
  {
    if IsBlank(text) {
      return Failure(InvalidInput);
    }
    var lang := detect(text);
    if lang.Failure? {
      return Failure(ErrorPrefix + lang.error);
    }
    if lang.value != "hi" {
      return Failure(NotHindi);
    }
    var chunks: seq<string>;
    if EstimateTokens(tok, text) > ChunkThreshold {
      chunks := ChunkText(text, ChunkMaxTokens, tok, splitSentences);
    } else {
      chunks := [text];
    }
    var summaries := SummarizeChunks(chunks, methodName, numSentences, summarize);
    var finalSummary := JoinWith(summaries, " ");
    if IsBlank(finalSummary) {
      return Failure(NoValidSummaries);
    }
    r := Success(HindiSummary(finalSummary, "hi", |chunks|, methodName));
  }

  /** A successful response is a visible summary tagged Hindi that counts every
      chunk, successful or not; a text whose estimate is within 1000 tokens is one
      chunk. */
  lemma ResponseShape(text: string, methodName: string, numSentences: int, tok: Tokenizer,
                      splitSentences: string -> seq<string>, summarize: ChunkSummarizer)
    ensures EstimateTokens(tok, text) <= ChunkThreshold ==> ChunksFor(text, tok, splitSentences) == [text]
    ensures var chunks := ChunksFor(text, tok, splitSentences);
      Successes(Attempts(chunks, methodName, numSentences, summarize)) == [] <==>
        forall k :: 0 <= k < |chunks| ==>
          summarize(chunks[k], methodName, numSentences, false) == None ||
          summarize(chunks[k], methodName, numSentences, false) == Some([])
  {
    var chunks := ChunksFor(text, tok, splitSentences);
    SuccessesEmpty(Attempts(chunks, methodName, numSentences, summarize));
  }

  /** The chunks of a long text hold exactly its sentences, in order. */
  lemma LongTextChunks(text: string, tok: Tokenizer, splitSentences: string -> seq<string>)
    requires EstimateTokens(tok, text) > ChunkThreshold
    ensures var groups := Groups(splitSentences(text), t => EstimateTokens(tok, t), ChunkMaxTokens);
      && ChunksFor(text, tok, splitSentences) == Map(groups, JoinSentences)
      && Flatten(groups) == splitSentences(text)
  {
    GroupsSpec(splitSentences(text), t => EstimateTokens(tok, t), ChunkMaxTokens);
  }
}

/** The two greedy packers on the same input: after an overflow the English packer
    leaves the overflowing sentence alone, the Hindi packer lets the next sentence
    join it. */
module PackerContrast {
  import EnglishChunker
  import HindiChunker

  function Cost(s: string): nat
  {
    if s == "c" then 100 else 600
  }

  lemma {:induction false} OverflowPolicies()
    ensures EnglishChunker.Groups(["a", "b", "c"], Cost, 1000) == [["a"], ["b"], ["c"]]
    ensures HindiChunker.Groups(["a", "b", "c"], Cost, 1000) == [["a"], ["b", "c"]]
  {
    var ss: seq<string> := ["a", "b", "c"];
    assert ss[..2] == ["a", "b"] && ss[..2][..1] == ["a"] && ss[..2][..1][..0] == [];
    assert Cost("a") == 600 && Cost("b") == 600 && Cost("c") == 100;
    assert EnglishChunker.PackPrefix(["a"], Cost, 1000) == EnglishChunker.Packing([], ["a"], 600);
    assert EnglishChunker.PackPrefix(["a", "b"], Cost, 1000) == EnglishChunker.Packing([["a"], ["b"]], [], 0);
    assert EnglishChunker.PackPrefix(ss, Cost, 1000) == EnglishChunker.Packing([["a"], ["b"]], ["c"], 100);
    assert HindiChunker.PackPrefix(["a"], Cost, 1000) == HindiChunker.Packing([], ["a"], 600);
    assert HindiChunker.PackPrefix(["a", "b"], Cost, 1000) == HindiChunker.Packing([["a"]], ["b"], 600);
    assert HindiChunker.PackPrefix(ss, Cost, 1000) == HindiChunker.Packing([["a"]], ["b", "c"], 700);
  }
}
