/** The React front end's workflow: the component state and the handlers that
    change it. Each handler receives the outcome of the service it calls (a
    request that fails is a `Failure` carrying the message the handler shows) and
    returns the request it sent, if any. Playback events of the browser's audio
    and speech objects are methods of their own. */
module FrontendApp {
  import opened Outcomes
  import opened Seqs
  import opened Text

  const Placeholder := "Enter text to summarize"
  const TooFewWords := "Please enter at least 50 words of text"
  const Incomplete := "Error: " + "Incomplete summary generated. Try enabling chunking."
  const TooLarge := "File too large (max 10MB)"
  const PdfFailed := "Failed to process PDF. Please try again or check server status."
  const Generating := "Generating summary..."
  /** Appended to the server's message when a summary request fails. */
  const FailureHint := ". Try enabling chunking or check input length."
  const MaxUploadBytes: nat := 10 * 1024 * 1024

  // ---------------------------------------------------------------------------
  // The summarisation gate

  /** The button refuses a blank input or one with fewer than 50 pieces between
      single spaces. */
  predicate SummarizeRefused(input: string)
  {
    IsBlank(input) || PieceCount(input) < 50
  }

  /** `input.split(' ').length`, counted as one more than the spaces (GateSpec). */
  function PieceCount(input: string): nat
  {
    CountChar(input, ' ') + 1
  }

  /** The gate is the source's test on the split, and it counts spaces, not words:
      a non-blank input passes exactly when it has at least 49 space characters,
      however they are grouped. */
  lemma GateSpec(input: string)
    ensures SummarizeRefused(input) <==> IsBlank(input) || |SplitOn(input, ' ')| < 50
    ensures SummarizeRefused(input) <==> IsBlank(input) || CountChar(input, ' ') < 49
  {
    SplitOnSpec(input, ' ');
  }

  // ---------------------------------------------------------------------------
  // Formatting a summary

  /** A sentence end followed by whitespace starts at `i`. */
  predicate SentenceEndAt(s: string, i: nat)
  {
    i + 1 < |s| && IsPunct(s[i]) && IsSpace(s[i + 1])
  }

  /** The first sentence end followed by whitespace, or `|s|` when there is none. */
  function FirstSentenceEnd(s: string): (i: nat)
    ensures i <= |s|
    ensures i < |s| ==> SentenceEndAt(s, i)
    ensures forall j :: 0 <= j < i ==> !SentenceEndAt(s, j)
    decreases |s|
  {
    if |s| < 2 then |s|
    else if SentenceEndAt(s, 0) then 0
    else
      var k := FirstSentenceEnd(s[1..]);
      assert forall j :: 1 <= j < 1 + k ==> (SentenceEndAt(s, j) <==> SentenceEndAt(s[1..], j - 1));
      1 + k
  }

  /** `s.split(/(?<=[.!?])\s+/)`: the pieces between the whitespace runs that
      follow a sentence end. Every piece but the last ends a sentence, no piece
      holds a sentence end followed by whitespace, and no piece after the first
      starts with whitespace: the text is cut at every such run, and the whole
      run goes. */
  function SplitSentences(s: string): (pieces: seq<string>)
    ensures pieces != []
    ensures forall k :: 0 <= k < |pieces| - 1 ==> pieces[k] != [] && IsPunct(pieces[k][|pieces[k]| - 1])
    ensures forall k, j :: 0 <= k < |pieces| && 0 <= j < |pieces[k]| ==> !SentenceEndAt(pieces[k], j)
    ensures forall k :: 1 <= k < |pieces| ==> pieces[k] == [] || !IsSpace(pieces[k][0])
    decreases |s|
  {
    var i := FirstSentenceEnd(s);
    if i == |s| then [s]
    else
      HeadHasNoEnd(s, i, s[..i + 1]);
      [s[..i + 1]] + SplitSentences(StripLeft(s[i + 1..]))
  }

  /** The text up to the first sentence end holds no sentence end followed by
      whitespace. */
  lemma HeadHasNoEnd(s: string, i: nat, head: string)
    requires i < |s| && i == FirstSentenceEnd(s) && head == s[..i + 1]
    ensures forall j :: 0 <= j < |head| ==> !SentenceEndAt(head, j)
  {
    forall j | 0 <= j < |head|
      ensures !SentenceEndAt(head, j)
    {
      assert SentenceEndAt(head, j) ==> SentenceEndAt(s, j);
    }
  }

  /** The whitespace runs the split removes, in order. */
  function SentenceGaps(s: string): (gaps: seq<string>)
    ensures |gaps| == |SplitSentences(s)| - 1
    decreases |s|
  {
    var i := FirstSentenceEnd(s);
    if i == |s| then []
    else
      var tail := s[i + 1..];
      [tail[..|tail| - |StripLeft(tail)|]] + SentenceGaps(StripLeft(tail))
  }

  /** The pieces with the gaps put back between them. */
  function Rejoin(pieces: seq<string>, gaps: seq<string>): string
    requires |pieces| == |gaps| + 1
  {
    if gaps == [] then pieces[0] else pieces[0] + gaps[0] + Rejoin(pieces[1..], gaps[1..])
  }

  /** Putting the removed whitespace runs back between the pieces gives the text
      again. */
  lemma {:induction false} SplitSentencesRoundTrip(s: string)
    ensures Rejoin(SplitSentences(s), SentenceGaps(s)) == s
    decreases |s|
  {
    var i := FirstSentenceEnd(s);
    if i < |s| {
      var tail := s[i + 1..];
      var rest := StripLeft(tail);
      var gap := tail[..|tail| - |rest|];
      SplitSentencesRoundTrip(rest);
      SplitUnfold(s);
      RejoinCons(s[..i + 1], gap, SplitSentences(rest), SentenceGaps(rest));
      CutAndGap(s, i);
    }
  }

  /** The text is its first sentence, the whitespace after it, and the rest. */
  lemma CutAndGap(s: string, i: nat)
    requires i < |s|
    ensures var tail := s[i + 1..];
      s == s[..i + 1] + tail[..|tail| - |StripLeft(tail)|] + StripLeft(tail)
  {
    var tail := s[i + 1..];
    StripLeftShape(tail);
    assert tail == tail[..|tail| - |StripLeft(tail)|] + StripLeft(tail);
    assert s == s[..i + 1] + tail;
  }

  /** One cut of the split. */
  lemma SplitUnfold(s: string)
    requires FirstSentenceEnd(s) < |s|
    ensures var i := FirstSentenceEnd(s);
      var tail := s[i + 1..];
      && SplitSentences(s) == [s[..i + 1]] + SplitSentences(StripLeft(tail))
      && SentenceGaps(s) == [tail[..|tail| - |StripLeft(tail)|]] + SentenceGaps(StripLeft(tail))
  {
  }

  lemma RejoinCons(p: string, g: string, pieces: seq<string>, gaps: seq<string>)
    requires |pieces| == |gaps| + 1
    ensures Rejoin([p] + pieces, [g] + gaps) == p + g + Rejoin(pieces, gaps)
  {
    assert ([p] + pieces)[1..] == pieces;
    assert ([g] + gaps)[1..] == gaps;
  }

  /** Each removed run is nonempty whitespace. */
  lemma {:induction false} SentenceGapsBlank(s: string)
    ensures forall k :: 0 <= k < |SentenceGaps(s)| ==> SentenceGaps(s)[k] != [] && IsBlank(SentenceGaps(s)[k])
    decreases |s|
  {
    var i := FirstSentenceEnd(s);
    if i < |s| {
      var tail := s[i + 1..];
      var rest := StripLeft(tail);
      var gap := tail[..|tail| - |rest|];
      StripLeftShape(tail);
      SentenceGapsBlank(rest);
      assert tail[0] == s[i + 1];
      assert SentenceGaps(s) == [gap] + SentenceGaps(rest);
    }
  }

  predicate NotBlank(p: string)
  {
    !IsBlank(p)
  }

  /** The non-blank pieces, trimmed. */
  function Trimmed(pieces: seq<string>): seq<string>
  {
    Map(Filter(pieces, NotBlank), Strip)
  }

  function Bullet(t: string): string
  {
    "- " + t
  }

  /** The `textrank` layout: one line per sentence, each prefixed with a dash. */
  function BulletList(s: string): string
  {
    JoinWith(Map(Trimmed(SplitSentences(s)), Bullet), "\n")
  }

  /** `s.replace(/\n+/g, '\n\n').replace(/\s+/g, ' ').trim()`. */
  function ProseFormat(s: string): string
  {
    Strip(SquashSpaceRuns(DoubleNewlines(s)))
  }

  /** The summary as displayed, by method and reported language. */
  function FormatSummary(methodName: string, summary: string, originalLanguage: Option<string>): string
  {
    if methodName == "textrank" && originalLanguage == Some("en") then BulletList(summary)
    else ProseFormat(summary)
  }

  lemma {:induction false} SplitSentencesContent(s: string)
    ensures NonSpace(Flatten(SplitSentences(s))) == NonSpace(s)
    decreases |s|
  {
    var i := FirstSentenceEnd(s);
    if i < |s| {
      var rest := StripLeft(s[i + 1..]);
      SplitSentencesContent(rest);
      StripLeftSpec(s[i + 1..]);
      assert s == s[..i + 1] + s[i + 1..];
      NonSpaceAppend(s[..i + 1], s[i + 1..]);
      assert Flatten(SplitSentences(s)) == s[..i + 1] + Flatten(SplitSentences(rest));
      NonSpaceAppend(s[..i + 1], Flatten(SplitSentences(rest)));
    } else {
      assert SplitSentences(s) == [s];
      assert [s][1..] == [];
      assert s + [] == s;
    }
  }

  lemma {:induction false} TrimmedContent(pieces: seq<string>)
    ensures NonSpace(Flatten(Trimmed(pieces))) == NonSpace(Flatten(pieces))
    decreases |pieces|
  {
    if pieces != [] {
      var n := |pieces| - 1;
      var init := pieces[..n];
      var last := pieces[n];
      TrimmedContent(init);
      assert pieces == init + [last];
      FlattenAppend(init, [last]);
      assert Flatten([last]) == last by {
        assert [last][1..] == [];
        assert last + [] == last;
      }
      NonSpaceAppend(Flatten(init), last);
      var kept := Filter(init, NotBlank);
      assert Filter(pieces, NotBlank) == kept + (if NotBlank(last) then [last] else []);
      if IsBlank(last) {
        NonSpaceOfBlank(last);
        assert Trimmed(pieces) == Trimmed(init);
      } else {
        StripSpec(last);
        MapAppend(kept, [last], Strip);
        assert Map([last], Strip) == [Strip(last)];
        assert Trimmed(pieces) == Trimmed(init) + [Strip(last)];
        FlattenAppend(Trimmed(init), [Strip(last)]);
        assert Flatten([Strip(last)]) == Strip(last) by {
          assert [Strip(last)][1..] == [];
          assert Strip(last) + [] == Strip(last);
        }
        NonSpaceAppend(Flatten(Trimmed(init)), Strip(last));
      }
    }
  }

  /** Every line is one sentence: no line holds a sentence end followed by
      whitespace, and every line but the last ends with `.`, `!` or `?`. */
  predicate OneSentenceEach(items: seq<string>)
  {
    && (forall k, j :: 0 <= k < |items| && 0 <= j < |items[k]| ==> !SentenceEndAt(items[k], j))
    && (forall k :: 0 <= k < |items| - 1 ==> items[k] != [] && IsPunct(items[k][|items[k]| - 1]))
  }

  /** The `textrank` layout has one line per non-blank piece of the split; each line
      is a dash and a space followed by one sentence: it starts and ends with a
      visible character, holds no sentence end followed by whitespace, and ends
      with `.`, `!` or `?` unless it is the last; and the sentences together keep
      every visible character of the summary, in order. */
  lemma BulletListSpec(s: string)
    ensures var items := Trimmed(SplitSentences(s));
      && |items| <= |SplitSentences(s)|
      && BulletList(s) == JoinWith(Map(items, Bullet), "\n")
      && (forall k :: 0 <= k < |items| ==> items[k] != [] && !IsSpace(items[k][0]) && !IsSpace(items[k][|items[k]| - 1]))
      && OneSentenceEach(items)
      && NonSpace(Flatten(items)) == NonSpace(s)
  {
    TrimmedItems(SplitSentences(s));
    TrimmedSentences(SplitSentences(s));
    SplitSentencesContent(s);
    TrimmedContent(SplitSentences(s));
  }

  /** A stripped text is a slice of it: the part between its blank ends. */
  lemma StripSlice(p: string)
    ensures var a := |p| - |StripLeft(p)|; a + |Strip(p)| <= |p| && Strip(p) == p[a..a + |Strip(p)|]
  {
    StripLeftShape(p);
    StripRightShape(StripLeft(p));
  }

  /** Stripping a piece keeps it free of sentence ends. */
  lemma StripSentence(p: string)
    requires forall j :: 0 <= j < |p| ==> !SentenceEndAt(p, j)
    ensures forall j :: 0 <= j < |Strip(p)| ==> !SentenceEndAt(Strip(p), j)
  {
    var a := |p| - |StripLeft(p)|;
    var r := Strip(p);
    StripSlice(p);
    forall j | 0 <= j < |r|
      ensures !SentenceEndAt(r, j)
    {
      assert SentenceEndAt(r, j) ==> SentenceEndAt(p, a + j);
    }
  }

  /** Stripping keeps a final `.`, `!` or `?`. */
  lemma StripEndsSentence(p: string)
    requires p != [] && IsPunct(p[|p| - 1])
    ensures Strip(p) != [] && IsPunct(Strip(p)[|Strip(p)| - 1])
  {
    StripLeftShape(p);
    var t := StripLeft(p);
    assert t != [] && t[|t| - 1] == p[|p| - 1];
    assert StripRight(t) == t;
  }

  /** Trimming the pieces one more piece at a time. */
  lemma TrimmedSnoc(pieces: seq<string>)
    requires pieces != []
    ensures var n := |pieces| - 1;
      Trimmed(pieces) == Trimmed(pieces[..n]) + (if NotBlank(pieces[n]) then [Strip(pieces[n])] else [])
  {
    var n := |pieces| - 1;
    var kept := Filter(pieces[..n], NotBlank);
    assert Filter(pieces, NotBlank) == kept + (if NotBlank(pieces[n]) then [pieces[n]] else []);
    if NotBlank(pieces[n]) {
      MapAppend(kept, [pieces[n]], Strip);
    } else {
      assert kept + [] == kept;
    }
  }

  /** No line holds a sentence end followed by whitespace when no piece does. */
  lemma TrimmedNoEnds(pieces: seq<string>)
    requires forall k, j :: 0 <= k < |pieces| && 0 <= j < |pieces[k]| ==> !SentenceEndAt(pieces[k], j)
    ensures forall k, j :: 0 <= k < |Trimmed(pieces)| && 0 <= j < |Trimmed(pieces)[k]| ==> !SentenceEndAt(Trimmed(pieces)[k], j)
  {
    var kept := Filter(pieces, NotBlank);
    forall k | 0 <= k < |kept|
      ensures forall j :: 0 <= j < |Strip(kept[k])| ==> !SentenceEndAt(Strip(kept[k]), j)
    {
      FilterMember(pieces, NotBlank, kept[k]);
      StripSentence(kept[k]);
    }
  }

  /** When every piece ends a sentence, so does every line. */
  lemma TrimmedAllEnd(pieces: seq<string>)
    requires forall k :: 0 <= k < |pieces| ==> pieces[k] != [] && IsPunct(pieces[k][|pieces[k]| - 1])
    ensures forall k :: 0 <= k < |Trimmed(pieces)| ==>
              Trimmed(pieces)[k] != [] && IsPunct(Trimmed(pieces)[k][|Trimmed(pieces)[k]| - 1])
  {
    var kept := Filter(pieces, NotBlank);
    forall k | 0 <= k < |kept|
      ensures Strip(kept[k]) != [] && IsPunct(Strip(kept[k])[|Strip(kept[k])| - 1])
    {
      FilterMember(pieces, NotBlank, kept[k]);
      StripEndsSentence(kept[k]);
    }
  }

  /** The lines of the layout are sentences: no line holds a sentence end followed by
      whitespace, and every line but the last ends one. */
  lemma TrimmedSentences(pieces: seq<string>)
    requires forall k :: 0 <= k < |pieces| - 1 ==> pieces[k] != [] && IsPunct(pieces[k][|pieces[k]| - 1])
    requires forall k, j :: 0 <= k < |pieces| && 0 <= j < |pieces[k]| ==> !SentenceEndAt(pieces[k], j)
    ensures OneSentenceEach(Trimmed(pieces))
  {
    TrimmedNoEnds(pieces);
    if pieces != [] {
      var n := |pieces| - 1;
      TrimmedSnoc(pieces);
      TrimmedAllEnd(pieces[..n]);
    }
  }

  /** The kept pieces are nonempty and trimmed at both ends. */
  lemma TrimmedItems(pieces: seq<string>)
    ensures var items := Trimmed(pieces);
      && |items| <= |pieces|
      && forall k :: 0 <= k < |items| ==> items[k] != [] && !IsSpace(items[k][0]) && !IsSpace(items[k][|items[k]| - 1])
  {
    var kept := Filter(pieces, NotBlank);
    forall k | 0 <= k < |kept|
      ensures Strip(kept[k]) != [] && !IsSpace(Strip(kept[k])[0]) && !IsSpace(Strip(kept[k])[|Strip(kept[k])| - 1])
    {
      assert NotBlank(kept[k]);
      StripSpec(kept[k]);
    }
  }

  lemma {:induction false} StripLeftOfDropNewlines(s: string)
    ensures StripLeft(DropNewlines(s)) == StripLeft(s)
  {
    if s != [] && s[0] == '\n' {
      StripLeftOfDropNewlines(s[1..]);
    }
  }

  lemma {:induction false} StripLeftDoubleNewlines(s: string)
    ensures StripLeft(DoubleNewlines(s)) == DoubleNewlines(StripLeft(s))
    decreases |s|
  {
    if s != [] {
      if s[0] == '\n' {
        var d := DropNewlines(s[1..]);
        StripLeftDoubleNewlines(d);
        StripLeftOfDropNewlines(s[1..]);
        assert StripLeft(DoubleNewlines(s)) == StripLeft(DoubleNewlines(d));
      } else if IsSpace(s[0]) {
        StripLeftDoubleNewlines(s[1..]);
      }
    }
  }

  /** Doubling the newlines first makes no difference: the whitespace rule
      collapses them again. */
  lemma {:induction false} SquashIgnoresDoubling(s: string)
    ensures SquashSpaceRuns(DoubleNewlines(s)) == SquashSpaceRuns(s)
    decreases |s|
  {
    if s != [] {
      if s[0] == '\n' {
        var d := DropNewlines(s[1..]);
        StripLeftDoubleNewlines(d);
        StripLeftOfDropNewlines(s[1..]);
        SquashIgnoresDoubling(StripLeft(d));
        var x := DoubleNewlines(d);
        assert DoubleNewlines(s) == "\n" + ("\n" + x);
        assert SquashSpaceRuns(DoubleNewlines(s)) == " " + SquashSpaceRuns(StripLeft(("\n" + x)[1..]));
        assert ("\n" + x)[1..] == x;
      } else if IsSpace(s[0]) {
        StripLeftDoubleNewlines(s[1..]);
        SquashIgnoresDoubling(StripLeft(s[1..]));
      } else {
        SquashIgnoresDoubling(s[1..]);
      }
    }
  }

  /** The prose layout: the summary on one line, with single spaces between its
      words, no whitespace at either end, every visible character kept in order,
      and nothing left for a second pass to change. The newline doubling has no
      effect on the result. */
  lemma ProseFormatSpec(s: string)
    ensures ProseFormat(s) == Strip(SquashSpaceRuns(s))
    ensures Collapsed(ProseFormat(s)) && '\n' !in ProseFormat(s)
    ensures NonSpace(ProseFormat(s)) == NonSpace(s)
    ensures ProseFormat(ProseFormat(s)) == ProseFormat(s)
  {
    var r := ProseFormat(s);
    SquashIgnoresDoubling(s);
    SquashSpec(s);
    SquashedStripCollapsed(SquashSpaceRuns(s));
    SquashContent(s);
    StripSpec(SquashSpaceRuns(s));
    assert '\n' !in r by {
      forall i | 0 <= i < |r|
        ensures r[i] != '\n'
      {
        assert LoneSpaceAt(r, i);
      }
    }
    DoubleNewlinesWithoutNewline(r);
    SquashedOfCollapsed(r);
    SquashOfSquashed(r);
    if r != [] {
      assert LoneSpaceAt(r, 0) && LoneSpaceAt(r, |r| - 1);
    }
    StripOfTrimmed(r);
  }

  // ---------------------------------------------------------------------------
  // Translation

  /** `s.replace(/- /g, '').replace(/\n/g, ' ').trim()`: the text sent for translation. */
  function TranslationPayload(s: string): string
  {
    Strip(NewlinesToSpaces(RemoveDashSpace(s)))
  }

  /** `t.replace(/([.!?])\s+/g, '$1\n\n').trim()`: the translation as displayed. */
  function TranslatedFormat(t: string): string
  {
    Strip(Reflow(t))
  }

  /** The payload has no newline and no whitespace at either end, and keeps every
      visible character the dash removal leaves; the displayed translation has a
      blank line after every sentence end and changes whitespace only. */
  lemma TranslationFormatsSpec(s: string, t: string)
    ensures '\n' !in TranslationPayload(s)
    ensures var p := TranslationPayload(s); p == [] || (!IsSpace(p[0]) && !IsSpace(p[|p| - 1]))
    ensures NonSpace(TranslationPayload(s)) == NonSpace(RemoveDashSpace(s))
    ensures ParagraphBreaks(TranslatedFormat(t))
    ensures NonSpace(TranslatedFormat(t)) == NonSpace(t)
  {
    StripSubset(NewlinesToSpaces(RemoveDashSpace(s)));
    StripSpec(NewlinesToSpaces(RemoveDashSpace(s)));
    NewlinesToSpacesContent(RemoveDashSpace(s));
    ReflowBreaks(t);
    StripKeepsBreaks(Reflow(t));
    ReflowContent(t);
    StripSpec(Reflow(t));
  }

  /** A dash that ends a line meets the next word only after the dash removal has
      run, so the payload can still contain a dash and a space. */
  lemma PayloadMayKeepDashSpace()
    ensures TranslationPayload("-\nB") == "- B"
  {
    assert RemoveDashSpace("B") == "B";
    assert "\nB"[1..] == "B" && RemoveDashSpace("\nB") == "\nB";
    assert "-\nB"[1..] == "\nB" && RemoveDashSpace("-\nB") == "-\nB";
    assert NewlinesToSpaces("-\nB") == "- B";
    StripOfTrimmed("- B");
  }

  // ---------------------------------------------------------------------------
  // State

  /** A text the buttons treat as no summary: none yet, the placeholder, a pending
      request, or an error. Download and narration test the displayed summary, a
      language change the canonical one. */
  predicate Unready(s: string)
  {
    s == [] || s == Placeholder || StartsWith(s, "Generating") || StartsWith(s, "Error")
  }

  /** `value || fallback` for a string field of a response. */
  function OrDefault(o: Option<string>, fallback: string): string
  {
    if o.Some? && o.value != [] then o.value else fallback
  }

  /** The requests the handlers send. `Speak` is the browser's local speech. */
  datatype Request =
    | ProcessPdf
    | Summarize(text: string, methodName: string, numSentences: int, useChunking: bool)
    | Translate(text: string, sourceLang: string, targetLang: string)
    | DownloadPdf(summary: string, methodName: string, numSentences: int, language: string)
    | Tts(text: string, language: string)
    | Speak(text: string)

  datatype PdfMetadata = PdfMetadata(pages: nat, author: string, title: string)

  /** The fields the front end reads from a `/process-pdf` reply. */
  datatype PdfResponse = PdfResponse(text: string, metadata: PdfMetadata, language: Option<string>)

  /** The fields the front end reads from a `/summarize` reply. */
  datatype SummarizeResponse = SummarizeResponse(summary: string, originalLanguage: Option<string>,
                                                 numSentences: Option<int>, translatedText: Option<string>)

  /** A `bart` summary of fewer than 100 characters, once formatted, is rejected. */
  predicate TooShort(methodName: string, r: SummarizeResponse)
  {
    methodName == "bart" && |FormatSummary(methodName, r.summary, r.originalLanguage)| < 100
  }

  /** The part of the page a `/summarize` reply decides: the displayed and the
      canonical summary, the sentence count, the progress bar and the languages. */
  datatype SummaryView = SummaryView(summary: string, originalSummary: string, numSentences: Option<int>,
                                     progress: nat, inputLanguage: string, displayLanguage: string,
                                     originalLanguage: string, translatedInput: string)

  /** How the reply to a sent request settles the view. */
  function Settled(v: SummaryView, methodName: string, outcome: Result<SummarizeResponse>): SummaryView
  {
    match outcome
    case Failure(e) => v.(summary := "Error: " + e + FailureHint)
    case Success(r) =>
      if TooShort(methodName, r) then v.(summary := Incomplete)
      else
        var formatted := FormatSummary(methodName, r.summary, r.originalLanguage);
        SummaryView(formatted, formatted, r.numSentences, 100, "en", "en",
                    OrDefault(r.originalLanguage, "en"), OrDefault(r.translatedText, ""))
  }

  /** A failed request and a rejected `bart` summary show an error message, which
      the download and narration buttons then ignore, and leave everything else as
      it was, the canonical summary included, so a language change still works from
      the previous summary (see `StaleTranslation`). An accepted summary is shown in
      English and becomes the canonical one; a `bart` one has at least 100
      characters, and one that is not a bullet list is a single trimmed line. */
  lemma SettledSpec(v: SummaryView, methodName: string, outcome: Result<SummarizeResponse>)
    ensures var w := Settled(v, methodName, outcome);
      && (outcome.Failure? || TooShort(methodName, outcome.value) ==>
            Unready(w.summary) && w.(summary := v.summary) == v)
      && (outcome.Success? && !TooShort(methodName, outcome.value) ==>
            && w.originalSummary == w.summary && w.displayLanguage == "en" && w.inputLanguage == "en"
            && w.progress == 100
            && (methodName == "bart" ==> |w.summary| >= 100)
            && (methodName != "textrank" || outcome.value.originalLanguage != Some("en") ==>
                  '\n' !in w.summary && Strip(w.summary) == w.summary))
  {
    match outcome
    case Failure(e) =>
      assert ("Error: " + e + FailureHint)[..5] == "Error";
    case Success(r) =>
      assert Incomplete[..5] == "Error";
      if !TooShort(methodName, r) && (methodName != "textrank" || r.originalLanguage != Some("en")) {
        ProseFormatSpec(r.summary);
        StripSpec(SquashSpaceRuns(DoubleNewlines(r.summary)));
        StripOfTrimmed(ProseFormat(r.summary));
      }
  }

  /** The audio element in `window.currentAudio`: the narration key it records when
      it ends, and whether it is playing. */
  datatype Audio = Audio(key: string, playing: bool)

  /** `audio.pause()` with the position reset: the element stays, not playing. */
  function Paused(audio: Option<Audio>): Option<Audio>
  {
    if audio.Some? then Some(audio.value.(playing := false)) else None
  }

  /** The key of the element in the slot when it is playing: what plays on, out of
      reach, once the slot is given another element or emptied by another
      element's callback. */
  function Orphaned(audio: Option<Audio>): multiset<string>
  {
    if audio.Some? && audio.value.playing then multiset{audio.value.key} else multiset{}
  }

  /** An audio element whose callback runs: the one in `window.currentAudio`, or a
      playing one that the slot no longer holds, known by its key. */
  datatype Element = InSlot | Detached(key: string)

  /** The narration key: the text read and the language it was read in. */
  function NarrationKey(text: string, lang: string): string
  {
    text + "_" + lang
  }

  /** `s.replace(/\n+/g, ' ').replace(/\s+/g, ' ').trim()` for an uploaded PDF's text. */
  function NormalizePdfText(s: string): string
  {
    Strip(SquashSpaceRuns(NewlinesToSpaces(s)))
  }

  class App {
    var inputText: string
    var translatedInput: string
    var summary: string
    var originalSummary: string
    var isLoading: bool
    var methodUsed: Option<string>
    var numSentences: Option<int>
    var pdfInfo: Option<PdfMetadata>
    var isPdfProcessing: bool
    var isSpeaking: bool
    var inputLanguage: string
    var originalLanguage: string
    var displayLanguage: string
    var lastReadSummary: string
    var useChunking: bool
    var progress: nat
    /** `window.currentAudio`. */
    var currentAudio: Option<Audio>
    /** The keys of the audio elements still playing that `window.currentAudio` no
        longer holds: nothing can pause them. */
    var detached: multiset<string>
    /** The browser's speech queue: the narration key of each utterance spoken or
        waiting, the one being spoken first. */
    var speech: seq<string>

    constructor()
      ensures inputText == [] && translatedInput == [] && summary == Placeholder && originalSummary == []
      ensures !isLoading && methodUsed.None? && numSentences.None? && pdfInfo.None? && !isPdfProcessing
      ensures !isSpeaking && inputLanguage == "en" && originalLanguage == "en" && displayLanguage == "en"
      ensures lastReadSummary == [] && !useChunking && progress == 0
      ensures currentAudio.None? && detached == multiset{} && speech == []
    {
      inputText := [];
      translatedInput := [];
      summary := Placeholder;
      originalSummary := [];
      isLoading := false;
      methodUsed := None;
      numSentences := None;
      pdfInfo := None;
      isPdfProcessing := false;
      isSpeaking := false;
      inputLanguage := "en";
      originalLanguage := "en";
      displayLanguage := "en";
      lastReadSummary := [];
      useChunking := false;
      progress := 0;
      currentAudio := None;
      detached := multiset{};
      speech := [];
    }

    /** Typing in the input box. */
    method EditInput(text: string)
      modifies this`inputText
      ensures inputText == text
    {
      inputText := text;
    }

    /** `handlePdfUpload` up to its request: `size` is the chosen file's size, if a
        file was chosen. Nothing happens without a file, a file over 10 MB only
        shows a message, and any other file is sent. */
    method HandlePdfUpload(size: Option<nat>) returns (req: Option<Request>)
      modifies this`summary, this`isPdfProcessing
      ensures size.None? ==> req.None? && summary == old(summary) && isPdfProcessing == old(isPdfProcessing)
      ensures size.Some? && size.value > MaxUploadBytes ==>
                req.None? && summary == TooLarge && isPdfProcessing == old(isPdfProcessing)
      ensures size.Some? && size.value <= MaxUploadBytes ==>
                req == Some(ProcessPdf) && summary == old(summary) && isPdfProcessing
    {
      if size.None? {
        return None;
      }
      if size.value > MaxUploadBytes {
        summary := TooLarge;
        return None;
      }
      isPdfProcessing := true;
      req := Some(ProcessPdf);
    }

    /** The rest of `handlePdfUpload`, once the reply to its request has arrived: the
        extracted text, normalised, replaces the input and the detected language
        becomes all three languages; a failure only shows a message. */
    method PdfArrived(outcome: Result<PdfResponse>)
      modifies this`summary, this`inputText, this`pdfInfo, this`inputLanguage, this`originalLanguage,
               this`displayLanguage, this`translatedInput, this`isPdfProcessing
      ensures !isPdfProcessing
      ensures outcome.Failure? ==>
                summary == PdfFailed && inputText == old(inputText) && pdfInfo == old(pdfInfo)
                && inputLanguage == old(inputLanguage) && originalLanguage == old(originalLanguage)
                && displayLanguage == old(displayLanguage) && translatedInput == old(translatedInput)
      ensures outcome.Success? ==>
                var r := outcome.value;
                && inputText == NormalizePdfText(r.text) && pdfInfo == Some(r.metadata)
                && inputLanguage == OrDefault(r.language, "en") && originalLanguage == OrDefault(r.language, "en")
                && displayLanguage == OrDefault(r.language, "en")
                && summary == Placeholder && translatedInput == []
    {
      match outcome {
        case Success(r) =>
          inputText := NormalizePdfText(r.text);
          pdfInfo := Some(r.metadata);
          inputLanguage := OrDefault(r.language, "en");
          originalLanguage := OrDefault(r.language, "en");
          displayLanguage := OrDefault(r.language, "en");
          summary := Placeholder;
          translatedInput := [];
        case Failure(_) =>
          summary := PdfFailed;
      }
      isPdfProcessing := false;
    }

    /** The fields a `/summarize` reply decides. */
    function View(): SummaryView
      reads this
    {
      SummaryView(summary, originalSummary, numSentences, progress, inputLanguage, displayLanguage,
                  originalLanguage, translatedInput)
    }

    /** `handleSummarize(method, chunking)` up to its request: a refused input only
        shows the message; otherwise the page shows that a summary is being made. */
    method HandleSummarize(methodName: string, chunking: bool) returns (req: Option<Request>)
      modifies this`summary, this`isLoading, this`methodUsed, this`numSentences, this`useChunking,
               this`progress
      ensures SummarizeRefused(inputText) ==>
                && req.None? && summary == TooFewWords
                && isLoading == old(isLoading) && methodUsed == old(methodUsed) && numSentences == old(numSentences)
                && useChunking == old(useChunking) && progress == old(progress)
      ensures !SummarizeRefused(inputText) ==>
                && req == Some(Summarize(inputText, methodName, 3, chunking))
                && isLoading && methodUsed == Some(methodName) && numSentences.None? && useChunking == chunking
                && summary == Generating && progress == 0
    {
      if SummarizeRefused(inputText) {
        summary := TooFewWords;
        return None;
      }
      isLoading := true;
      methodUsed := Some(methodName);
      numSentences := None;
      useChunking := chunking;
      summary := Generating;
      progress := 0;
      req := Some(Summarize(inputText, methodName, 3, chunking));
    }

    /** The rest of `handleSummarize(method, chunking)`, once the reply to its request
        has arrived. A failure carries the message shown. */
    method SummaryArrived(methodName: string, outcome: Result<SummarizeResponse>)
      modifies this`summary, this`originalSummary, this`numSentences, this`progress, this`inputLanguage,
               this`displayLanguage, this`originalLanguage, this`translatedInput, this`isLoading
      ensures View() == Settled(old(View()), methodName, outcome) && !isLoading
    {
      var w := Settled(View(), methodName, outcome);
      summary := w.summary;
      originalSummary := w.originalSummary;
      numSentences := w.numSentences;
      progress := w.progress;
      inputLanguage := w.inputLanguage;
      displayLanguage := w.displayLanguage;
      originalLanguage := w.originalLanguage;
      translatedInput := w.translatedInput;
      isLoading := false;
    }

    /** `handleLanguageChange(targetLang)` up to its request. Without a usable
        canonical summary, or for English, the summary is shown at once; otherwise
        the flattened canonical summary is sent for translation and the page stays
        as it is until the reply. The canonical summary is never written. */
    method HandleLanguageChange(targetLang: string) returns (req: Option<Request>)
      modifies this`summary, this`displayLanguage
      ensures Unready(originalSummary) ==>
                && req.None? && displayLanguage == targetLang
                && summary == (if originalSummary == [] then Placeholder else originalSummary)
      ensures !Unready(originalSummary) && targetLang == "en" ==>
                req.None? && summary == originalSummary && displayLanguage == "en"
      ensures !Unready(originalSummary) && targetLang != "en" ==>
                && req == Some(Translate(TranslationPayload(originalSummary), "en", targetLang))
                && summary == old(summary) && displayLanguage == old(displayLanguage)
    {
      if Unready(originalSummary) {
        summary := if originalSummary == [] then Placeholder else originalSummary;
        displayLanguage := targetLang;
        return None;
      }
      if targetLang == "en" {
        summary := originalSummary;
        displayLanguage := targetLang;
        return None;
      }
      req := Some(Translate(TranslationPayload(originalSummary), "en", targetLang));
    }

    /** The rest of `handleLanguageChange(targetLang)`, once the reply to its request
        has arrived. `canonical` is the canonical summary the handler saw when it
        sent the request; the outcome is the reply's `translated_text`, absent when
        the reply has none. A failure or a blank translation shows `canonical` in
        English; otherwise the formatted translation is shown in the target
        language. */
    method TranslationArrived(targetLang: string, canonical: string, outcome: Result<Option<string>>)
      modifies this`summary, this`displayLanguage
      ensures if outcome.Success? && outcome.value.Some? && !IsBlank(outcome.value.value) then
                summary == TranslatedFormat(outcome.value.value) && displayLanguage == targetLang
              else
                summary == canonical && displayLanguage == "en"
    {
      if outcome.Failure? || outcome.value.None? || IsBlank(outcome.value.value) {
        summary := canonical;
        displayLanguage := "en";
        return;
      }
      summary := TranslatedFormat(outcome.value.value);
      displayLanguage := targetLang;
    }

    /** `downloadSummary`: stops any narration and sends the summary, with the
        bullets flattened for a `textrank` summary. */
    method DownloadSummary() returns (req: Option<Request>)
      modifies this`speech, this`currentAudio, this`isSpeaking
      ensures Unready(summary) ==>
                req.None? && speech == old(speech) && currentAudio == old(currentAudio)
                && isSpeaking == old(isSpeaking)
      ensures !Unready(summary) ==>
                && speech == [] && currentAudio.None?
                && isSpeaking == (old(isSpeaking) && old(speech) == [] && old(currentAudio).None?)
                && req == Some(DownloadPdf(
                     if methodUsed == Some("textrank") && originalLanguage == "en"
                     then NewlinesToSpaces(RemoveDashSpace(summary)) else summary,
                     OrDefault(methodUsed, "unknown"),
                     if numSentences.Some? && numSentences.value != 0 then numSentences.value else 3,
                     displayLanguage))
    {
      if Unready(summary) {
        return None;
      }
      if speech != [] {
        speech := [];
        isSpeaking := false;
      }
      if currentAudio.Some? {
        currentAudio := None;
        isSpeaking := false;
      }
      var pdfSummary := if methodUsed == Some("textrank") && originalLanguage == "en"
                        then NewlinesToSpaces(RemoveDashSpace(summary)) else summary;
      var count := if numSentences.Some? && numSentences.value != 0 then numSentences.value else 3;
      req := Some(DownloadPdf(pdfSummary, OrDefault(methodUsed, "unknown"), count, displayLanguage));
    }

    /** The text narrated: the summary, without the bullet dashes for `textrank`. */
    function TextToRead(): string
      reads this`methodUsed, this`originalLanguage, this`summary
    {
      if methodUsed == Some("textrank") && originalLanguage == "en" then RemoveDashSpace(summary) else summary
    }

    /** `readSummary`: a press while narrating stops the provider of the current
        display language; otherwise it starts the narration. */
    method ReadSummary() returns (req: Option<Request>)
      modifies this`isSpeaking, this`lastReadSummary, this`speech, this`currentAudio
      ensures Unready(summary) ==>
                req.None? && isSpeaking == old(isSpeaking) && lastReadSummary == old(lastReadSummary)
                && speech == old(speech) && currentAudio == old(currentAudio)
      ensures !Unready(summary) && old(isSpeaking) ==>
                && req.None? && !isSpeaking && lastReadSummary == []
                && if displayLanguage == "en" then
                     speech == [] && currentAudio == old(currentAudio)
                   else
                     speech == old(speech) && currentAudio == Paused(old(currentAudio))
      ensures !Unready(summary) && !old(isSpeaking) ==>
                lastReadSummary == old(lastReadSummary) && Started(req, old(speech), old(currentAudio))
    {
      if Unready(summary) {
        return None;
      }
      if isSpeaking {
        if displayLanguage == "en" {
          speech := [];
        } else {
          currentAudio := Paused(currentAudio);
        }
        isSpeaking := false;
        lastReadSummary := [];
        return None;
      }
      req := StartNarration();
    }

    /** `readSummary` with the stop press the narration needs: it cancels the
        browser's speech and pauses the element in the slot, whatever the display
        language. Only the elements out of reach keep sounding. */
    method ReadSummaryStoppingBoth() returns (req: Option<Request>)
      modifies this`isSpeaking, this`lastReadSummary, this`speech, this`currentAudio
      ensures Unready(summary) ==>
                req.None? && isSpeaking == old(isSpeaking) && lastReadSummary == old(lastReadSummary)
                && speech == old(speech) && currentAudio == old(currentAudio)
      ensures !Unready(summary) && old(isSpeaking) ==>
                && req.None? && !isSpeaking && lastReadSummary == []
                && speech == [] && currentAudio == Paused(old(currentAudio)) && Voices() == |detached|
      ensures !Unready(summary) && !old(isSpeaking) ==>
                lastReadSummary == old(lastReadSummary) && Started(req, old(speech), old(currentAudio))
    {
      if Unready(summary) {
        return None;
      }
      if isSpeaking {
        speech := [];
        currentAudio := Paused(currentAudio);
        isSpeaking := false;
        lastReadSummary := [];
        return None;
      }
      req := StartNarration();
    }

    /** How many voices sound: the browser's speech, the element in the slot, and
        each element out of reach. */
    function Voices(): nat
      reads this`speech, this`currentAudio, this`detached
    {
      (if speech != [] then 1 else 0) + |Orphaned(currentAudio)| + |detached|
    }

    /** Neither the browser's speech nor any audio element is playing. */
    predicate Silent()
      reads this`speech, this`currentAudio, this`detached
    {
      Voices() == 0
    }

    /** What a press that starts the narration leaves, given the speech queue and
        the audio slot before it: nothing when the same text in the same language
        has been read to the end; for Kannada and Hindi a `/tts` request and no
        other change; otherwise the browser's speech queues an utterance that
        records the key. */
    predicate Started(req: Option<Request>, speech0: seq<string>, audio0: Option<Audio>)
      reads this`methodUsed, this`originalLanguage, this`summary, this`displayLanguage, this`isSpeaking,
            this`lastReadSummary, this`speech, this`currentAudio
    {
      var key := NarrationKey(TextToRead(), displayLanguage);
      && !isSpeaking && currentAudio == audio0
      && if lastReadSummary == key then
           req.None? && speech == speech0
         else if displayLanguage == "kn" || displayLanguage == "hi" then
           req == Some(Tts(TextToRead(), displayLanguage)) && speech == speech0
         else
           req == Some(Speak(TextToRead())) && speech == speech0 + [key]
    }

    /** The part of `readSummary` after the stop test. */
    method StartNarration() returns (req: Option<Request>)
      requires !isSpeaking
      modifies this`speech
      ensures Started(req, old(speech), old(currentAudio))
    {
      var textToRead := TextToRead();
      var key := NarrationKey(textToRead, displayLanguage);
      if lastReadSummary == key {
        return None;
      }
      if displayLanguage == "kn" || displayLanguage == "hi" {
        req := Some(Tts(textToRead, displayLanguage));
      } else {
        req := Some(Speak(textToRead));
        speech := speech + [key];
      }
    }

    /** The reply to the `Tts(text, lang)` request of a press. On success
        `playAudio` makes an element whose `onended` records the key of `text` and
        `lang`, puts it in `window.currentAudio` and plays it; the element the slot
        held is not paused, so if it was playing it plays on, out of reach. A
        failure only clears `isSpeaking`. */
    method TtsArrived(text: string, lang: string, outcome: Result<()>)
      modifies this`currentAudio, this`detached, this`isSpeaking
      ensures outcome.Success? ==>
                && currentAudio == Some(Audio(NarrationKey(text, lang), true))
                && detached == old(detached) + Orphaned(old(currentAudio)) && isSpeaking == old(isSpeaking)
                && Voices() == old(Voices()) + 1
      ensures outcome.Failure? ==>
                !isSpeaking && currentAudio == old(currentAudio) && detached == old(detached)
    {
      if outcome.Failure? {
        isSpeaking := false;
        return;
      }
      detached := detached + Orphaned(currentAudio);
      currentAudio := Some(Audio(NarrationKey(text, lang), true));
    }

    /** The reply to a `/tts` request with the `playAudio` the narration needs: the
        element the slot held is paused before it is replaced, so no element goes
        out of reach. */
    method TtsArrivedPausingPrevious(text: string, lang: string, outcome: Result<()>)
      modifies this`currentAudio, this`isSpeaking
      ensures outcome.Success? ==>
                currentAudio == Some(Audio(NarrationKey(text, lang), true)) && isSpeaking == old(isSpeaking)
      ensures outcome.Failure? ==> !isSpeaking && currentAudio == old(currentAudio)
      ensures outcome.Success? ==> Voices() + |Orphaned(old(currentAudio))| == old(Voices()) + 1
    {
      if outcome.Failure? {
        isSpeaking := false;
        return;
      }
      currentAudio := Paused(currentAudio);
      currentAudio := Some(Audio(NarrationKey(text, lang), true));
    }

    /** `audio.onplay`. */
    method AudioPlay()
      modifies this`isSpeaking
      ensures isSpeaking
    {
      isSpeaking := true;
    }

    /** The element `e` exists and is playing, so its callbacks can run. */
    predicate Live(e: Element)
      reads this`currentAudio, this`detached
    {
      match e
      case InSlot => currentAudio.Some? && currentAudio.value.playing
      case Detached(k) => k in detached
    }

    /** `audio.onended` of the element `e`: it records the key captured when its clip
        was requested, stops speaking and empties `window.currentAudio`, even when
        the slot holds another element, which then plays on out of reach. */
    method AudioEnded(e: Element)
      requires Live(e)
      modifies this`isSpeaking, this`lastReadSummary, this`currentAudio, this`detached
      ensures !isSpeaking && currentAudio.None?
      ensures e.InSlot? ==> lastReadSummary == old(currentAudio).value.key && detached == old(detached)
      ensures e.Detached? ==>
                lastReadSummary == e.key && detached == old(detached) - multiset{e.key} + Orphaned(old(currentAudio))
    {
      isSpeaking := false;
      match e {
        case InSlot =>
          lastReadSummary := currentAudio.value.key;
        case Detached(k) =>
          lastReadSummary := k;
          detached := detached - multiset{k} + Orphaned(currentAudio);
      }
      currentAudio := None;
    }

    /** `audio.onerror` of the element `e`: playback stops, no key is recorded, and
        `window.currentAudio` is emptied as on completion. */
    method AudioError(e: Element)
      requires Live(e)
      modifies this`isSpeaking, this`currentAudio, this`detached
      ensures !isSpeaking && currentAudio.None?
      ensures e.InSlot? ==> detached == old(detached)
      ensures e.Detached? ==> detached == old(detached) - multiset{e.key} + Orphaned(old(currentAudio))
    {
      isSpeaking := false;
      if e.Detached? {
        detached := detached - multiset{e.key} + Orphaned(currentAudio);
      }
      currentAudio := None;
    }

    /** `utterance.onstart`. */
    method UtteranceStart()
      modifies this`isSpeaking
      ensures isSpeaking
    {
      isSpeaking := true;
    }

    /** `utterance.onend` of the utterance being spoken: it records the key captured
        when it was queued, stops speaking, and leaves the queue. */
    method UtteranceEnded()
      requires speech != []
      modifies this`isSpeaking, this`lastReadSummary, this`speech
      ensures !isSpeaking && lastReadSummary == old(speech)[0] && speech == old(speech)[1..]
    {
      isSpeaking := false;
      lastReadSummary := speech[0];
      speech := speech[1..];
    }

    /** `utterance.onerror`: an interruption, which a cancellation that has already
        emptied the queue causes, and a real error of the utterance being spoken
        both stop speaking, and neither records a key; the failed utterance leaves
        the queue. */
    method UtteranceError(interrupted: bool)
      modifies this`isSpeaking, this`speech
      ensures !isSpeaking
      ensures speech == if !interrupted && old(speech) != [] then old(speech)[1..] else old(speech)
    {
      isSpeaking := false;
      if !interrupted && speech != [] {
        speech := speech[1..];
      }
    }

    /** The clear-PDF button. It leaves the canonical summary as it is. */
    method ClearPdf()
      modifies this`pdfInfo, this`inputText, this`translatedInput, this`summary, this`inputLanguage,
               this`originalLanguage, this`displayLanguage, this`methodUsed, this`numSentences
      ensures pdfInfo.None? && inputText == [] && translatedInput == [] && summary == Placeholder
      ensures inputLanguage == "en" && originalLanguage == "en" && displayLanguage == "en"
      ensures methodUsed.None? && numSentences.None?
    {
      pdfInfo := None;
      inputText := [];
      translatedInput := [];
      summary := Placeholder;
      inputLanguage := "en";
      originalLanguage := "en";
      displayLanguage := "en";
      methodUsed := None;
      numSentences := None;
    }
  }

  // ---------------------------------------------------------------------------
  // Narration across a language switch

  /** `n` copies of `c`. */
  function Repeat(c: char, n: nat): (r: string)
    ensures |r| == n && forall i :: 0 <= i < n ==> r[i] == c
  {
    if n == 0 then [] else [c] + Repeat(c, n - 1)
  }

  lemma {:induction false} CountRepeat(c: char, n: nat)
    ensures CountChar(Repeat(c, n), c) == n
  {
    if n > 0 {
      CountRepeat(c, n - 1);
      assert Repeat(c, n)[1..] == Repeat(c, n - 1);
    }
  }

  /** Text without whitespace passes through the prose layout unchanged. */
  lemma {:induction false} PlainProse(s: string)
    requires forall i :: 0 <= i < |s| ==> !IsSpace(s[i])
    ensures ProseFormat(s) == s
  {
    PlainSteps(s);
    if s != [] {
      StripOfTrimmed(s);
    }
  }

  lemma {:induction false} PlainSteps(s: string)
    requires forall i :: 0 <= i < |s| ==> !IsSpace(s[i])
    ensures DoubleNewlines(s) == s && SquashSpaceRuns(s) == s
    decreases |s|
  {
    if s != [] {
      PlainSteps(s[1..]);
      assert s == [s[0]] + s[1..];
    }
  }

  /** Forty-nine spaces and a letter pass the gate. */
  lemma GateOpen()
    ensures !SummarizeRefused(Repeat(' ', 49) + "w")
  {
    var input := Repeat(' ', 49) + "w";
    CountRepeat(' ', 49);
    CountCharAppend(Repeat(' ', 49), "w", ' ');
    assert input[49] == 'w';
  }

  /** Scenario step (no source counterpart): a hundred letters are accepted as a
      `bart` summary, unchanged. */
  lemma LettersAccepted(v: SummaryView)
    ensures var w := Settled(v, "bart", Success(SummarizeResponse(Repeat('a', 100), Some("en"), Some(3), None)));
      && w.summary == Repeat('a', 100) && w.originalSummary == w.summary && w.displayLanguage == "en"
      && !Unready(w.summary)
  {
    LettersDisplayed();
    LettersReady();
  }

  /** Scenario step (no source counterpart): letters pass through the prose layout. */
  lemma LettersDisplayed()
    ensures FormatSummary("bart", Repeat('a', 100), Some("en")) == Repeat('a', 100)
  {
    PlainProse(Repeat('a', 100));
  }

  /** Scenario step (no source counterpart): a hundred letters are none of the
      placeholder, pending or error texts. */
  lemma LettersReady()
    ensures !Unready(Repeat('a', 100))
  {
    var plain := Repeat('a', 100);
    assert plain[0] == 'a';
    assert plain != Placeholder by {
      assert |Placeholder| != 100;
    }
    assert plain[..10] != "Generating" by {
      assert plain[..10][0] != "Generating"[0];
    }
    assert plain[..5] != "Error" by {
      assert plain[..5][0] != "Error"[0];
    }
  }

  /** Scenario step (no source counterpart): a fresh page after 50 pieces of input
      and an accepted `bart` summary of 100 letters. */
  method Summarized() returns (a: App)
    ensures fresh(a)
    ensures !Unready(a.originalSummary) && a.summary == a.originalSummary && a.displayLanguage == "en"
    ensures a.methodUsed == Some("bart")
    ensures !a.isSpeaking && a.speech == [] && a.currentAudio.None? && a.detached == multiset{}
    ensures a.lastReadSummary == []
  {
    a := new App();
    GateOpen();
    a.EditInput(Repeat(' ', 49) + "w");
    var req := a.HandleSummarize("bart", true);
    Reply(a);
  }

  /** Scenario step (no source counterpart): the accepted reply, on a page that is
      not narrating. */
  method Reply(a: App)
    requires !a.isSpeaking && a.speech == [] && a.currentAudio.None? && a.detached == multiset{}
    requires a.lastReadSummary == []
    modifies a
    ensures !Unready(a.originalSummary) && a.summary == a.originalSummary && a.displayLanguage == "en"
    ensures a.methodUsed == old(a.methodUsed)
    ensures !a.isSpeaking && a.speech == [] && a.currentAudio.None? && a.detached == multiset{}
    ensures a.lastReadSummary == []
  {
    LettersAccepted(a.View());
    a.SummaryArrived("bart", Success(SummarizeResponse(Repeat('a', 100), Some("en"), Some(3), None)));
  }

  /** A one-letter translation is displayed as it is. */
  lemma ShownAsIs()
    ensures !IsBlank("b") && TranslatedFormat("b") == "b" && !Unready("b")
  {
    assert "b"[0] == 'b';
    assert Reflow("b") == "b";
    StripOfTrimmed("b");
  }

  /** Scenario step (no source counterpart): the summary translated to Hindi and
      shown, with nothing playing. */
  method InHindi() returns (a: App)
    ensures fresh(a)
    ensures !Unready(a.originalSummary) && a.summary == "b" && a.displayLanguage == "hi"
    ensures a.methodUsed == Some("bart") && a.lastReadSummary == []
    ensures !a.isSpeaking && a.speech == [] && a.currentAudio.None? && a.detached == multiset{}
  {
    a := Summarized();
    ShownAsIs();
    var canonical := a.originalSummary;
    var req := a.HandleLanguageChange("hi");
    a.TranslationArrived("hi", canonical, Success(Some("b")));
  }

  /** Scenario step (no source counterpart): a press on the read button of a page
      showing `b` in Hindi, not narrating and with nothing read yet: it asks for the
      clip, with either stop press. */
  method PressRead(a: App, fixed: bool) returns (sent: Request)
    requires a.summary == "b" && a.displayLanguage == "hi" && a.methodUsed == Some("bart")
    requires a.lastReadSummary == [] && !a.isSpeaking
    modifies a`isSpeaking, a`lastReadSummary, a`speech, a`currentAudio
    ensures sent == Tts("b", "hi")
    ensures a.speech == old(a.speech) && a.currentAudio == old(a.currentAudio) && !a.isSpeaking
    ensures a.lastReadSummary == []
  {
    var req;
    if fixed {
      req := a.ReadSummaryStoppingBoth();
    } else {
      req := a.ReadSummary();
    }
    assert !Unready("b") && NarrationKey("b", "hi") != [];
    sent := req.value;
  }

  /** The summary is shown in Hindi and its audio is playing. */
  method HindiPlaying(fixed: bool) returns (a: App)
    ensures fresh(a)
    ensures !Unready(a.originalSummary) && a.displayLanguage == "hi" && a.isSpeaking
    ensures a.currentAudio.Some? && a.currentAudio.value.playing && a.speech == [] && a.detached == multiset{}
  {
    a := InHindi();
    var sent := PressRead(a, fixed);
    a.TtsArrived(sent.text, sent.language, Success(()));
    a.AudioPlay();
  }

  /** The narration of a summary shown in Hindi and then in English, with the
      stop press as written: the second press stops only the browser's speech,
      which is not speaking, so the Hindi audio plays on, and the third press
      starts the browser's speech over it. */
  method TwoVoices() returns (a: App)
    ensures a.currentAudio.Some? && a.currentAudio.value.playing && a.speech != []
    ensures a.Voices() == 2
  {
    a := HindiPlaying(false);
    var req := a.HandleLanguageChange("en");
    req := a.ReadSummary();
    req := a.ReadSummary();
  }

  /** The same presses with the stop press silencing both providers: the Hindi
      audio is paused before the browser's speech starts. */
  method OneVoice() returns (a: App)
    ensures a.speech != [] && a.currentAudio.Some? && !a.currentAudio.value.playing
    ensures a.Voices() == 1
  {
    a := HindiPlaying(true);
    var req := a.HandleLanguageChange("en");
    req := a.ReadSummaryStoppingBoth();
    req := a.ReadSummaryStoppingBoth();
  }

  /** Two presses on the read button before the first clip arrives: the page is not
      yet speaking, so each press sends a `/tts` request. */
  method TwoRequests() returns (a: App, first: Request, second: Request)
    ensures fresh(a)
    ensures !Unready(a.summary) && a.displayLanguage == "hi" && !a.isSpeaking
    ensures a.speech == [] && a.currentAudio.None? && a.detached == multiset{}
    ensures first == second == Tts("b", "hi")
  {
    a := InHindi();
    first := PressRead(a, false);
    second := PressRead(a, false);
  }

  /** With `playAudio` as written, the second clip replaces the first in the slot
      without pausing it: two clips play, and the corrected stop press can reach
      only one of them. */
  method TwoClips() returns (a: App)
    ensures a.Voices() == 1 && |a.detached| == 1 && !a.isSpeaking
  {
    var first, second;
    a, first, second := TwoRequests();
    a.TtsArrived(first.text, first.language, Success(()));
    a.TtsArrived(second.text, second.language, Success(()));
    a.AudioPlay();
    assert a.Voices() == 2;
    var req := a.ReadSummaryStoppingBoth();
  }

  /** The same presses and replies with the first clip paused before the second
      takes its place: the stop press silences the page. */
  method OneClip() returns (a: App)
    ensures a.Silent() && !a.isSpeaking
  {
    var first, second;
    a, first, second := TwoRequests();
    a.TtsArrivedPausingPrevious(first.text, first.language, Success(()));
    a.TtsArrivedPausingPrevious(second.text, second.language, Success(()));
    a.AudioPlay();
    var req := a.ReadSummaryStoppingBoth();
  }

  /** A failed summary after an accepted one leaves the canonical summary in place,
      so a switch to Hindi still sends that summary for translation and replaces
      the error message on the page. */
  method StaleTranslation() returns (a: App, req: Option<Request>)
    ensures Unready(a.summary) == false && a.summary == "b" && a.displayLanguage == "hi"
    ensures req.Some? && req.value.Translate? && req.value.targetLang == "hi"
  {
    a := Summarized();
    ShownAsIs();
    var canonical := a.originalSummary;
    var sent := a.HandleSummarize("bart", true);
    a.SummaryArrived("bart", Failure("timeout"));
    assert Unready(a.summary) by {
      assert a.summary[..5] == "Error";
    }
    assert a.originalSummary == canonical;
    req := a.HandleLanguageChange("hi");
    a.TranslationArrived("hi", canonical, Success(Some("b")));
  }
}
