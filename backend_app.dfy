/** The Flask backend: the text cleaners, the file-name check, the decision logic
    of the `/summarize`, `/translate` and `/tts` routes with the in-memory audio
    cache, and the page layout of `/download-summary`.

    The language detector, the translator, speech synthesis, the hash of the cache
    key, and the line wrapping of the PDF library are parameters; a call that
    raises is a `Failure`. */
module BackendApp {
  import opened Outcomes
  import opened Seqs
  import opened Text
  import EnglishChunker
  import HindiProcessor
  import KannadaProcessor

  /** The keys of `SUPPORTED_LANGUAGES`. */
  predicate Supported(lang: string)
  {
    lang == "en" || lang == "hi" || lang == "kn"
  }

  /** What a route answers: a JSON body with status 200, or `{'error': message}`
      with an error status. */
  datatype Reply<T> = Ok(body: T) | Error(status: nat, message: string)

  // ---------------------------------------------------------------------------
  // clean_pdf_text

  /** The final whitespace normalisation of `clean_pdf_text`. */
  function CleanPdfText(text: string): string
  {
    Collapse(text)
  }

  /** The cleaned text keeps every visible character in order, has no whitespace at
      either end and no two whitespace characters together, and cleaning it again
      changes nothing. */
  lemma CleanPdfTextSpec(text: string)
    ensures Collapsed(CleanPdfText(text))
    ensures NonSpace(CleanPdfText(text)) == NonSpace(text)
    ensures CleanPdfText(CleanPdfText(text)) == CleanPdfText(text)
  {
    CollapseSpec(text);
  }

  // ---------------------------------------------------------------------------
  // clean_summary_text

  /** The kept class for Kannada: the Kannada block of the Unicode Standard
      (U+0C80 to U+0CFF), whitespace and the sentence ends. */
  predicate KannadaKept(c: char)
  {
    ('\U{0C80}' <= c <= '\U{0CFF}') || IsSpace(c) || IsPunct(c)
  }

  /** The kept class for Hindi: the Devanagari block of the Unicode Standard
      (U+0900 to U+097F), whitespace and the sentence ends. */
  predicate DevanagariKept(c: char)
  {
    ('\U{0900}' <= c <= '\U{097F}') || IsSpace(c) || IsPunct(c)
  }

  /** The language-specific step: paragraph breaks for English, the script filter
      for Kannada and Hindi, nothing for any other language. */
  function ScriptStep(t: string, lang: string): string
  {
    if lang == "en" then Reflow(t)
    else if lang == "kn" then KeepIf(t, KannadaKept)
    else if lang == "hi" then KeepIf(t, DevanagariKept)
    else t
  }

  /** `clean_summary_text(text, lang)` without the page-footer pattern. */
  function CleanSummaryText(text: string, lang: string): string
  {
    Strip(ScriptStep(Collapse(DeleteIRuns(text)), lang))
  }

  /** The cleaned summary has no whitespace at either end. In English every
      sentence end followed by whitespace is followed by exactly one blank line,
      and nothing visible changes but the deleted runs of `i`; in Kannada and Hindi
      only characters of the script's block, whitespace and sentence ends remain;
      in any other language the result is the collapsed text. */
  lemma CleanSummarySpec(text: string, lang: string)
    ensures var r := CleanSummaryText(text, lang);
      r == [] || (!IsSpace(r[0]) && !IsSpace(r[|r| - 1]))
    ensures lang == "en" ==> ParagraphBreaks(CleanSummaryText(text, lang))
    ensures lang == "en" ==> NonSpace(CleanSummaryText(text, lang)) == NonSpace(DeleteIRuns(text))
    ensures lang == "kn" ==> forall c :: c in CleanSummaryText(text, lang) ==> KannadaKept(c)
    ensures lang == "hi" ==> forall c :: c in CleanSummaryText(text, lang) ==> DevanagariKept(c)
    ensures !Supported(lang) ==>
              CleanSummaryText(text, lang) == Collapse(DeleteIRuns(text)) && Collapsed(CleanSummaryText(text, lang))
  {
    var t := Collapse(DeleteIRuns(text));
    var u := ScriptStep(t, lang);
    CollapseSpec(DeleteIRuns(text));
    StripSpec(u);
    StripSubset(u);
    if lang == "en" {
      ReflowBreaks(t);
      StripKeepsBreaks(u);
      ReflowContent(t);
    } else if !Supported(lang) && t != [] {
      assert LoneSpaceAt(t, 0) && LoneSpaceAt(t, |t| - 1);
      StripOfTrimmed(t);
    }
  }

  // ---------------------------------------------------------------------------
  // allowed_file

  /** ASCII lower case; the only letters it must get right are those of `pdf`. */
  function LowerAscii(s: string): (r: string)
    ensures |r| == |s|
    ensures forall i :: 0 <= i < |s| ==> r[i] == (if 'A' <= s[i] <= 'Z' then (s[i] as int + 32) as char else s[i])
  {
    if s == [] then []
    else [if 'A' <= s[0] <= 'Z' then (s[0] as int + 32) as char else s[0]] + LowerAscii(s[1..])
  }

  /** `f.rsplit('.', 1)[1]`: what follows the last dot. */
  function Extension(f: string): (e: string)
    requires '.' in f
    ensures |e| < |f| && e == f[|f| - |e|..]
    ensures f[|f| - |e| - 1] == '.' && '.' !in e
  {
    var n := |f| - 1;
    if f[n] == '.' then []
    else
      assert '.' in f[..n] by {
        var k :| 0 <= k < |f| && f[k] == '.';
        assert f[..n][k] == '.';
      }
      Extension(f[..n]) + [f[n]]
  }

  /** `allowed_file(filename)`. */
  predicate AllowedFile(f: string)
  {
    '.' in f && LowerAscii(Extension(f)) == "pdf"
  }

  /** The extension is what follows the only dot that has no dot after it. */
  lemma ExtensionAt(f: string, k: nat)
    requires k < |f| && f[k] == '.' && '.' !in f[k + 1..]
    ensures Extension(f) == f[k + 1..]
  {
    var e := Extension(f);
    assert |f| - |e| - 1 == k;
  }

  /** A file name is accepted exactly when it ends in a dot and three letters that
      spell `pdf` in any mix of cases. */
  lemma AllowedFileIff(f: string)
    ensures AllowedFile(f) <==> |f| >= 4 && f[|f| - 4] == '.' && LowerAscii(f[|f| - 3..]) == "pdf"
  {
    if AllowedFile(f) {
      var e := Extension(f);
      assert |LowerAscii(e)| == 3;
    }
    if |f| >= 4 && f[|f| - 4] == '.' && LowerAscii(f[|f| - 3..]) == "pdf" {
      var tail := f[|f| - 3..];
      assert '.' !in tail by {
        forall i | 0 <= i < 3
          ensures tail[i] != '.'
        {
          assert LowerAscii(tail)[i] == "pdf"[i];
        }
      }
      assert f[|f| - 4] in f;
      ExtensionAt(f, |f| - 4);
    }
  }

  // ---------------------------------------------------------------------------
  // /summarize

  /** The body of a successful `/summarize` reply. */
  datatype SummaryBody = SummaryBody(summary: string, language: string, methodLabel: string)

  /** The language detector and the three processors. */
  datatype Processors = Processors(detect: string -> Result<string>,
                                   hindi: HindiProcessor.Services,
                                   kannada: KannadaProcessor.Services,
                                   english: EnglishChunker.Pipeline)

  /** The language the route works in: English for a blank text or a language it
      does not support, otherwise the detected one. */
  function RouteLanguage(text: string, detect: string -> Result<string>): Result<string>
  {
    if IsBlank(text) then Success("en")
    else
      match detect(text)
      case Failure(e) => Failure(e)
      case Success(lang) => Success(if Supported(lang) then lang else "en")
  }

  /** The `/summarize` route for the request's `text`. */
  function SummarizeRoute(text: string, ps: Processors): Reply<SummaryBody>
  {
    if text == [] then Error(400, "No text provided")
    else
      match RouteLanguage(text, ps.detect)
      case Failure(e) => Error(500, "Summarization failed: " + e)
      case Success(lang) =>
        var summary :=
          if lang == "hi" then HindiProcessor.Process(text, ps.hindi)
          else if lang == "kn" then KannadaProcessor.Process(text, ps.kannada)
          else EnglishChunker.Outcome(text, EnglishChunker.DefaultMaxTokens, ps.english);
        Ok(SummaryBody(summary, lang, if lang == "hi" || lang == "kn" then "mbart" else "bart"))
  }

  /** An empty text is refused with 400 and a detector error gives 500, and
      nothing else fails; the reported language is always supported, and the
      method label is `mbart` exactly for Hindi and Kannada; a blank text is
      summarised as English without detection; an unsupported detected language
      is treated as English; the summary comes from the processor of the reported
      language, and a Hindi or Kannada summary is an error message or has at
      least 10 visible characters. */
  lemma SummarizeSpec(text: string, ps: Processors)
    ensures var r := SummarizeRoute(text, ps);
      r.Error? <==> text == [] || (!IsBlank(text) && ps.detect(text).Failure?)
    ensures text == [] ==> SummarizeRoute(text, ps) == Error(400, "No text provided")
    ensures var r := SummarizeRoute(text, ps);
      r.Error? && text != [] ==> r.status == 500
    ensures var r := SummarizeRoute(text, ps);
      r.Ok? ==> && Supported(r.body.language)
                && (r.body.methodLabel == "mbart" <==> r.body.language in {"hi", "kn"})
                && (r.body.methodLabel == "bart" <==> r.body.language == "en")
    ensures text != [] && IsBlank(text) ==>
              SummarizeRoute(text, ps) ==
                Ok(SummaryBody(EnglishChunker.Outcome(text, EnglishChunker.DefaultMaxTokens, ps.english), "en", "bart"))
    ensures !IsBlank(text) && ps.detect(text).Success? && !Supported(ps.detect(text).value) ==>
              SummarizeRoute(text, ps).Ok? && SummarizeRoute(text, ps).body.language == "en"
    ensures !IsBlank(text) && ps.detect(text) == Success("hi") ==>
              SummarizeRoute(text, ps) == Ok(SummaryBody(HindiProcessor.Process(text, ps.hindi), "hi", "mbart"))
    ensures !IsBlank(text) && ps.detect(text) == Success("kn") ==>
              SummarizeRoute(text, ps) == Ok(SummaryBody(KannadaProcessor.Process(text, ps.kannada), "kn", "mbart"))
    ensures var r := SummarizeRoute(text, ps);
      r.Ok? && r.body.language != "en" ==> StartsWith(r.body.summary, "Error") || |Strip(r.body.summary)| >= 10
  {
    assert !IsBlank([]) <==> false;
    if text != [] {
      HindiProcessor.ProcessVerdict(text, ps.hindi);
      KannadaProcessor.ProcessVerdict(text, ps.kannada);
    }
  }

  // ---------------------------------------------------------------------------
  // /translate

  /** A JSON value for `text`: a string, or a value of another type. */
  datatype JsonText = JString(s: string) | JOther

  /** The `/translate` route. A missing `text` is the empty string, a missing
      `source_lang` is `en` and a missing `target_lang` is the empty string; the
      translator takes the text, the source and the target language. */
  function TranslateRoute(text: Option<JsonText>, sourceLang: Option<string>, targetLang: Option<string>,
                          translate: (string, string, string) -> Result<string>): Reply<string>
  {
    var t := if text.Some? then text.value else JString("");
    var source := if sourceLang.Some? then sourceLang.value else "en";
    var target := if targetLang.Some? then targetLang.value else "";
    if t.JOther? || IsBlank(t.s) then Error(400, "No text provided")
    else if !Supported(source) then Error(400, "Unsupported source language: " + source)
    else if !Supported(target) then Error(400, "Unsupported target language: " + target)
    else if source == target then Ok(t.s)
    else
      match translate(t.s, source, target)
      case Failure(e) => Error(500, "Translation failed: " + e)
      case Success(translated) =>
        if IsBlank(translated) then Error(500, "Translation resulted in empty text") else Ok(Strip(translated))
  }

  /** The route succeeds exactly when the text is a string with visible characters,
      both languages are supported, and either they are the same or the translator
      returns visible text. The checks run in order: text, then source, then
      target. The same language returns the text untouched whatever the
      translator would do; otherwise the reply is the stripped translation, which
      is not empty and has no whitespace at either end. A missing target language
      is always refused. */
  lemma TranslateSpec(text: JsonText, source: string, target: string,
                      translate: (string, string, string) -> Result<string>,
                      other: (string, string, string) -> Result<string>)
    ensures var r := TranslateRoute(Some(text), Some(source), Some(target), translate);
      r.Ok? <==> && text.JString? && !IsBlank(text.s) && Supported(source) && Supported(target)
                 && (source == target ||
                     (translate(text.s, source, target).Success? && !IsBlank(translate(text.s, source, target).value)))
    ensures text.JOther? || IsBlank(text.s) ==>
              TranslateRoute(Some(text), Some(source), Some(target), translate) == Error(400, "No text provided")
    ensures text.JString? && !IsBlank(text.s) && !Supported(source) ==>
              TranslateRoute(Some(text), Some(source), Some(target), translate) ==
                Error(400, "Unsupported source language: " + source)
    ensures text.JString? && !IsBlank(text.s) && source == target && Supported(source) ==>
              && TranslateRoute(Some(text), Some(source), Some(target), translate) == Ok(text.s)
              && TranslateRoute(Some(text), Some(source), Some(target), other) == Ok(text.s)
    ensures var r := TranslateRoute(Some(text), Some(source), Some(target), translate);
      r.Ok? && source != target ==>
        && r.body == Strip(translate(text.s, source, target).value)
        && r.body != [] && !IsSpace(r.body[0]) && !IsSpace(r.body[|r.body| - 1])
    ensures TranslateRoute(Some(text), Some(source), None, translate).Error?
  {
    if text.JString? {
      var t := translate(text.s, source, target);
      if t.Success? {
        StripSpec(t.value);
      }
    }
  }

  // ---------------------------------------------------------------------------
  // /tts and its cache

  type Bytes = seq<bv8>

  /** The reply of one `/tts` request and the cache after it. */
  datatype TtsOutcome = TtsOutcome(reply: Reply<Bytes>, cache: map<string, Bytes>)

  /** What one `/tts` request does. The cache key is `hash` of the text, an
      underscore and the language; `synthesize` stands for speech synthesis and
      the conversion to WAV. */
  function TtsStep(cache: map<string, Bytes>, text: string, lang: string, hash: string -> string,
                   synthesize: (string, string) -> Result<Bytes>): TtsOutcome
  {
    if text == [] then TtsOutcome(Error(400, "No text provided"), cache)
    else if !Supported(lang) then TtsOutcome(Error(400, "Unsupported language"), cache)
    else
      var key := hash(text + "_" + lang);
      if key in cache then TtsOutcome(Ok(cache[key]), cache)
      else if lang == "kn" || lang == "hi" then
        match synthesize(text, lang)
        case Failure(e) => TtsOutcome(Error(500, "TTS failed: " + e), cache)
        case Success(audio) => TtsOutcome(Ok(audio), cache[key := audio])
      else TtsOutcome(Error(400, "Use browser TTS for English"), cache)
  }

  /** The `/tts` route over the process-wide `tts_cache`. */
  class TtsService {
    var cache: map<string, Bytes>

    constructor()
      ensures cache == map[]
    {
      cache := map[];
    }

    method Tts(text: string, lang: string, hash: string -> string, synthesize: (string, string) -> Result<Bytes>)
      returns (r: Reply<Bytes>)
      modifies this
      ensures TtsOutcome(r, cache) == TtsStep(old(cache), text, lang, hash, synthesize)
    {
      if text == [] {
        return Error(400, "No text provided");
      }
      if !Supported(lang) {
        return Error(400, "Unsupported language");
      }
      var key := hash(text + "_" + lang);
      if key in cache {
        return Ok(cache[key]);
      }
      if lang == "kn" || lang == "hi" {
        var audio := synthesize(text, lang);
        if audio.Failure? {
          return Error(500, "TTS failed: " + audio.error);
        }
        cache := cache[key := audio.value];
        return Ok(audio.value);
      }
      r := Error(400, "Use browser TTS for English");
    }
  }

  /** The cache only grows: no entry is changed or removed, and at most the
      request's own key is added, only for Kannada or Hindi, holding exactly the
      audio that was returned. */
  lemma TtsCacheGrows(cache: map<string, Bytes>, text: string, lang: string, hash: string -> string,
                      synthesize: (string, string) -> Result<Bytes>)
    ensures var o := TtsStep(cache, text, lang, hash, synthesize);
      && (forall k :: k in cache ==> k in o.cache && o.cache[k] == cache[k])
      && (forall k :: k in o.cache && k !in cache ==>
            && k == hash(text + "_" + lang) && (lang == "kn" || lang == "hi")
            && o.reply == Ok(o.cache[k]))
  {
  }

  /** A cached request is answered from the cache, whatever synthesis would do, and
      leaves the cache as it was. */
  lemma TtsHit(cache: map<string, Bytes>, text: string, lang: string, hash: string -> string,
               synthesize: (string, string) -> Result<Bytes>, other: (string, string) -> Result<Bytes>)
    requires text != [] && Supported(lang) && hash(text + "_" + lang) in cache
    ensures TtsStep(cache, text, lang, hash, synthesize) == TtsOutcome(Ok(cache[hash(text + "_" + lang)]), cache)
    ensures TtsStep(cache, text, lang, hash, other) == TtsStep(cache, text, lang, hash, synthesize)
  {
  }

  /** A request answered with audio is answered with the same audio when it is
      repeated, and the repetition needs no synthesis. */
  lemma TtsRepeat(cache: map<string, Bytes>, text: string, lang: string, hash: string -> string,
                  synthesize: (string, string) -> Result<Bytes>, later: (string, string) -> Result<Bytes>)
    requires TtsStep(cache, text, lang, hash, synthesize).reply.Ok?
    ensures var first := TtsStep(cache, text, lang, hash, synthesize);
      TtsStep(first.cache, text, lang, hash, later) == first
  {
  }

  /** English is never synthesised: without a cache hit it is refused with 400. */
  lemma TtsEnglish(cache: map<string, Bytes>, text: string, hash: string -> string,
                   synthesize: (string, string) -> Result<Bytes>)
    requires text != [] && hash(text + "_en") !in cache
    ensures TtsStep(cache, text, "en", hash, synthesize) == TtsOutcome(Error(400, "Use browser TTS for English"), cache)
  {
    assert text + "_" + "en" == text + "_en";
  }

  // ---------------------------------------------------------------------------
  // /download-summary

  const PageHeight: int := 792
  const Margin: int := 72
  const LineHeight: int := 14
  /** The top of the body: the page top less the title and the method line. */
  const BodyTop: int := PageHeight - Margin - 30 - 30

  /** `FONT_MAPPING.get(lang, 'NotoSans')`, replaced by Helvetica when that font is
      not registered. */
  function FontFor(lang: string, registered: set<string>): string
  {
    var mapped :=
      if lang == "hi" then "NotoSansDevanagari"
      else if lang == "kn" then "NotoSansKannada"
      else "NotoSans";
    if mapped in registered then mapped else "Helvetica"
  }

  /** The font is registered or is Helvetica, and it is the script's font whenever
      that is registered. */
  lemma FontForSpec(lang: string, registered: set<string>)
    ensures FontFor(lang, registered) in registered || FontFor(lang, registered) == "Helvetica"
    ensures lang == "hi" && "NotoSansDevanagari" in registered ==> FontFor(lang, registered) == "NotoSansDevanagari"
    ensures lang == "kn" && "NotoSansKannada" in registered ==> FontFor(lang, registered) == "NotoSansKannada"
    ensures lang != "hi" && lang != "kn" ==>
              FontFor(lang, registered) == (if "NotoSans" in registered then "NotoSans" else "Helvetica")
  {
  }

  /** The entries a paragraph contributes: its wrapped lines and one blank entry. */
  function ParagraphEntries(paragraph: string, wrap: string -> seq<string>): seq<string>
  {
    wrap(paragraph) + [""]
  }

  /** The entries of the summary: each of its `'\n'`-separated paragraphs in turn. */
  function Lines(summary: string, wrap: string -> seq<string>): seq<string>
  {
    Flatten(Map(SplitOn(summary, '\n'), p => ParagraphEntries(p, wrap)))
  }

  /** The loop that builds `lines`. */
  method BuildLines(summary: string, wrap: string -> seq<string>) returns (lines: seq<string>)
    ensures lines == Lines(summary, wrap)
  {
    var paragraphs := SplitOn(summary, '\n');
    var f := p => ParagraphEntries(p, wrap);
    lines := [];
    var i := 0;
    while i < |paragraphs|
      invariant 0 <= i <= |paragraphs|
      invariant lines == Flatten(Map(paragraphs[..i], f))
    {
      assert paragraphs[..i + 1] == paragraphs[..i] + [paragraphs[i]];
      MapAppend(paragraphs[..i], [paragraphs[i]], f);
      assert Map([paragraphs[i]], f) == [f(paragraphs[i])];
      FlattenAppend(Map(paragraphs[..i], f), [f(paragraphs[i])]);
      assert Flatten([f(paragraphs[i])]) == f(paragraphs[i]);
      lines := lines + wrap(paragraphs[i]);
      lines := lines + [""];
      i := i + 1;
    }
    assert paragraphs[..i] == paragraphs;
  }

  /** When the wrapper produces no blank line, the blank entries are exactly one
      per paragraph, so there is one more of them than there are newlines, and the
      last entry is blank. */
  lemma {:induction false} LinesBlanks(summary: string, wrap: string -> seq<string>)
    requires forall p :: "" !in wrap(p)
    ensures |Filter(Lines(summary, wrap), l => l == "")| == CountChar(summary, '\n') + 1
    ensures Lines(summary, wrap) != [] && Lines(summary, wrap)[|Lines(summary, wrap)| - 1] == ""
  {
    var paragraphs := SplitOn(summary, '\n');
    SplitOnSpec(summary, '\n');
    BlankEntries(paragraphs, wrap);
    LastEntryBlank(paragraphs, wrap);
  }

  lemma {:induction false} BlankEntries(paragraphs: seq<string>, wrap: string -> seq<string>)
    requires forall p :: "" !in wrap(p)
    ensures |Filter(Flatten(Map(paragraphs, p => ParagraphEntries(p, wrap))), l => l == "")| == |paragraphs|
  {
    var f := p => ParagraphEntries(p, wrap);
    var blank := (l: string) => l == "";
    if paragraphs != [] {
      BlankEntries(paragraphs[1..], wrap);
      var head := f(paragraphs[0]);
      assert Flatten(Map(paragraphs, f)) == head + Flatten(Map(paragraphs[1..], f));
      FilterAppend(head, Flatten(Map(paragraphs[1..], f)), blank);
      NoneKept(wrap(paragraphs[0]), blank);
      FilterAppend(wrap(paragraphs[0]), [""], blank);
      assert Filter([""], blank) == [""] by {
        assert [""][..0] == [];
      }
    }
  }

  lemma {:induction false} NoneKept(xs: seq<string>, blank: string -> bool)
    requires forall l :: blank(l) <==> l == ""
    requires "" !in xs
    ensures Filter(xs, blank) == []
  {
    if xs != [] {
      var n := |xs| - 1;
      assert xs[n] in xs;
      assert "" !in xs[..n];
      NoneKept(xs[..n], blank);
    }
  }

  lemma {:induction false} LastEntryBlank(paragraphs: seq<string>, wrap: string -> seq<string>)
    requires paragraphs != []
    ensures var lines := Flatten(Map(paragraphs, p => ParagraphEntries(p, wrap)));
      lines != [] && lines[|lines| - 1] == ""
  {
    var f := p => ParagraphEntries(p, wrap);
    if |paragraphs| > 1 {
      LastEntryBlank(paragraphs[1..], wrap);
    } else {
      assert Flatten(Map(paragraphs, f)) == f(paragraphs[0]) + Flatten([]);
    }
  }

  /** A drawn line: its page (from 1), its baseline and its text. */
  datatype Placed = Placed(page: nat, y: int, text: string)

  /** The state of the drawing loop: the lines drawn so far, the current page and
      the current baseline. */
  datatype Layout = Layout(placed: seq<Placed>, page: nat, y: int)

  /** One iteration of the drawing loop. A blank entry only moves down a line. A
      line that would fall below the bottom margin starts a new page first. */
  function LayoutStep(l: Layout, line: string): Layout
  {
    if line == "" then Layout(l.placed, l.page, l.y - LineHeight)
    else if l.y < Margin then
      Layout(l.placed + [Placed(l.page + 1, PageHeight - Margin, line)], l.page + 1, PageHeight - Margin - LineHeight)
    else Layout(l.placed + [Placed(l.page, l.y, line)], l.page, l.y - LineHeight)
  }

  /** The loop state after the given entries, starting on page 1 below the two
      header lines. */
  function LayoutOf(lines: seq<string>): Layout
  {
    if lines == [] then Layout([], 1, BodyTop)
    else
      var n := |lines| - 1;
      LayoutStep(LayoutOf(lines[..n]), lines[n])
  }

  /** The drawing loop of `download_summary`. */
  method LayOutLines(lines: seq<string>) returns (placed: seq<Placed>)
    ensures placed == LayoutOf(lines).placed
  {
    placed := [];
    var page := 1;
    var y := BodyTop;
    var i := 0;
    while i < |lines|
      invariant 0 <= i <= |lines|
      invariant LayoutOf(lines[..i]) == Layout(placed, page, y)
    {
      assert lines[..i + 1][..i] == lines[..i];
      var line := lines[i];
      if line == "" {
        y := y - LineHeight;
        i := i + 1;
        continue;
      }
      if y < Margin {
        page := page + 1;
        y := PageHeight - Margin;
      }
      placed := placed + [Placed(page, y, line)];
      y := y - LineHeight;
      i := i + 1;
    }
    assert lines[..i] == lines;
  }

  /** Two drawn lines in a row: the second is lower on the same page by at least a
      line, or at the top of the next page. */
  predicate Follows(a: Placed, b: Placed)
  {
    (b.page == a.page && b.y <= a.y - LineHeight) || (b.page == a.page + 1 && b.y == PageHeight - Margin)
  }

  /** What the drawing loop keeps true about where lines go. */
  predicate LayoutInv(l: Layout)
  {
    && l.y <= PageHeight - Margin - LineHeight
    && 1 <= l.page
    && (forall k :: 0 <= k < |l.placed| ==> Margin <= l.placed[k].y <= PageHeight - Margin && 1 <= l.placed[k].page <= l.page)
    && (forall k :: 0 < k < |l.placed| ==> Follows(l.placed[k - 1], l.placed[k]))
    && (l.placed != [] ==> l.placed[|l.placed| - 1].page == l.page && l.y <= l.placed[|l.placed| - 1].y - LineHeight)
  }

  /** Every line sits between the margins, pages are used in order, and on a page
      each line is at least a line height below the one before. */
  lemma {:induction false} LayoutGeometry(lines: seq<string>)
    ensures LayoutInv(LayoutOf(lines))
  {
    if lines != [] {
      LayoutGeometry(lines[..|lines| - 1]);
    }
  }

  function TextOf(p: Placed): string
  {
    p.text
  }

  /** Every nonempty entry is drawn, in order, and nothing else. */
  lemma {:induction false} LayoutTexts(lines: seq<string>)
    ensures Map(LayoutOf(lines).placed, TextOf) == Filter(lines, (s: string) => s != "")
  {
    if lines != [] {
      var n := |lines| - 1;
      LayoutTexts(lines[..n]);
      var l := LayoutOf(lines[..n]);
      if lines[n] != "" {
        var p := LayoutStep(l, lines[n]).placed[|l.placed|];
        MapAppend(l.placed, [p], TextOf);
        assert Map([p], TextOf) == [p.text];
      } else {
        assert Filter(lines, (s: string) => s != "") == Filter(lines[..n], (s: string) => s != "") + [];
      }
    }
  }

  /** The file produced by `/download-summary`: its name, its body font and the
      drawn lines. */
  datatype Document = Document(fileName: string, font: string, placed: seq<Placed>)

  /** `/download-summary`: an empty summary is refused; otherwise the summary is
      wrapped paragraph by paragraph in the chosen font and drawn. `wrap` stands
      for the PDF library's line splitter, given the font. */
  method DownloadSummary(summary: string, methodName: string, lang: string, registered: set<string>,
                         wrap: (string, string) -> seq<string>)
    returns (r: Reply<Document>)
    ensures summary == [] ==> r == Error(400, "No summary provided")
    ensures summary != [] ==>
              var font := FontFor(lang, registered);
              r == Ok(Document("summary_" + methodName + "_" + lang + ".pdf", font,
                               LayoutOf(Lines(summary, p => wrap(p, font))).placed))
  {
    if summary == [] {
      return Error(400, "No summary provided");
    }
    var font := FontFor(lang, registered);
    var lines := BuildLines(summary, p => wrap(p, font));
    var placed := LayOutLines(lines);
    r := Ok(Document("summary_" + methodName + "_" + lang + ".pdf", font, placed));
  }
}
