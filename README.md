# Text summarisation service: a verified model

The system summarises English, Hindi and Kannada text. It has two parts:

- A React front end (`frontend/src/App.js`). It gates the input, asks the back
  end for a summary, lays the summary out by method, translates it on a
  language switch, narrates it with two speech providers and exports it as a
  PDF.
- A Flask back end (`backend/app.py` and the processors beside it). It cleans
  text, routes a request by detected language, and packs sentences into token-
  bounded chunks for the summarisation model. For Hindi and Kannada it first
  translates to English and falls back on the translation when the summary is
  too short.

The model is written in Dafny, one module per source file:

| module | source |
|---|---|
| `FrontendApp` | `frontend/src/App.js` handlers |
| `BackendApp` | `backend/app.py` |
| `EnglishChunker` | `backend/english_chunker.py` |
| `HindiChunker`, `PackerContrast` | `backend/hindi_chunker_translator.py` |
| `SentenceSummarizer` | `backend/chunker_translator.py` |
| `IndicTranslation` | the translate functions of `hindi_processor.py` and `kannada_processor.py` (the same code) |
| `HindiProcessor`, `KannadaProcessor` | `process` of the two processors |
| `Text`, `Seqs`, `Outcomes` | the string operations, regular-expression rewrites and sequence helpers the sources use |

The front end is a class, `FrontendApp.App`, with one field per piece of
component state, the global audio slot, the playing audio elements the slot no
longer holds, and the browser's speech queue. Every handler that awaits a
service is split into two events: the press, which sends the request and
returns it, and the arrival of the reply, which takes the service's outcome and
the values the handler captured when it sent the request. This holds for the
summary (`HandleSummarize`, `SummaryArrived`), the PDF upload
(`HandlePdfUpload`, `PdfArrived`), the translation (`HandleLanguageChange`,
`TranslationArrived`) and the speech clip (`ReadSummary`, `TtsArrived`). Any
other event may come between a press and its reply. Playback callbacks are
methods of their own.

Loops in the back end are methods proved against a function over the input:
`Pack`, `ChunkText`, `SummarizeChunks`, `ProcessText`, `TranslateSentences`,
`BuildLines` and `LayOutLines`. The properties are proved about those
functions. The TTS cache is a class whose method updates a `map`.

Services the code calls but does not define are parameters:

- tokenizers;
- the summarisation pipeline;
- the translator;
- language detection;
- the sentence splitters;
- the HTTP summariser of the Hindi chunker;
- speech synthesis;
- md5;
- reportlab's `simpleSplit`.

A call that raises is a `Failure` carrying the exception's message.

Where the code and its documentation differ, the model follows the code. The
clear-PDF button (`App.js:547-557`) does not reset the canonical summary, so a
language switch after clearing still translates the old summary.

## Model

| member | source | states |
|---|---|---|
| FrontendApp.GateSpec | frontend/src/App.js:105-109 | A summary is refused exactly when the input is blank or splits on single spaces into fewer than 50 pieces. That is exactly when it has fewer than 49 space characters, however the words are grouped. |
| FrontendApp.SplitSentences | frontend/src/App.js:128-129 | The split yields at least one piece. Every piece but the last is nonempty and ends in `.`, `!` or `?`. No piece holds a sentence end followed by whitespace, so the text is cut at every one. No piece after the first starts with whitespace, so the whole run goes. |
| FrontendApp.SplitSentencesRoundTrip | frontend/src/App.js:128-129 | Putting the removed whitespace runs back between the pieces gives the text again. |
| FrontendApp.SentenceGapsBlank | frontend/src/App.js:128-129 | Every run the split removes is nonempty whitespace. |
| FrontendApp.BulletListSpec | frontend/src/App.js:127-132 | The `textrank` layout has one dashed line per non-blank piece of the split. Each line holds one sentence: nonempty, trimmed at both ends, with no sentence end followed by whitespace inside it, and ending in `.`, `!` or `?` unless it is the last. Together the sentences keep every visible character of the summary, in order. |
| FrontendApp.ProseFormatSpec | frontend/src/App.js:133-138 | The prose layout has no newline, single spaces between words and no whitespace at either end. It keeps every visible character in order and is idempotent. Doubling the newlines first changes nothing. |
| FrontendApp.SettledSpec | frontend/src/App.js:126-160 | A failed request or a `bart` summary under 100 characters shows an error message. The download and narration buttons ignore that message. Everything else is left as it was, the canonical summary included, so a language switch still translates the previous summary. An accepted summary becomes the canonical one, shown in English with progress 100. A `bart` summary has at least 100 characters. A summary not laid out as bullets is one trimmed line. |
| FrontendApp.App.HandleSummarize | frontend/src/App.js:105-117 | A refused input only shows the 50-word message and sends nothing. Otherwise it sends the text with three sentences and the chunking flag, records the method, and shows the pending message at progress 0. |
| FrontendApp.App.SummaryArrived | frontend/src/App.js:118-161 | The page's summary fields become what `Settled` gives for the reply, and loading ends. |
| FrontendApp.App.HandlePdfUpload | frontend/src/App.js:67-79 | No file: nothing happens. A file over 10 MB: only the size message. Any other file is sent and processing starts. |
| FrontendApp.App.PdfArrived | frontend/src/App.js:80-102 | Processing always ends. On success the normalised text becomes the input and the reported language, defaulting to English, becomes all three languages. On failure only the message changes. |
| FrontendApp.App.HandleLanguageChange | frontend/src/App.js:164-187 | The canonical summary is never written. With no usable canonical summary, or for English, the summary is shown at once and nothing is sent. Otherwise the flattened canonical summary is sent for translation into the target, and the page is unchanged until the reply. |
| FrontendApp.App.TranslationArrived | frontend/src/App.js:189-207 | A failed or blank translation shows the canonical summary captured at the press, in English. Otherwise the formatted translation is shown in the target language. |
| FrontendApp.StaleTranslation | frontend/src/App.js:140-153 | After an accepted summary and then a failed one, a switch to Hindi still sends a translation request, and its reply replaces the error message. |
| FrontendApp.TranslationFormatsSpec | frontend/src/App.js:183-198 | The translation payload has no newline and no whitespace at either end, and keeps every visible character the dash removal leaves. The displayed translation has exactly a blank line after every sentence end followed by whitespace, and keeps the visible characters. |
| FrontendApp.PayloadMayKeepDashSpace | frontend/src/App.js:183 | A dash that ends a line survives the dash removal, so the payload of `-`, newline, `B` is `- B`. |
| FrontendApp.App.DownloadSummary | frontend/src/App.js:210-240 | An unusable summary does nothing. Otherwise the speech queue is cancelled, the element in the slot is dropped, and the export request carries the summary (flattened for English `textrank`), the method or `unknown`, the count or 3, and the display language. Elements out of reach play on. |
| FrontendApp.App.ReadSummary | frontend/src/App.js:268-299 | While speaking, a press only stops: the provider chosen by the current display language is stopped and the key is cleared. While idle, it starts narration as `StartNarration` states and keeps the key. |
| FrontendApp.App.StartNarration | frontend/src/App.js:292-299 | Nothing happens when the same text in the same language was last read to the end. Kannada and Hindi send a `/tts` request and change nothing else. Any other language queues an utterance whose key is the text and the language. |
| FrontendApp.App.TtsArrived | frontend/src/App.js:301-338 | A clip puts a playing element carrying the press's key in the slot. The element the slot held, if playing, plays on out of reach, so one more voice sounds. A failure only stops speaking. |
| FrontendApp.App.TtsArrivedPausingPrevious | frontend/src/App.js:301-320 | Corrected clip arrival: the element the slot held is paused first, so the new clip replaces its voice instead of joining it. |
| FrontendApp.App.AudioPlay | frontend/src/App.js:305 | Playback start marks the page as speaking. |
| FrontendApp.App.AudioEnded | frontend/src/App.js:306-311 | The end of an element records the key of its own clip, stops speaking and empties the slot. When a detached element ends, the element in the slot, if playing, goes out of reach. |
| FrontendApp.App.AudioError | frontend/src/App.js:312-317 | A playback error stops speaking and empties the slot without recording a key. A detached element's error affects the slot in the same way. |
| FrontendApp.App.UtteranceStart | frontend/src/App.js:352 | Speech start marks the page as speaking. |
| FrontendApp.App.UtteranceEnded | frontend/src/App.js:353-356 | The end of the utterance being spoken records the key it was queued with, stops speaking, and removes it from the queue. |
| FrontendApp.App.UtteranceError | frontend/src/App.js:357-365 | An interruption and a real error both stop speaking, and neither records a key. A real error removes the failed utterance from the queue. |
| FrontendApp.App.ClearPdf | frontend/src/App.js:547-557 | Clearing resets the input, the languages, the method and the count, and shows the placeholder. |
| FrontendApp.App.EditInput | frontend/src/App.js:622 | Typing replaces the input text. |
| FrontendApp.App.constructor | frontend/src/App.js:13-29 | The initial state of the page. |
| FrontendApp.App.ReadSummaryStoppingBoth | frontend/src/App.js:276-290 | Corrected stop press: it cancels the speech queue and pauses the slot whatever the display language. Only elements out of reach still sound. |
| FrontendApp.TwoVoices | frontend/src/App.js:276-290 | As written, a Hindi narration followed by a switch to English and two presses ends with two voices: the Hindi audio and the browser's speech. |
| FrontendApp.OneVoice | frontend/src/App.js:276-290 | With the corrected stop press, the same presses leave the Hindi audio paused when the browser's speech starts: one voice. |
| FrontendApp.TwoClips | frontend/src/App.js:301-320 | As written, two presses before the first clip arrives give two Hindi clips. One plays on after the corrected stop press. |
| FrontendApp.OneClip | frontend/src/App.js:301-320 | With the corrected clip arrival, the same presses and replies end silent after the stop press. |
| BackendApp.CleanPdfTextSpec | backend/app.py:79 | The cleaned PDF text is single-spaced with no whitespace at either end. It keeps every visible character in order and is idempotent. |
| BackendApp.CleanSummarySpec | backend/app.py:81-91 | The cleaned summary has no whitespace at either end. English gets a blank line after every sentence end and keeps the visible characters left after the `ii` runs go. Kannada keeps only the Kannada block, whitespace and `.!?`. Hindi keeps only the Devanagari block, whitespace and `.!?`. Any other language is only collapsed. |
| BackendApp.Extension | backend/app.py:94 | The extension is the suffix after the last dot and holds no dot. |
| BackendApp.AllowedFileIff | backend/app.py:93-94 | A file name is accepted exactly when it ends in a dot and three characters that lower-case to `pdf`. |
| BackendApp.SummarizeSpec | backend/app.py:142-170 | Only an empty text (400) and a detector error (500) fail. The reported language is supported. The label is `mbart` exactly for Hindi and Kannada. A blank text and an unsupported language are summarised as English. The summary comes from the processor of the reported language, and a Hindi or Kannada one is an error or has 10 visible characters. |
| BackendApp.TranslateSpec | backend/app.py:172-201 | The route succeeds exactly when the text is a visible string, both languages are supported, and the languages are equal or the translation is visible. The checks run in the source's order. The same language returns the text without calling the translator. Otherwise the reply is the stripped, nonempty translation. |
| BackendApp.TtsService.Tts | backend/app.py:203-247 | One request answers as the route does and leaves the cache as the route leaves it. |
| BackendApp.TtsCacheGrows | backend/app.py:215-237 | No cache entry is changed or removed. The only entry added is the request's key, and only for a synthesised Kannada or Hindi reply. |
| BackendApp.TtsHit | backend/app.py:215-222 | A cached request is answered with the stored audio, whatever synthesis would do. |
| BackendApp.TtsRepeat | backend/app.py:215-237 | Repeating a request that got audio gives the same audio and the same cache. |
| BackendApp.TtsEnglish | backend/app.py:244-245 | English is never synthesised: without a cache hit it is refused with 400. |
| BackendApp.FontForSpec | backend/app.py:268-270 | The body font is registered or is Helvetica. It is the script's font whenever that font is registered. |
| BackendApp.BuildLines | backend/app.py:284-288 | The loop yields each newline-separated paragraph's wrapped lines followed by one blank entry. |
| BackendApp.LinesBlanks | backend/app.py:284-288 | When the wrapper yields no blank line, there are exactly as many blank entries as paragraphs, and the last entry is blank. |
| BackendApp.LayOutLines | backend/app.py:290-299 | The drawing loop places lines as the per-entry step does. |
| BackendApp.LayoutGeometry | backend/app.py:290-299 | Every drawn line lies between the margins. Pages are used in order. On a page each line is at least one line height below the previous one, and a new page starts at the top. |
| BackendApp.LayoutTexts | backend/app.py:290-299 | Every nonempty entry is drawn, in order, and nothing else. |
| BackendApp.DownloadSummary | backend/app.py:249-310 | An empty summary is refused with 400. Otherwise the document is named after the method and language and uses the chosen font with the laid-out lines. |
| EnglishChunker.Pack | backend/english_chunker.py:46-64 | The packing loop yields the joined sentence groups that the greedy step defines. |
| EnglishChunker.PackPrefixInv | backend/english_chunker.py:50-61 | After each sentence the closed and current chunks hold the sentences read so far, in order. No chunk is empty, and the running count is the current chunk's total, within the budget. |
| EnglishChunker.GroupsSpec | backend/english_chunker.py:50-64 | The chunks lose, duplicate and reorder no sentence. None is empty, and a chunk of several sentences is within the budget. |
| EnglishChunker.ChunksStable | backend/english_chunker.py:50-61 | Reading more sentences only appends chunks. |
| EnglishChunker.OverflowIsSingleton | backend/english_chunker.py:52-58 | A sentence that does not fit beside the current chunk first closes that chunk, when it has sentences. It is then the next chunk on its own, even when it would fit in an empty one. The chunks before it hold exactly the sentences before it. |
| EnglishChunker.FittingIsOneChunk | backend/english_chunker.py:50-61 | Sentences whose total fits the budget stay together in one chunk. |
| EnglishChunker.Attempts | backend/english_chunker.py:68-75 | There is one pipeline call per chunk, in order, with lengths (150, 50). |
| EnglishChunker.SummarizeChunks | backend/english_chunker.py:67-79 | The loop keeps the successful chunk summaries in order, empty ones included. |
| EnglishChunker.ProcessText | backend/english_chunker.py:20-81 | The method returns the result `Outcome` defines. |
| EnglishChunker.OutcomeSpec | backend/english_chunker.py:26-81 | An empty text is refused. A text within the budget depends only on the single whole-text call. A text over it gives `No summaries generated` exactly when every chunk's call raised, and otherwise the space-join of the successes. |
| EnglishChunker.ChunkedResult | backend/english_chunker.py:67-81 | No summary survives exactly when every chunk's call raised. Every successful summary is included. |
| HindiChunker.FallbackEstimate | backend/hindi_chunker_translator.py:18-29 | Without a tokenizer, or when it raises, the estimate is twice the number of words. It is 0 exactly for a blank text. |
| HindiChunker.FallbackEstimateCollapse | backend/hindi_chunker_translator.py:20-22 | The fallback estimate ignores how the words are spaced. |
| HindiChunker.PackPrefixInv | backend/hindi_chunker_translator.py:38-51 | After each sentence the chunks hold the sentences read so far, in order. No chunk is empty, and the current chunk's count is its total. |
| HindiChunker.GroupsSpec | backend/hindi_chunker_translator.py:38-56 | The chunks preserve all sentences in order. Each is one sentence or within the budget. |
| HindiChunker.CurrentHeadKept | backend/hindi_chunker_translator.py:40-51 | The first sentence of an open chunk stays the first sentence of that chunk however many sentences follow. |
| HindiChunker.OverflowStartsNext | backend/hindi_chunker_translator.py:41-44 | With a nonempty current chunk, an overflowing sentence closes it and starts the next chunk. |
| HindiChunker.OverflowAloneWhenEmpty | backend/hindi_chunker_translator.py:45-48 | With an empty current chunk, an overflowing sentence is the next chunk, on its own. The chunks before it hold exactly the sentences before it. |
| HindiChunker.ChunksStable | backend/hindi_chunker_translator.py:38-51 | For the Hindi packer, whose overflow carries the sentence into the next chunk, reading more sentences never changes a chunk already closed. |
| HindiChunker.ChunkText | backend/hindi_chunker_translator.py:31-56 | The loop yields the joined groups of the greedy step over the estimated token counts. |
| HindiChunker.Attempts | backend/hindi_chunker_translator.py:108-119 | There is one summariser call per chunk, without chunking. A chunk counts exactly when its summary is present and nonempty. |
| HindiChunker.SummarizeChunks | backend/hindi_chunker_translator.py:106-119 | The loop keeps the present, nonempty summaries in order. |
| HindiChunker.ProcessText | backend/hindi_chunker_translator.py:81-135 | A blank input, a detector error and a non-Hindi text give their messages. Otherwise a blank join gives `No valid summaries generated`, and anything else is the joined summary with `hi`, the number of chunks and the method. |
| HindiChunker.ResponseShape | backend/hindi_chunker_translator.py:98-124 | An estimate of at most 1000 gives exactly one chunk, the text. No summary survives exactly when every call gave none or an empty one. |
| HindiChunker.LongTextChunks | backend/hindi_chunker_translator.py:98-101 | Over 1000 the text is packed with a budget of 500, and the chunks cover its sentences in order. |
| PackerContrast.OverflowPolicies | backend/hindi_chunker_translator.py:40-48 | On the same three sentences the English packer makes three chunks and the Hindi one two: they differ on overflow. |
| SentenceSummarizer.Attempts | backend/chunker_translator.py:42-49 | There is one pipeline call per sentence, in order, with lengths (80, 20). |
| SentenceSummarizer.ProcessText | backend/chunker_translator.py:21-63 | An empty text is refused. Otherwise the method returns the space-join of the summaries, or `No summaries generated.` when that join is empty. |
| SentenceSummarizer.SummariesSpec | backend/chunker_translator.py:35-63 | Only sentences within the budget are summarised. There is at most one summary per sentence. The join is empty exactly when every attempted call raised or the only summary is empty. |
| SentenceSummarizer.SummaryIncluded | backend/chunker_translator.py:35-55 | Every fitting sentence whose call succeeds contributes its summary. |
| IndicTranslation.TranslateToEnglish | backend/hindi_processor.py:15-68 | The method returns the translation `Translation` defines. The Kannada function behaves identically. It differs only in a redundant blank-check and its log messages. |
| IndicTranslation.TranslateSentences | backend/hindi_processor.py:51-60 | The sentence loop yields the kept translations, or the first error. |
| IndicTranslation.KeptStep | backend/hindi_processor.py:53-59 | A raised call aborts. A translation with 5 visible characters is appended. Any other is dropped. |
| IndicTranslation.KeptFailureStays | backend/hindi_processor.py:53-55 | Once a call has raised, later sentences change nothing. |
| IndicTranslation.KeptFailsIff | backend/hindi_processor.py:53-59 | The sentence pass succeeds exactly when no translator call raises. |
| IndicTranslation.KeptUsable | backend/hindi_processor.py:56-57 | Every kept translation has at least 5 visible characters, and there are no more than the sentences. |
| IndicTranslation.KeptComplete | backend/hindi_processor.py:56-57 | Every usable sentence translation is kept. |
| IndicTranslation.ErrorMessages | backend/hindi_processor.py:28-68 | Every message of the translate function begins with `Error`. |
| IndicTranslation.TranslationVerdict | backend/hindi_processor.py:39-64 | The translation is an error or has 10 visible characters. On the sentence path it has 20. |
| HindiProcessor.PaddedSpec | backend/hindi_processor.py:93-95 | The padded translation has at least 20 characters, begins with the translation, and keeps 10 visible characters when the translation has them. |
| HindiProcessor.ProcessVerdict | backend/hindi_processor.py:70-111 | The result is an error message or has at least 10 visible characters. |
| HindiProcessor.ProcessLadder | backend/hindi_processor.py:70-111 | Blank input, a detector error and non-Hindi input give their messages. An error translation is returned unchanged. Otherwise the summary is returned when it has 10 visible characters, and the padded translation when it does not. |
| KannadaProcessor.PaddedSpec | backend/kannada_processor.py:90-93 | The translation is stripped before padding. The result has at least 20 characters, is trimmed, and begins with the stripped translation. |
| KannadaProcessor.ProcessVerdict | backend/kannada_processor.py:68-109 | The result is an error message or has at least 10 visible characters. |
| KannadaProcessor.ProcessLadder | backend/kannada_processor.py:68-109 | The same ladder as Hindi, for `kn`, with the fallback being the stripped, padded translation. |
| KannadaProcessor.PaddingContrast | backend/kannada_processor.py:90-93 | A translation with a leading space is padded by the Kannada processor and left alone by the Hindi one. |
| Text.StripSpec | backend/app.py:91 | `strip()` is empty exactly for a blank text. Otherwise it starts and ends visibly, and it keeps the visible characters. |
| Text.CollapseSpec | backend/app.py:79 | Joining the words with single spaces is collapsed, keeps the visible characters and is idempotent. |
| Text.SplitOnSpec | frontend/src/App.js:106 | Joining the pieces of `split(' ')` gives back the text, and there is one piece more than the spaces. |
| Text.ReflowBreaks | backend/app.py:86 | After the rewrite every sentence end followed by whitespace is followed by exactly two newlines and then a visible character or the end. |
| Text.ReflowContent | backend/app.py:86 | The rewrite keeps the visible characters. |
| Text.SquashSpec | frontend/src/App.js:136 | After the `/\s+/` rule no two whitespace characters are adjacent. |
| Text.DeleteIRunsSpec | backend/app.py:82 | After the deletion no two `i` are adjacent, and every other character survives in order. An `i` is deleted exactly when an `i` stands beside it, so a lone `i` stays and a text without runs is unchanged. |
| Text.KeepIf | backend/app.py:88-90 | A character is in the result exactly when it is in `s` and in the class. The result is no longer than `s`, and `s` is returned unchanged when all of it is in the class. |
| Text.KeepIfAppend | backend/app.py:88-90 | The filter distributes over concatenation. With `KeepIfOne` this makes the result the class characters of `s`, in order and with their multiplicity. |
| Text.KeepIfOne | backend/app.py:88-90 | A single character is kept exactly when it is in the class. |
| Text.NewlinesToSpaces | frontend/src/App.js:183 | Every newline becomes a space and nothing else changes. |
| Text.NewlinesToSpacesContent | frontend/src/App.js:183 | Turning newlines into spaces keeps every visible character. |

## Left out

- Rendering, theme and fonts of `App.js`, the Blob and anchor download mechanics, `alert` and console output are not modelled.
- The reply events take the values their handler captured at the press as parameters: the method, the canonical summary, and the text and language of a clip. Which pending request a reply answers is not tracked.
- The browser's speech queue is the list of its utterances' keys. An audio element is its key and whether it plays. A playing element that the slot no longer holds is only its key in `detached`. A paused element that leaves the slot is forgotten, since nothing plays it again.
- `AudioEnded` and `AudioError` require that their element is playing, and `UtteranceEnded` that an utterance is queued: a callback runs only for an element or utterance that exists.
- An element plays from the moment `play()` is called. A `play()` that the browser refuses is not modelled, and neither is how a browser goes on with its speech queue after an error.
- Non-string JSON values are modelled only where a route tests for them (`/translate`). Elsewhere inputs are strings.
- Exceptions from tokenizers and sentence splitters are not modelled, except where `estimate_tokens` catches them.
- Whitespace is the six ASCII whitespace characters. Unicode whitespace, JavaScript's UTF-16 lengths and case folding beyond ASCII are not modelled.
- `process_pdf`, the upload route, is not modelled apart from `clean_pdf_text`. The markup-stripping regular expressions of `clean_pdf_text` and the page-footer pattern of `clean_summary_text` are left out.
- md5, speech synthesis, reportlab's wrapping and canvas, and font registration are parameters. Page drawing is the list of placed lines.
- A translator that returns `None` is modelled as returning the empty string.
- The front end reads `original_language`, `num_sentences` and `translated_text` from the `/summarize` reply, but the back end sends `language` and `method`. Each side is modelled as written, as optional fields.
- The only summarise button calls `handleSummarize('bart', true)`, so the `textrank` layout is reachable only through that handler's parameter.
- FrontendApp.TranslationFormatsSpec: proves the payload has no newline but not that it has no `- `. PayloadMayKeepDashSpace shows that a dash at a line end survives.
- EnglishChunker.SummarizeChunks: keeps empty chunk summaries, as the source does. The Hindi chunker drops them.

## Findings

| source | as written | input that shows it | evidently intended | confidence | as-written member | corrected member |
|---|---|---|---|---|---|---|
| frontend/src/App.js:276-290 | A press while speaking stops only the provider of the current display language. | A summary shown in Hindi, its audio playing. Switch the display to English and press the read button: only the browser's speech, which is silent, is cancelled, and the Hindi audio plays on. Press again: the browser's speech starts over the audio. | A stop press silences both providers. | not executed | FrontendApp.TwoVoices | FrontendApp.App.ReadSummaryStoppingBoth |
| frontend/src/App.js:318 | `playAudio` puts the new element in `window.currentAudio` without pausing the one already there. | A summary shown in Hindi. Press the read button twice before the first clip arrives: both presses send `/tts`, since the page is not speaking yet. When both clips arrive, both play, and the first is no longer in the slot, so no stop press or download can pause it. | The previous element is paused before it is replaced. | not executed | FrontendApp.TwoClips | FrontendApp.App.TtsArrivedPausingPrevious |
