# VoiceChat core, modelled in Dafny

VoiceChat is a spoken language tutor for French speakers learning Russian and
Russian speakers learning French. A turn goes like this:

1. The learner's recording is transcribed.
2. A language model writes a bilingual lesson as a list of segments, each tagged `fr` or `ru`.
3. The segments are spoken back by a speech synthesiser.
4. The exercise sentence of the turn is remembered, so the next recording can be scored against it.

This project models the logic around those calls and proves what it guarantees:

- **`PyText`**: the Python string operations the core relies on.
  - `str.isspace`, `str.strip`, `str.find` and `str.rfind`, and the `in` test on strings.
  - The per-script character counts used by the language detectors.
- **`Values`**: three small values shared by the other modules.
  - `Option`.
  - `Call`, the outcome of a collaborator call that either returns or raises.
  - `RawSegment`, a segment dictionary whose `lang` and `text` keys may be missing.
- **`LanguageValidation`** (`test_language_validation.py`):
  - the ratio-and-keyword French/Russian detector;
  - `validate_segment_languages`, the loop that drops blank segments, strips the others and re-tags each one with the detected language.
- **`ImprovedDetection`** (`test_improved_detection.py`): the second detector. It answers `ru` exactly when some character lies in U+0400–U+04FF. Its keyword and pattern scores never change the answer.
- **`SpeechCleaning`** (`test_improved_detection.py`): `clean_text_for_speech`.
  - Each `re.sub` of the chain is one left-to-right scan (`Sub`), driven by a function that says where that regular expression matches at a position and what replaces the match.
  - Markdown, bullets, list numbers, parenthesised remarks, metadata labels, backticks and whitespace runs are rewritten in the source's order.
- **`Services`** (`services.py`):
  - the join-and-strip of the speech recogniser's segments;
  - the apology returned when the chat call fails;
  - the prompt chosen by `source_lang` and the `[system, user]` message list;
  - the slice from the first `{` to the last `}` and its fallback reply;
  - the voice chosen for synthesis.
- **`ChatTurn`** (`main.py`): `chat_endpoint`.
  - `Turn` is the decision function of one request.
  - The class `ChatServer` holds the module-level `session_context` dictionary and the set of files on disk. Its method `ChatEndpoint` runs the request step by step, is proved equal to `Turn`, and removes the temporary upload on every path.

The speech recogniser, the lesson generator, the two pronunciation scorers, the
speech synthesiser, the HTTP chat call and `json.loads` are collaborators. Each
is a function parameter that returns a value or raises with a message.

## Model

| member | source | states |
|---|---|---|
| PyText.Strip | test_language_validation.py:39 | `strip()` returns a contiguous slice with only whitespace cut at both ends; its ends are not whitespace; it is never longer than the input |
| PyText.StripIdempotent | test_language_validation.py:39 | stripping twice is stripping once |
| PyText.StripEmptyIff | services.py:24 | the stripped text is empty exactly when every character is whitespace |
| PyText.ContainsIff | test_language_validation.py:17 | Python's substring `in` holds exactly when the needle occurs at some position |
| PyText.Find | services.py:82 | `find` gives -1 exactly when the character is absent, else its first position |
| PyText.RFind | services.py:83 | `rfind` gives -1 exactly when the character is absent, else its last position |
| PyText.CountScripts | test_language_validation.py:11-13 | the Cyrillic and non-Cyrillic alphabetic counts together never exceed the length; the Cyrillic count is 0 exactly when no character is in U+0400–U+04FF |
| PyText.CountScriptsConcat | test_language_validation.py:11-13 | both counts of a concatenation are the sums of the counts of its parts |
| PyText.HasCyrillicConcat | test_improved_detection.py:19-24 | a concatenation holds a Cyrillic character exactly when one of its parts does |
| LanguageValidation.WholeWordHits | test_language_validation.py:17 | at most one hit per keyword, and none exactly when no keyword occurs between spaces in the padded text |
| LanguageValidation.SubstringHits | test_language_validation.py:21 | at most one hit per keyword, and none exactly when no keyword is a substring of the text |
| LanguageValidation.DetectTextLanguage | test_language_validation.py:6-29 | the first detector answers only `fr` or `ru` |
| LanguageValidation.CyrillicMajorityIsRussian | test_language_validation.py:24-25 | when the Cyrillic count exceeds 0.3 times the Latin count, the answer is `ru` whatever the keyword scores |
| PyText.WholeWordIff | test_language_validation.py:17 | a French keyword counts exactly when it occurs in the text as a whole word delimited by spaces or the text's ends |
| LanguageValidation.NoCyrillicNoHits | test_language_validation.py:20-21 | no Russian keyword is a substring of a text without Cyrillic characters |
| LanguageValidation.NoCyrillicIsFrench | test_language_validation.py:20-29 | a text without Cyrillic characters, the empty text included, is classified `fr` |
| LanguageValidation.CyrillicLettersAreRussian | test_language_validation.py:11-13 | a text with a Cyrillic character and no other alphabetic character is classified `ru` |
| LanguageValidation.Step | test_language_validation.py:38-52 | one iteration drops the segment exactly when its stripped text is empty, and otherwise keeps the stripped text tagged with the detected language |
| LanguageValidation.ValidatedBy | test_language_validation.py:37-52 | every output segment has non-empty stripped text and the detector's language for it; the output is no longer than the input |
| LanguageValidation.Validated | test_language_validation.py:31-54 | the same with the first detector: each output tag is the detected language, whatever the incoming tag was |
| LanguageValidation.ValidateSegmentLanguages | test_language_validation.py:31-54 | the loop computes exactly `Validated(segments)` |
| LanguageValidation.ValidatedSnoc | test_language_validation.py:37-52 | validating a longer list appends the last segment's outcome to the earlier result |
| LanguageValidation.KeptIndicesExact | test_language_validation.py:41-42 | the kept positions are increasing and are exactly the segments whose stripped text is non-empty |
| LanguageValidation.ValidatedKeepsNonBlankInOrder | test_language_validation.py:37-52 | the output has one segment per kept position, in order, each carrying that segment's stripped text |
| LanguageValidation.ValidateIdempotent | test_language_validation.py:31-54 | validating the output of validation returns it unchanged |
| LanguageValidation.StepOfValidated | test_language_validation.py:38-52 | an already validated segment passes through one loop iteration unchanged |
| LanguageValidation.RussianTaggedFrenchIsCorrected | test_language_validation.py:88-91 | the Russian greeting tagged `fr` becomes `ru`; the French sentence keeps `fr` |
| LanguageValidation.FrenchTaggedRussianIsCorrected | test_language_validation.py:61-62 | the French sentence tagged `ru` becomes `fr` |
| ImprovedDetection.KeywordPoints | test_improved_detection.py:37-39 | a keyword scores only 0 or 2, and 2 exactly when it stands in the lowered text as a whole word, with a space or the text's end on each side; the 1-point edge branches can never be reached |
| ImprovedDetection.KeywordScore | test_improved_detection.py:36-39 | the keyword score is even, at most 2 per keyword, and 0 exactly when no keyword stands in the text as a whole word |
| ImprovedDetection.PatternScore | test_improved_detection.py:42-43 | the pattern score is a multiple of 3, at most 3 per pattern, and 0 exactly when no pattern occurs in the text |
| ImprovedDetection.Decide | test_improved_detection.py:49-58 | the early-return chain answers `fr` or `ru`, and `ru` exactly when a Cyrillic character was counted |
| ImprovedDetection.DetectTextLanguage | test_improved_detection.py:7-58 | the second detector answers `ru` exactly when the text holds a character in U+0400–U+04FF, and `fr` otherwise |
| ImprovedDetection.ScoreNeverDecides | test_improved_detection.py:49-58 | the French score has no effect on the decision |
| ImprovedDetection.EmptyIsFrench | test_improved_detection.py:58 | the empty text is `fr` |
| ImprovedDetection.PrivetIsRussian | test_improved_detection.py:100 | `"Привет"` is `ru` |
| ImprovedDetection.GreetingIsRussian | test_improved_detection.py:101 | `"Здравствуйте как дела"` is `ru` |
| ImprovedDetection.DitOnIsFrench | test_improved_detection.py:98 | `"Comment dit-on bonjour"` is `fr` |
| ImprovedDetection.ApostrophesAreFrench | test_improved_detection.py:104 | `"qu'est-ce que c'est"` is `fr` |
| SpeechCleaning.BoldAt | test_improved_detection.py:65 | a bold match opens with `**`, closes with the first `**` after a non-empty run without `*`, and is replaced by that run, which holds no `*` |
| SpeechCleaning.DelimitedSpanMatches | test_improved_detection.py:65-67 | conversely, wherever such a delimited span starts, the pattern matches exactly that span and replaces it by its inside |
| SpeechCleaning.ItalicAt | test_improved_detection.py:66 | an italic match opens with `*`, closes with the next `*` after a non-empty run without `*` (a newline included), and is replaced by that run |
| SpeechCleaning.CodeAt | test_improved_detection.py:67 | an inline-code match opens with a backtick, closes with the next backtick after a non-empty run without one, and is replaced by that run |
| SpeechCleaning.HeaderAt | test_improved_detection.py:68 | a header matches exactly where a `#` stands; the match takes the whole run of `#` and the whitespace after it, and is deleted |
| SpeechCleaning.BulletAt | test_improved_detection.py:71 | a bullet matches exactly at a line start whose optional whitespace is followed by a bullet character and at least one whitespace character; the match ends after that whitespace run and is deleted |
| SpeechCleaning.NumberAt | test_improved_detection.py:72 | a list-number match starts a line, then has optional whitespace, at least one digit, the dot and at least one whitespace character; it ends right after that whitespace run and is deleted |
| SpeechCleaning.ParenthesesAt | test_improved_detection.py:75 | a remark match runs from `(` to the first `)` after it and is deleted |
| SpeechCleaning.MetadataAt | test_improved_detection.py:78 | a label match starts at a word boundary with one of the five labels, ignoring case, and is deleted |
| SpeechCleaning.MetadataMatchShape | test_improved_detection.py:78 | after the label come optional whitespace and a colon, and the match ends after the whitespace that follows the colon |
| SpeechCleaning.WhitespaceAt | test_improved_detection.py:84 | a whitespace run is replaced by exactly one space |
| SpeechCleaning.BlankLineAt | test_improved_detection.py:87 | a blank line matches exactly at a newline whose following whitespace run holds another newline; the match is all whitespace, ends on the run's last newline, and becomes `". "` |
| SpeechCleaning.Sub | test_improved_detection.py:65-87 | one `re.sub` scan never lengthens the text; SpeechCleaning.SubUnchanged states that a text where the pattern finds nothing comes back unchanged |
| SpeechCleaning.SubUnchanged | test_improved_detection.py:65-87 | a text in which every position is left alone by the pattern is returned unchanged |
| SpeechCleaning.Emphasis | test_improved_detection.py:65-67 | the three emphasis rewrites never lengthen the text; SpeechCleaning.EmphasisAbsent states they change nothing without `*` and backticks |
| SpeechCleaning.EmphasisAbsent | test_improved_detection.py:65-67 | without `*` and backticks lines 65-67 change nothing |
| SpeechCleaning.Structure | test_improved_detection.py:68-75 | the header, bullet, number and remark rewrites never lengthen the text; SpeechCleaning.StructureAbsent states they change nothing without their trigger characters |
| SpeechCleaning.StructureAbsent | test_improved_detection.py:68-75 | without `#`, `-`, `*`, `•`, `.` and `(` lines 68-75 change nothing |
| SpeechCleaning.Labels | test_improved_detection.py:78 | the label rewrite never lengthens the text; SpeechCleaning.LabelsAbsent states it changes nothing without `:` |
| SpeechCleaning.LabelsAbsent | test_improved_detection.py:78 | without `:` line 78 changes nothing |
| SpeechCleaning.Flatten | test_improved_detection.py:81-84 | after the backtick removal and the collapse no backtick is left, and only single spaces separate the words |
| SpeechCleaning.DeleteChar | test_improved_detection.py:81 | removing a character leaves no copy of it and keeps every other character |
| SpeechCleaning.CleanTextForSpeech | test_improved_detection.py:60-90 | the cleaned text has no whitespace at either end, no backtick and no newline, and only single spaces between words |
| SpeechCleaning.WhitespaceCollapses | test_improved_detection.py:84 | after the collapse, no whitespace other than single spaces is left and no two are adjacent |
| SpeechCleaning.NewlineStepsAreNoOps | test_improved_detection.py:84-88 | the blank-line rewrite and the newline replacement change nothing after the collapse |
| SpeechCleaning.CleanIsStripOfFlatten | test_improved_detection.py:60-90 | cleaning is the markup steps, the backtick removal, the collapse and `strip` |
| SpeechCleaning.FlattenBacktickFree | test_improved_detection.py:81-84 | on a text without backticks, lines 81-84 are the whitespace collapse alone |
| SpeechCleaning.CleanOfPlain | test_improved_detection.py:60-90 | a text that the markup steps leave tidy and backtick-free is returned as it is |
| SpeechCleaning.CleanBold | test_improved_detection.py:132 | `"**Niveau A2**"` is cleaned to `"Niveau A2"` |
| SpeechCleaning.CleanCode | test_improved_detection.py:133 | ``"Répétez: `Здравствуйте`"`` is cleaned to `"Répétez: Здравствуйте"` |
| SpeechCleaning.CleanBlankLine | test_improved_detection.py:134 | `"Bienvenue !\n\nJe détecte"` is cleaned to `"Bienvenue ! Je détecte"` |
| SpeechCleaning.CleanLabel | test_improved_detection.py:135 | ``"Langue: `fr`"`` is cleaned to `"fr"` |
| SpeechCleaning.CleanRemark | test_improved_detection.py:136 | `"(ceci est un exemple)"` is cleaned to `""` |
| SpeechCleaning.EmphasisBetweenStars | test_improved_detection.py:65-66 | in `*a*b` with no markup character in `a` or `b`, bold finds nothing and italic pairs the two stars, leaving `ab` |
| SpeechCleaning.CleanStarListText | test_improved_detection.py:60-90 | two tidy items each behind `* `, separated by a newline, are cleaned to the two items joined by one space: the italic rule pairs the two bullet stars across the newline before the bullet rule runs |
| SpeechCleaning.CleanList | test_improved_detection.py:138 | `"* Item 1\n* Item 2"` is cleaned to `"Item 1 Item 2"` |
| Services.Join | services.py:23 | the joined text is empty exactly when every segment text is, and is at least as long as the last segment |
| Services.Transcribe | services.py:21-24 | the transcription is a contiguous slice of the joined segment texts with only whitespace cut at both ends; its ends are not whitespace |
| Services.JoinAllSpace | services.py:23 | the joined text is all whitespace exactly when every segment is |
| Services.TranscribeEmptyIff | services.py:21-24 | the transcription is empty exactly when every recognised segment is whitespace only |
| Services.ChatResult | services.py:31-43 | a successful call gives the model's content; any failure gives the fixed apology |
| Services.ApologyHasNoBrace | services.py:43 | the apology contains no `{` |
| Services.LearnedLanguage | services.py:52-69 | the learned language is Russian exactly when `source_lang` is `"fr"`, and French for every other value |
| Services.LearnerPrompt | services.py:53-67 | the system prompt opens with the fixed opening and the learned language, and names that language three times in an otherwise fixed text |
| Services.BuildMessages | services.py:52-74 | exactly two messages, system then user; the system prompt is the learner prompt for the learned language; the user message is the fixed introduction followed by the user's text |
| Services.PromptNamesLearnedLanguage | services.py:53-68 | the prompt opens by naming Russian for `source_lang == "fr"` and French otherwise |
| Services.PromptsDiffer | services.py:52-69 | the two branches give different system prompts and different user messages |
| Services.UserTextRecoverable | services.py:60-69 | dropping the fixed introduction from the user message gives back the user's text |
| Services.JsonSpan | services.py:82-85 | there is no span exactly when the content has no `{`; a non-empty span starts with `{` and ends with `}` |
| Services.SpanIsOutermost | services.py:82-85 | when a `}` follows the first `{`, the span is the contiguous slice from the first `{` to the last `}`, with no `{` before it and no `}` after it |
| Services.SpanEmptyIff | services.py:83-85 | with a `{` present the guard always passes, and the span is empty exactly when no `}` follows the first `{` |
| Services.ParseReply | services.py:80-90 | the reply is decoded exactly when there is a `{` and the span decodes, and then carries what the decoder returned for the span; otherwise it is the fallback carrying the whole content and an empty response |
| Services.CorrectAndRespond | services.py:45-90 | a failed chat call gives the fallback with the apology; otherwise the reply is decoded exactly when the model's answer has a `{` and its span decodes, and else falls back with the whole answer |
| Services.NoBraceFallsBack | services.py:84-88 | content without `{` gives the fallback |
| Services.EmptySpanFallsBack | services.py:85-90 | an empty span that fails to decode gives the fallback |
| Services.WrappedObjectDecoded | services.py:82-86 | an object surrounded by text without braces is cut out exactly and handed to the decoder |
| Services.FencedFixtureDecoded | verify_bilingual.py:45-58 | the Markdown-fenced object is cut out exactly, fences and preamble excluded |
| Services.Voice | services.py:95 | `"fr"` gets the French voice; every other language gets the Russian one |
| ChatTurn.FirstIn | main.py:116-120 | the position of the first segment tagged with the target language; no earlier segment has that tag |
| ChatTurn.FirstExercise | main.py:116-120 | the exercise is the text of the first segment tagged with the target language, and none when no segment has that tag |
| ChatTurn.SelectLastExercise | main.py:116-120 | the loop with `break` yields the first target-language segment's text, or none |
| ChatTurn.LaterSegmentsIgnored | main.py:117-120 | segments after the first match do not change the exercise |
| ChatTurn.NoTargetSegmentNoExercise | main.py:116-120 | without a target-language segment there is no exercise |
| ChatTurn.Remember | main.py:122-126 | the session's entry is set exactly when the exercise is non-empty; otherwise the context is unchanged |
| ChatTurn.Reported | main.py:97-103 | an available detailed report becomes the detailed pronunciation with its score, words, prosody and transcription; an unavailable one gives none |
| ChatTurn.Score | main.py:84-113 | no scorer is consulted unless an exercise in the target language is remembered for the session; then a detailed report gives the detailed pronunciation when available and none otherwise, a raising detailed scorer gives the basic scorer's score and feedback, and scoring raises exactly when both raise, with the basic scorer's message |
| ChatTurn.Turn | main.py:56-150 | a failure is 400 or 500 and a 400 leaves the context unchanged; a lesson carries a non-empty transcription and non-empty segments, and the context after it is the first target-language exercise remembered |
| ChatTurn.EmptyTranscriptRejected | main.py:69-70 | an empty transcription gives 400 "Aucune parole détectée" with the context unchanged, and no later collaborator matters |
| ChatTurn.SilenceRejected | main.py:65-70 | a recording whose segments are all whitespace is rejected with 400 |
| ChatTurn.NoSegmentsRejected | main.py:77-81 | an empty lesson gives 500 "Erreur génération réponse" with the context unchanged, and synthesis and scoring do not matter |
| ChatTurn.ContextWriteConfined | main.py:122-126 | a turn touches no other session's entry; its own entry is unchanged or set to a non-empty exercise in the target language |
| ChatTurn.ContextWrittenIff | main.py:115-126 | once scoring has passed, the context is written exactly when the first target-language segment has non-empty text |
| ChatTurn.TurnKeepsRemembered | main.py:122-126 | every remembered exercise stays non-empty |
| ChatTurn.PronunciationNeedsContext | main.py:86-144 | a lesson carries a pronunciation only if the session had an exercise remembered in the target language |
| ChatTurn.FreshSessionNoPronunciation | main.py:53-88 | for a session id not in the context, the lesson has no pronunciation and the scorers are never consulted |
| ChatTurn.LessonShape | main.py:98-146 | a lesson carries the non-empty transcription, the non-empty generated segments, the synthesised files and the pronunciation scoring produced for that transcription |
| ChatTurn.FailuresAre500 | main.py:148-150 | a failed save or transcription gives 500 carrying the exception's message |
| ChatTurn.LessonFailureIs500 | main.py:74-150 | a lesson generator that raises gives 500 carrying its message, with the context unchanged |
| ChatTurn.ScoringFailureIs500 | main.py:90-150 | when both scorers raise, the turn is 500 carrying the basic scorer's message, with the context unchanged |
| ChatTurn.SynthesisFailureIs500 | main.py:122-150 | a synthesiser that raises gives 500 carrying its message, and the exercise remembered at lines 122-126 stays |
| ChatTurn.TempPath | main.py:54 | the path is `temp_uploads/`, the session id, `_` and the file name, each recoverable at its place |
| ChatTurn.TempPathSeparatesSessions | main.py:54 | for session ids of equal length, two uploads share a temporary path exactly when session id and file name both agree |
| ChatTurn.StatusCodes | main.py:69-150 | failures are 400 or 500; 400 happens exactly for the empty transcription |
| ChatTurn.ChatServer.constructor | main.py:31 | the session context starts empty |
| ChatTurn.ChatServer.Respond | main.py:57-150 | the step-by-step body yields the response and the new context of `Turn`, and keeps remembered exercises non-empty |
| ChatTurn.ChatServer.ChatEndpoint | main.py:53-154 | the same as `Respond` for the temporary path, and the temporary upload is gone after every path |

## Left out

- Character classes are approximated.
  - `str.isalpha` and the regex class `\w` cover ASCII, Latin-1, Latin Extended-A/B and Cyrillic letters only. `\d` covers the ASCII digits only.
  - `str.lower` and IGNORECASE folding lower only `A`-`Z`, the Latin-1 capitals U+00C0-U+00DE (U+00D7 excepted) and the Cyrillic capitals U+0400-U+042F.
  - Every other character is left as it is. That includes the Latin Extended capitals (`Ā`, `Ǆ`), the Cyrillic capitals from U+0460 up (`Ѡ`), and `İ`, which Python lowers to two characters.
  - Every keyword and label the core compares against is written in the covered characters.
  - `str.isspace` and the regex `\s` use the exact set of characters Python treats as whitespace.
- LanguageValidation.DetectTextLanguage compares `10 * cyrillic > 3 * latin` instead of the floating-point `cyrillic > latin * 0.3`. The two agree for all counts below about 10^15.
- `PyText.CountScripts` counts the same characters as lines 11-13 under the approximation of `isalpha` above.
- STTService, LLMService and TTSService hold a loaded model, a base URL and a model name. Those fields are not modelled: they only feed the collaborator calls.
- The HTTP call in `LLMService.chat`, the Whisper model and `edge_tts` are not modelled. Each is a function parameter that returns or raises.
- `json.loads` is not modelled. It is an abstract `decode` that returns a value or fails.
- Services.FencedFixtureDecoded is stated for any field text between the braces, not for the fixture's exact field lines.
  - It proves the extraction only. That the decoder then yields the fixture's `correction` and `explanation` values is left to `json.loads`.
- Lines 37-38 of `verify_bilingual.py` are not modelled, because `services.py` cannot satisfy them.
  - The call at line 24 passes `source_lang="ru"`, so the prompt is the one of lines 62-64: "apprend le Français. Il va te parler en Français".
  - That prompt contains neither `"parle Français"` (line 37) nor `"apprend le Russe"` (line 38).
  - The `"fr"` prompt of lines 53-55 does not contain `"parle Français"` either.
  - Services.PromptNamesLearnedLanguage states what the code does.
- The cleaning fixtures at `test_improved_detection.py:137` and `test_improved_detection.py:139` are not stated. The test only prints a warning for a mismatch, and the code does not produce those expected strings: `"## Titre\nContenu"` gives `"Titre Contenu"`, and the label pattern does not match `"Segment 1:"`. The fixture at line 138 does hold and is SpeechCleaning.CleanList.
- The `.replace("'", "'")` at line 81 of `test_improved_detection.py` replaces a character by itself. It is modelled as the identity it is.
- `main.py` calls collaborators that are not part of this model: `generate_lesson`, `analyze_pronunciation_v2`, `evaluate_pronunciation` and `generate_segments` are not in `services.py`.
  - They and the `await`ed transcription are function parameters of `ChatTurn.Collaborators`.
  - The lesson generator returns the segment list directly, so the `.get("segments", [])` default of line 77 is folded into it.
  - The detailed scorer's `.get` defaults of lines 99-102 are folded into `Analysis`.
- ChatTurn.Collaborators: `transcribe` stands for an awaitable transcriber that returns what Services.Transcribe computes, which is the premise of ChatTurn.SilenceRejected. As written, `main.py:65` awaits the synchronous `STTService.transcribe` of `services.py:21`, and awaiting its string result raises `TypeError`. ChatTurn.ChatServer.ChatEndpoint models one request run alone; requests running concurrently would each write only their own freshly drawn session id.
- ChatTurn.ChatServer.ChatEndpoint models opening the upload file as creating it before the save may fail. The copy's content and the directory are not modelled.
- The session id of line 53 (`uuid4`) is a parameter. Freshness is the precondition of ChatTurn.FreshSessionNoPronunciation.
- Timing, logging and the diagnostic `print` calls are not modelled.
- The correction message printed at `test_language_validation.py:49` is not modelled.
