/**
 * The decision logic of `chat_endpoint` in `main.py`: one spoken turn of a
 * lesson. The upload is saved to a temporary file, transcribed, turned into
 * a bilingual lesson, optionally scored against the exercise remembered for
 * the session, and answered with synthesised audio; the exercise for the
 * next turn is remembered in the module-level `session_context` dictionary,
 * and the temporary file is removed on every path.
 *
 * The speech recogniser, the lesson generator, the two pronunciation scorers
 * and the speech synthesiser are collaborators: a `Collaborators` value
 * fixes what each returns or raises for each argument.
 */
module ChatTurn {
  import opened Values
  import Services
  import PyText

  /** A `session_context` entry `{"last_exercise": ..., "lang": ...}`. */
  datatype Context = Context(lastExercise: string, lang: string)

  /** What the detailed scorer reports, its missing keys already replaced by the defaults of lines 99-102. */
  datatype Analysis = Analysis(available: bool, score: int, words: seq<string>, prosody: map<string, int>, transcription: string)

  /** What the basic scorer reports. */
  datatype Evaluation = Evaluation(score: int, feedback: string)

  /** `pronunciation_data`: the detailed form of lines 98-103 or the fallback of lines 109-112. */
  datatype Pronunciation =
    | Detailed(score: int, words: seq<string>, prosody: map<string, int>, transcription: string)
    | Basic(score: int, feedback: string)

  /** The endpoint's answer: an error body with its status, or the lesson dictionary of lines 137-144. */
  datatype Response =
    | Failure(status: int, error: string)
    | Lesson(userText: string, segments: seq<RawSegment>, audioSegments: seq<string>, pronunciation: Option<Pronunciation>)

  /** The endpoint's answer and the `session_context` it leaves behind. */
  type Outcome = (Response, map<string, Context>)

  datatype Collaborators = Collaborators(
    save: string -> Call<()>,
    transcribe: (string, string) -> Call<string>,
    generateLesson: (string, string, string) -> Call<seq<RawSegment>>,
    analyze: (string, string, string) -> Call<Analysis>,
    evaluate: (string, string) -> Call<Evaluation>,
    generateSegments: (seq<RawSegment>, string) -> Call<seq<string>>)

  const NoSpeech: string := "Aucune parole détectée"
  const NoLesson: string := "Erreur génération réponse"

  /** Line 54: the temporary upload path. */
  function TempPath(sessionId: string, filename: string): (r: string)
    ensures |r| == 14 + |sessionId| + |filename|
    ensures r[..13] == "temp_uploads/" && r[13 + |sessionId|] == '_'
    ensures r[13..13 + |sessionId|] == sessionId && r[14 + |sessionId|..] == filename
  {
    "temp_uploads/" + sessionId + "_" + filename
  }

  /**
   * Two uploads whose session ids have the same length share a temporary
   * file exactly when they come from the same session with the same file
   * name.
   */
  lemma TempPathSeparatesSessions(s1: string, f1: string, s2: string, f2: string)
    requires |s1| == |s2|
    ensures TempPath(s1, f1) == TempPath(s2, f2) <==> s1 == s2 && f1 == f2
  {
    if TempPath(s1, f1) == TempPath(s2, f2) {
      var r := TempPath(s1, f1);
      assert s1 == r[13..13 + |s1|] == s2;
      assert f1 == r[14 + |s1|..] == f2;
    }
  }

  // ---------------------------------------------------------------------
  // The exercise to remember (lines 116-120)
  // ---------------------------------------------------------------------

  /** The position of the first segment in `lang`, or `|segments|` when there is none. */
  function FirstIn(segments: seq<RawSegment>, lang: string): (i: nat)
    ensures i <= |segments|
    ensures i < |segments| ==> segments[i].lang == Some(lang)
    ensures forall j :: 0 <= j < i ==> segments[j].lang != Some(lang)
  {
    if segments == [] then 0
    else if segments[0].lang == Some(lang) then 0
    else 1 + FirstIn(segments[1..], lang)
  }

  /** `last_exercise` after the loop: the text of the first segment in the target language, if any. */
  function FirstExercise(segments: seq<RawSegment>, lang: string): (r: Option<string>)
    ensures (forall j :: 0 <= j < |segments| ==> segments[j].lang != Some(lang)) ==> r == None
    ensures forall i ::
      (0 <= i < |segments| && segments[i].lang == Some(lang) && forall j :: 0 <= j < i ==> segments[j].lang != Some(lang))
      ==> r == segments[i].text
  {
    var i := FirstIn(segments, lang);
    if i < |segments| then segments[i].text else None
  }

  /** Lines 116-120: the loop stops at the first segment in the target language. */
  method SelectLastExercise(segments: seq<RawSegment>, targetLang: string) returns (lastExercise: Option<string>)
    ensures lastExercise == FirstExercise(segments, targetLang)
  {
    lastExercise := None;
    var k := 0;
    while k < |segments|
      invariant 0 <= k <= |segments|
      invariant forall j :: 0 <= j < k ==> segments[j].lang != Some(targetLang)
      invariant lastExercise == None
    {
      if segments[k].lang == Some(targetLang) {
        lastExercise := segments[k].text;
        break;
      }
      k := k + 1;
    }
  }

  /**
   * The remembered exercise is the first one in the target language:
   * whatever follows a segment in that language changes nothing.
   */
  lemma LaterSegmentsIgnored(segments: seq<RawSegment>, later: seq<RawSegment>, lang: string)
    requires exists j :: 0 <= j < |segments| && segments[j].lang == Some(lang)
    ensures FirstExercise(segments + later, lang) == FirstExercise(segments, lang)
  {
    var i := FirstIn(segments, lang);
    var s := segments + later;
    var j :| 0 <= j < |segments| && segments[j].lang == Some(lang);
    assert i <= j;
    assert s[i] == segments[i];
    assert forall m :: 0 <= m < i ==> s[m] == segments[m];
  }

  /** No segment in the target language leaves nothing to remember. */
  lemma NoTargetSegmentNoExercise(segments: seq<RawSegment>, lang: string)
    requires forall j :: 0 <= j < |segments| ==> segments[j].lang != Some(lang)
    ensures FirstExercise(segments, lang) == None
  {
  }

  // ---------------------------------------------------------------------
  // The session context
  // ---------------------------------------------------------------------

  /** Lines 122-126: the write to `session_context`, made only for a non-empty exercise. */
  function Remember(context: map<string, Context>, sessionId: string, lang: string, lastExercise: Option<string>): (r: map<string, Context>)
    ensures lastExercise.Some? && lastExercise.value != "" ==> r == context[sessionId := Context(lastExercise.value, lang)]
    ensures !(lastExercise.Some? && lastExercise.value != "") ==> r == context
  {
    if lastExercise.Some? && lastExercise.value != "" then context[sessionId := Context(lastExercise.value, lang)] else context
  }

  /** Every remembered entry has an exercise: only line 123 writes, and only a non-empty one. */
  ghost predicate Remembered(context: map<string, Context>) {
    forall id :: id in context ==> context[id].lastExercise != ""
  }

  // ---------------------------------------------------------------------
  // Pronunciation (lines 84-113)
  // ---------------------------------------------------------------------

  /** Line 88: an exercise is remembered for this session, in the language being learned. */
  predicate ScoringApplies(context: map<string, Context>, sessionId: string, targetLang: string) {
    sessionId in context && context[sessionId].lastExercise != "" && context[sessionId].lang == targetLang
  }

  /** Lines 97-103: an available detailed report becomes the pronunciation data, an unavailable one none. */
  function Reported(a: Analysis): (p: Option<Pronunciation>)
    ensures p.Some? <==> a.available
    ensures p.Some? ==> p.value == Detailed(a.score, a.words, a.prosody, a.transcription)
  {
    if a.available then Some(Detailed(a.score, a.words, a.prosody, a.transcription)) else None
  }

  /**
   * Lines 84-113: the detailed scorer's report when it is available, the
   * basic scorer's when the detailed one raises; a failure of the basic
   * scorer escapes to the handler at line 148.
   */
  function Score(context: map<string, Context>, sessionId: string, targetLang: string, path: string,
                 transcription: string, c: Collaborators): (r: Call<Option<Pronunciation>>)
    ensures !ScoringApplies(context, sessionId, targetLang) ==> r == Returned(None)
    ensures r.Raised? <==>
      && ScoringApplies(context, sessionId, targetLang)
      && c.analyze(path, context[sessionId].lastExercise, targetLang).Raised?
      && c.evaluate(transcription, context[sessionId].lastExercise).Raised?
    ensures r.Raised? ==> r.message == c.evaluate(transcription, context[sessionId].lastExercise).message
    ensures (ScoringApplies(context, sessionId, targetLang)
             && c.analyze(path, context[sessionId].lastExercise, targetLang).Returned?)
      ==> r == Returned(Reported(c.analyze(path, context[sessionId].lastExercise, targetLang).value))
    ensures (ScoringApplies(context, sessionId, targetLang)
             && c.analyze(path, context[sessionId].lastExercise, targetLang).Raised?
             && c.evaluate(transcription, context[sessionId].lastExercise).Returned?)
      ==> r == Returned(Some(Basic(c.evaluate(transcription, context[sessionId].lastExercise).value.score,
                                   c.evaluate(transcription, context[sessionId].lastExercise).value.feedback)))
  {
    if !ScoringApplies(context, sessionId, targetLang) then Returned(None)
    else
      var expected := context[sessionId].lastExercise;
      match c.analyze(path, expected, targetLang)
      case Returned(a) => Returned(Reported(a))
      case Raised(_) =>
        match c.evaluate(transcription, expected)
        case Returned(e) => Returned(Some(Basic(e.score, e.feedback)))
        case Raised(m) => Raised(m)
  }

  // ---------------------------------------------------------------------
  // One turn
  // ---------------------------------------------------------------------

  /**
   * Lines 56-150: the response and the new `session_context` of one turn,
   * given the context before it. Every exception becomes a 500 carrying its
   * message (lines 148-150); a synthesis failure comes after the write of
   * line 123, which therefore stays.
   */
  function Turn(context: map<string, Context>, sessionId: string, sourceLang: string, targetLang: string,
                path: string, c: Collaborators): (r: Outcome)
    ensures r.0.Failure? ==> r.0.status == 400 || r.0.status == 500
    ensures r.0.Lesson? ==> r.0.userText != "" && r.0.segments != []
    ensures r.0.Lesson? ==> r.1 == Remember(context, sessionId, targetLang, FirstExercise(r.0.segments, targetLang))
    ensures r.0.Failure? && r.0.status == 400 ==> r.1 == context
  {
    match c.save(path)
    case Raised(m) => (Failure(500, m), context)
    case Returned(_) =>
      match c.transcribe(path, targetLang)
      case Raised(m) => (Failure(500, m), context)
      case Returned(transcription) =>
        if transcription == "" then (Failure(400, NoSpeech), context)
        else
          match c.generateLesson(transcription, sourceLang, targetLang)
          case Raised(m) => (Failure(500, m), context)
          case Returned(segments) =>
            if segments == [] then (Failure(500, NoLesson), context)
            else
              match Score(context, sessionId, targetLang, path, transcription, c)
              case Raised(m) => (Failure(500, m), context)
              case Returned(pronunciation) =>
                var context' := Remember(context, sessionId, targetLang, FirstExercise(segments, targetLang));
                match c.generateSegments(segments, sessionId)
                case Raised(m) => (Failure(500, m), context')
                case Returned(audio) => (Lesson(transcription, segments, audio, pronunciation), context')
  }

  /** Lines 69-70: an empty transcription is a 400, and nothing after it is consulted. */
  lemma EmptyTranscriptRejected(context: map<string, Context>, sessionId: string, sourceLang: string, targetLang: string,
                                path: string, c: Collaborators, other: Collaborators)
    requires c.save(path).Returned? && c.transcribe(path, targetLang) == Returned("")
    requires other.save == c.save && other.transcribe == c.transcribe
    ensures Turn(context, sessionId, sourceLang, targetLang, path, c) == (Failure(400, NoSpeech), context)
    ensures Turn(context, sessionId, sourceLang, targetLang, path, other) == Turn(context, sessionId, sourceLang, targetLang, path, c)
  {
  }

  /**
   * A recording whose recognised segments are all blank is rejected with the
   * 400: the transcription of services.py strips to the empty string.
   */
  lemma SilenceRejected(context: map<string, Context>, sessionId: string, sourceLang: string, targetLang: string,
                        path: string, c: Collaborators, texts: seq<string>)
    requires c.save(path).Returned? && c.transcribe(path, targetLang) == Returned(Services.Transcribe(texts))
    requires forall k :: 0 <= k < |texts| ==> PyText.AllSpace(texts[k])
    ensures Turn(context, sessionId, sourceLang, targetLang, path, c) == (Failure(400, NoSpeech), context)
  {
    Services.TranscribeEmptyIff(texts);
  }

  /**
   * Lines 77-81: a lesson without segments is a 500; the context is
   * unchanged and neither the scorers nor the synthesiser are consulted.
   */
  lemma NoSegmentsRejected(context: map<string, Context>, sessionId: string, sourceLang: string, targetLang: string,
                           path: string, c: Collaborators, other: Collaborators)
    requires c.save(path).Returned? && c.transcribe(path, targetLang).Returned?
    requires c.transcribe(path, targetLang).value != ""
    requires c.generateLesson(c.transcribe(path, targetLang).value, sourceLang, targetLang) == Returned([])
    requires other.save == c.save && other.transcribe == c.transcribe && other.generateLesson == c.generateLesson
    ensures Turn(context, sessionId, sourceLang, targetLang, path, c) == (Failure(500, NoLesson), context)
    ensures Turn(context, sessionId, sourceLang, targetLang, path, other) == Turn(context, sessionId, sourceLang, targetLang, path, c)
  {
  }

  /**
   * Lines 122-126: a turn leaves every other session's entry as it was, and
   * its own entry either unchanged or set to the first exercise in the
   * target language, which is never empty.
   */
  lemma ContextWriteConfined(context: map<string, Context>, sessionId: string, sourceLang: string, targetLang: string,
                             path: string, c: Collaborators)
    ensures var context' := Turn(context, sessionId, sourceLang, targetLang, path, c).1;
      (forall id :: id != sessionId ==> (id in context' <==> id in context))
      && (forall id :: id != sessionId && id in context ==> context'[id] == context[id])
      && (context' == context || (sessionId in context' && context'[sessionId].lang == targetLang && context'[sessionId].lastExercise != ""))
  {
  }

  /** The write happens exactly when the lesson gets as far as line 122 with a non-empty exercise. */
  lemma ContextWrittenIff(context: map<string, Context>, sessionId: string, sourceLang: string, targetLang: string,
                          path: string, c: Collaborators, transcription: string, segments: seq<RawSegment>)
    requires c.save(path).Returned? && c.transcribe(path, targetLang) == Returned(transcription) && transcription != ""
    requires c.generateLesson(transcription, sourceLang, targetLang) == Returned(segments) && segments != []
    requires Score(context, sessionId, targetLang, path, transcription, c).Returned?
    ensures var e := FirstExercise(segments, targetLang);
      Turn(context, sessionId, sourceLang, targetLang, path, c).1
        == if e.Some? && e.value != "" then context[sessionId := Context(e.value, targetLang)] else context
  {
  }

  /** A turn keeps every remembered entry's exercise non-empty. */
  lemma TurnKeepsRemembered(context: map<string, Context>, sessionId: string, sourceLang: string, targetLang: string,
                            path: string, c: Collaborators)
    requires Remembered(context)
    ensures Remembered(Turn(context, sessionId, sourceLang, targetLang, path, c).1)
  {
  }

  /**
   * Lines 86-88 and 143-144: a lesson carries a pronunciation only when an
   * exercise in the target language was remembered for this session id.
   */
  lemma PronunciationNeedsContext(context: map<string, Context>, sessionId: string, sourceLang: string, targetLang: string,
                                  path: string, c: Collaborators)
    requires Turn(context, sessionId, sourceLang, targetLang, path, c).0.Lesson?
    requires Turn(context, sessionId, sourceLang, targetLang, path, c).0.pronunciation.Some?
    ensures sessionId in context && context[sessionId].lang == targetLang && context[sessionId].lastExercise != ""
  {
  }

  /**
   * Line 53: the session id is drawn fresh for every request, so it is not
   * yet in the context; then no scorer is consulted and the lesson never
   * carries a pronunciation.
   */
  lemma FreshSessionNoPronunciation(context: map<string, Context>, sessionId: string, sourceLang: string, targetLang: string,
                                    path: string, c: Collaborators, other: Collaborators)
    requires sessionId !in context
    requires other == c.(analyze := other.analyze, evaluate := other.evaluate)
    ensures var r := Turn(context, sessionId, sourceLang, targetLang, path, c).0;
      r.Lesson? ==> r.pronunciation.None?
    ensures Turn(context, sessionId, sourceLang, targetLang, path, other) == Turn(context, sessionId, sourceLang, targetLang, path, c)
  {
  }

  /**
   * Lines 137-146: a lesson answers with the non-empty transcription, the
   * non-empty segments as generated and the synthesiser's files.
   */
  lemma LessonShape(context: map<string, Context>, sessionId: string, sourceLang: string, targetLang: string,
                    path: string, c: Collaborators)
    requires Turn(context, sessionId, sourceLang, targetLang, path, c).0.Lesson?
    ensures var r := Turn(context, sessionId, sourceLang, targetLang, path, c).0;
      c.transcribe(path, targetLang) == Returned(r.userText) && r.userText != ""
      && c.generateLesson(r.userText, sourceLang, targetLang) == Returned(r.segments) && r.segments != []
      && c.generateSegments(r.segments, sessionId) == Returned(r.audioSegments)
      && Score(context, sessionId, targetLang, path, r.userText, c) == Returned(r.pronunciation)
  {
  }

  /** Lines 148-150: a collaborator that raises makes the turn a 500 carrying its message. */
  lemma FailuresAre500(context: map<string, Context>, sessionId: string, sourceLang: string, targetLang: string,
                       path: string, c: Collaborators)
    requires c.save(path).Raised? || (c.save(path).Returned? && c.transcribe(path, targetLang).Raised?)
    ensures var r := Turn(context, sessionId, sourceLang, targetLang, path, c).0;
      r.Failure? && r.status == 500
      && r.error == (if c.save(path).Raised? then c.save(path).message else c.transcribe(path, targetLang).message)
  {
  }

  /** Lines 74 and 148-150: a lesson generator that raises makes the turn a 500 carrying its message. */
  lemma LessonFailureIs500(context: map<string, Context>, sessionId: string, sourceLang: string, targetLang: string,
                           path: string, c: Collaborators, transcription: string)
    requires c.save(path).Returned? && c.transcribe(path, targetLang) == Returned(transcription) && transcription != ""
    requires c.generateLesson(transcription, sourceLang, targetLang).Raised?
    ensures Turn(context, sessionId, sourceLang, targetLang, path, c)
         == (Failure(500, c.generateLesson(transcription, sourceLang, targetLang).message), context)
  {
  }

  /**
   * Lines 90-112 and 148-150: when the detailed scorer raises and the basic
   * scorer raises too, the turn is a 500 carrying the basic scorer's message,
   * before anything is remembered.
   */
  lemma ScoringFailureIs500(context: map<string, Context>, sessionId: string, sourceLang: string, targetLang: string,
                            path: string, c: Collaborators, transcription: string, segments: seq<RawSegment>)
    requires c.save(path).Returned? && c.transcribe(path, targetLang) == Returned(transcription) && transcription != ""
    requires c.generateLesson(transcription, sourceLang, targetLang) == Returned(segments) && segments != []
    requires ScoringApplies(context, sessionId, targetLang)
    requires c.analyze(path, context[sessionId].lastExercise, targetLang).Raised?
    requires c.evaluate(transcription, context[sessionId].lastExercise).Raised?
    ensures Turn(context, sessionId, sourceLang, targetLang, path, c)
         == (Failure(500, c.evaluate(transcription, context[sessionId].lastExercise).message), context)
  {
  }

  /**
   * Lines 130 and 148-150: a synthesiser that raises makes the turn a 500
   * carrying its message, but the write of lines 122-126 has already
   * happened and stays.
   */
  lemma SynthesisFailureIs500(context: map<string, Context>, sessionId: string, sourceLang: string, targetLang: string,
                              path: string, c: Collaborators, transcription: string, segments: seq<RawSegment>)
    requires c.save(path).Returned? && c.transcribe(path, targetLang) == Returned(transcription) && transcription != ""
    requires c.generateLesson(transcription, sourceLang, targetLang) == Returned(segments) && segments != []
    requires Score(context, sessionId, targetLang, path, transcription, c).Returned?
    requires c.generateSegments(segments, sessionId).Raised?
    ensures Turn(context, sessionId, sourceLang, targetLang, path, c)
         == (Failure(500, c.generateSegments(segments, sessionId).message),
             Remember(context, sessionId, targetLang, FirstExercise(segments, targetLang)))
  {
  }

  /** A failing request answers 400 or 500, a succeeding one carries the lesson. */
  lemma StatusCodes(context: map<string, Context>, sessionId: string, sourceLang: string, targetLang: string,
                    path: string, c: Collaborators)
    ensures var r := Turn(context, sessionId, sourceLang, targetLang, path, c).0;
      r.Failure? ==>
        (r.status == 400 || r.status == 500)
        && (r.status == 400 <==> r.error == NoSpeech && c.save(path).Returned? && c.transcribe(path, targetLang) == Returned(""))
  {
  }

  // ---------------------------------------------------------------------
  // The server
  // ---------------------------------------------------------------------

  /** The process-wide state `chat_endpoint` touches: `session_context` and the files on disk. */
  class ChatServer {
    var sessionContext: map<string, Context>
    var files: set<string>

    /** Line 31: an empty context. */
    constructor(files: set<string>)
      ensures sessionContext == map[] && this.files == files
    {
      sessionContext := map[];
      this.files := files;
    }

    /**
     * Lines 37-154: the response and the new context are those of `Turn`,
     * and the temporary upload is gone afterwards, whatever happened.
     */
    method ChatEndpoint(sessionId: string, filename: string, sourceLang: string, targetLang: string, c: Collaborators)
      returns (response: Response)
      modifies this
      ensures (response, sessionContext) == Turn(old(sessionContext), sessionId, sourceLang, targetLang, TempPath(sessionId, filename), c)
      ensures files == old(files) - {TempPath(sessionId, filename)}
      ensures Remembered(old(sessionContext)) ==> Remembered(sessionContext)
    {
      var path := TempPath(sessionId, filename);
      files := files + {path};
      response := Respond(sessionId, path, sourceLang, targetLang, c);
      if path in files {
        files := files - {path};
      }
    }

    /** Lines 57-150, the body of the `try` with its handler. */
    method Respond(sessionId: string, path: string, sourceLang: string, targetLang: string, c: Collaborators)
      returns (response: Response)
      modifies this`sessionContext
      ensures (response, sessionContext) == Turn(old(sessionContext), sessionId, sourceLang, targetLang, path, c)
      ensures Remembered(old(sessionContext)) ==> Remembered(sessionContext)
    {
      var saved := c.save(path);
      if saved.Raised? {
        return Failure(500, saved.message);
      }
      var stt := c.transcribe(path, targetLang);
      if stt.Raised? {
        return Failure(500, stt.message);
      }
      var transcription := stt.value;
      if transcription == "" {
        return Failure(400, NoSpeech);
      }
      var result := c.generateLesson(transcription, sourceLang, targetLang);
      if result.Raised? {
        return Failure(500, result.message);
      }
      var segments := result.value;
      if segments == [] {
        return Failure(500, NoLesson);
      }

      var pronunciationData: Option<Pronunciation> := None;
      if sessionId in sessionContext {
        var ctx := sessionContext[sessionId];
        if ctx.lastExercise != "" && ctx.lang == targetLang {
          var v2 := c.analyze(path, ctx.lastExercise, targetLang);
          if v2.Returned? {
            if v2.value.available {
              pronunciationData := Some(Detailed(v2.value.score, v2.value.words, v2.value.prosody, v2.value.transcription));
            }
          } else {
            var evaluation := c.evaluate(transcription, ctx.lastExercise);
            if evaluation.Raised? {
              return Failure(500, evaluation.message);
            }
            pronunciationData := Some(Basic(evaluation.value.score, evaluation.value.feedback));
          }
        }
      }

      var lastExercise := SelectLastExercise(segments, targetLang);
      if lastExercise.Some? && lastExercise.value != "" {
        sessionContext := sessionContext[sessionId := Context(lastExercise.value, targetLang)];
      }

      var audio := c.generateSegments(segments, sessionId);
      if audio.Raised? {
        return Failure(500, audio.message);
      }
      response := Lesson(transcription, segments, audio.value, pronunciationData);
    }
  }
}
