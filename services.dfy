/**
 * The pure logic of `services.py`: the speech-to-text join, the prompt the
 * tutor sends to the language model, how the model's answer is cut down to
 * its JSON object and what is returned when that fails, and the choice of
 * speech-synthesis voice. The HTTP request, the Whisper model and the
 * synthesis itself are collaborators: their outcomes are parameters.
 */
module Services {
  import opened PyText
  import opened Values

  // ---------------------------------------------------------------------
  // STTService.transcribe
  // ---------------------------------------------------------------------

  /** `"".join(texts)`. */
  function Join(texts: seq<string>): (r: string)
    ensures |texts| == 0 ==> r == ""
    ensures r == "" <==> forall k :: 0 <= k < |texts| ==> texts[k] == ""
    ensures |texts| > 0 ==> |texts[|texts| - 1]| <= |r|
  {
    if texts == [] then "" else Join(texts[..|texts| - 1]) + texts[|texts| - 1]
  }

  /** Lines 22-24: the recognised segments' texts, joined and stripped. */
  function Transcribe(segmentTexts: seq<string>): (r: string)
    ensures |r| == 0 || (!IsSpace(r[0]) && !IsSpace(r[|r| - 1]))
    ensures |r| <= |Join(segmentTexts)|
    ensures exists a, b ::
      0 <= a <= b <= |Join(segmentTexts)| && r == Join(segmentTexts)[a..b]
      && AllSpace(Join(segmentTexts)[..a]) && AllSpace(Join(segmentTexts)[b..])
  {
    Strip(Join(segmentTexts))
  }

  /** The joined text is blank exactly when every segment's text is. */
  lemma {:induction false} JoinAllSpace(texts: seq<string>)
    ensures AllSpace(Join(texts)) <==> forall k :: 0 <= k < |texts| ==> AllSpace(texts[k])
  {
    if texts != [] {
      var n := |texts| - 1;
      var pre := texts[..n];
      JoinAllSpace(pre);
      var a, b := Join(pre), texts[n];
      assert Join(texts) == a + b;
      assert AllSpace(a + b) <==> AllSpace(a) && AllSpace(b) by {
        forall i | 0 <= i < |b| ensures (a + b)[|a| + i] == b[i] {}
        forall i | 0 <= i < |a| ensures (a + b)[i] == a[i] {}
      }
      assert forall k :: 0 <= k < n ==> pre[k] == texts[k];
    }
  }

  /** The transcription is empty (the 400 guard of `main.py`) exactly when every segment is blank. */
  lemma TranscribeEmptyIff(segmentTexts: seq<string>)
    ensures Transcribe(segmentTexts) == "" <==> forall k :: 0 <= k < |segmentTexts| ==> AllSpace(segmentTexts[k])
  {
    StripEmptyIff(Join(segmentTexts));
    JoinAllSpace(segmentTexts);
  }

  // ---------------------------------------------------------------------
  // LLMService.chat
  // ---------------------------------------------------------------------

  /** Line 43: what `chat` answers when the request fails. */
  const Apology: string := "Désolé, je ne peux " + "pas répondre pour le moment."

  /** A chat message `{"role": ..., "content": ...}`. */
  datatype Message = Message(role: string, content: string)

  /**
   * Lines 31-43: the reply's content when the request to the model server
   * succeeds, the fixed apology when anything on the way raises.
   */
  function ChatResult(outcome: Call<string>): (r: string)
    ensures outcome.Returned? ==> r == outcome.value
    ensures outcome.Raised? ==> r == Apology
  {
    match outcome
    case Returned(content) => content
    case Raised(_) => Apology
  }

  /** The apology holds no `{`, so it can never be mistaken for a JSON answer. */
  lemma ApologyHasNoBrace(a: string)
    requires a == Apology
    ensures '{' !in a
  {
    var x, y := "Désolé, je ne peux ", "pas répondre pour le moment.";
    assert '{' !in x;
    assert '{' !in y;
  }

  // ---------------------------------------------------------------------
  // LLMService.correct_and_respond
  // ---------------------------------------------------------------------

  /** Lines 53-58 and 62-67: the opening of both system prompts, before the learned language. */
  const PromptOpening: string := "Tu es un assistant linguistique utile. L'utilisateur apprend le "

  /** The instructions both system prompts give after the language's second mention. */
  const PromptInstructions: string :=
    " (ou essayer). "
    + "1. Corrige son texte s'il y a des erreurs grammaticales ou de formulation. Si c'est parfait, dis 'Aucune correction nécessaire'. "
    + "2. Réponds ensuite à sa phrase de manière naturelle en "

  const PromptFormat: string :=
    " pour continuer la conversation. "
    + "Réponds au format JSON: {\"correction\": \"...\", \"response\": \"...\"}"

  /**
   * The system prompt for a learner of `language`: the source writes it out
   * twice, once with "Russe" (lines 53-59) and once with "Français"
   * (lines 62-68), and the two texts differ only in that word.
   */
  function LearnerPrompt(language: string): (r: string)
    ensures StartsWith(r, PromptOpening + language)
    ensures |r| == |PromptOpening| + |". Il va te parler en "| + |PromptInstructions| + |PromptFormat| + 3 * |language|
  {
    var r := PromptOpening + language + ". Il va te parler en " + language + PromptInstructions + language + PromptFormat;
    assert r[..|PromptOpening + language|] == PromptOpening + language;
    r
  }

  /** Lines 60 and 69: the introduction put before the user's phrase. */
  function PhraseIntro(language: string): (r: string)
    ensures StartsWith(r, "Voici ma phrase en " + language) && |r| == 21 + |language|
  {
    var r := "Voici ma phrase en " + language + ": ";
    assert r[..19 + |language|] == "Voici ma phrase en " + language;
    r
  }

  /** Line 52: the language the learner is practising; `"fr"` means Russian, anything else French. */
  function LearnedLanguage(sourceLang: string): (r: string)
    ensures r == "Russe" <==> sourceLang == "fr"
    ensures r == "Russe" || r == "Français"
  {
    if sourceLang == "fr" then "Russe" else "Français"
  }

  /**
   * Lines 52-74: the message list is the system prompt for the learned
   * language followed by the user's phrase behind its introduction.
   */
  function BuildMessages(userText: string, sourceLang: string): (r: seq<Message>)
    ensures |r| == 2 && r[0].role == "system" && r[1].role == "user"
    ensures r[0].content == LearnerPrompt(LearnedLanguage(sourceLang))
    ensures r[1].content == PhraseIntro(LearnedLanguage(sourceLang)) + userText
  {
    var language := LearnedLanguage(sourceLang);
    [Message("system", LearnerPrompt(language)), Message("user", PhraseIntro(language) + userText)]
  }

  /**
   * The system prompt names the learned language right after "apprend le":
   * for `source_lang == "fr"` it says the user learns Russian, otherwise
   * that they learn French.
   */
  lemma PromptNamesLearnedLanguage(userText: string, sourceLang: string)
    ensures var p := BuildMessages(userText, sourceLang)[0].content;
      (sourceLang == "fr" ==> StartsWith(p, PromptOpening + "Russe"))
      && (sourceLang != "fr" ==> StartsWith(p, PromptOpening + "Français"))
  {
  }

  /** The two source languages give two different system prompts, so the model can tell them apart. */
  lemma PromptsDiffer(userText: string)
    ensures BuildMessages(userText, "fr")[0].content != BuildMessages(userText, "ru")[0].content
    ensures BuildMessages(userText, "fr")[1].content != BuildMessages(userText, "ru")[1].content
  {
    assert |"Russe"| != |"Français"|;
  }

  /** The user's own words come back from the user message by dropping the fixed introduction. */
  lemma UserTextRecoverable(userText: string, sourceLang: string)
    ensures var m := BuildMessages(userText, sourceLang)[1].content;
      var n := |PhraseIntro(LearnedLanguage(sourceLang))|;
      n <= |m| && m[n..] == userText
  {
    var intro := PhraseIntro(LearnedLanguage(sourceLang));
    assert BuildMessages(userText, sourceLang)[1].content == intro + userText;
  }

  /** `s[a:b]` for `0 <= a` and `b <= len(s)`: empty when `a >= b`. */
  function PySlice(s: string, a: nat, b: nat): (r: string)
    requires b <= |s|
    ensures a < b ==> r == s[a..b]
    ensures a >= b ==> r == ""
  {
    if a < b then s[a..b] else ""
  }

  /**
   * Lines 82-85: from the first `{` up to and including the last `}`, or
   * `None` when the guard at line 84 fails. Its second half, `end != -1`,
   * always holds (`end` is `rfind` plus one), so only a missing `{` makes it
   * fail.
   */
  function JsonSpan(content: string): (r: Option<string>)
    ensures r.None? <==> '{' !in content
    ensures r.Some? && r.value != "" ==> r.value[0] == '{' && r.value[|r.value| - 1] == '}'
  {
    var start := Find(content, '{');
    var end := RFind(content, '}') + 1;
    if start != -1 && end != -1 then Some(PySlice(content, start, end)) else None
  }

  /**
   * When a `}` follows the first `{`, the span is the contiguous slice from
   * that `{` to the last `}`: nothing before it holds a `{`, nothing after
   * it a `}`.
   */
  lemma SpanIsOutermost(content: string)
    requires '{' in content && '}' in content[Find(content, '{')..]
    ensures var i, j := Find(content, '{'), RFind(content, '}');
      0 <= i < j < |content| && JsonSpan(content) == Some(content[i..j + 1])
      && '{' !in content[..i] && '}' !in content[j + 1..]
  {
    var i := Find(content, '{');
    var k :| i <= k < |content| && content[k] == '}';
    assert content[k] in content[..][..];
    var j := RFind(content, '}');
  }

  /** The span is empty exactly when no `}` occurs at or after the first `{`. */
  lemma SpanEmptyIff(content: string)
    requires '{' in content
    ensures JsonSpan(content).Some?
    ensures JsonSpan(content).value == "" <==> '}' !in content[Find(content, '{')..]
  {
    var i := Find(content, '{');
    var j := RFind(content, '}');
    if '}' in content[i..] {
      SpanIsOutermost(content);
    }
  }

  /** The result of `correct_and_respond`: whatever `json.loads` produced, or the fallback dictionary. */
  datatype Reply<J> = Decoded(value: J) | Fallback(correction: string, response: string)

  /**
   * Lines 80-90 on the model's answer: the span is decoded by `decode`
   * (`json.loads`, `None` when it raises); a missing `{` or a decoding
   * failure gives `{"correction": content, "response": ""}`.
   */
  function ParseReply<J>(content: string, decode: string -> Option<J>): (r: Reply<J>)
    ensures r.Fallback? ==> r == Fallback(content, "")
    ensures r.Decoded? <==> '{' in content && decode(JsonSpan(content).value).Some?
    ensures r.Decoded? ==> r.value == decode(JsonSpan(content).value).value
  {
    match JsonSpan(content)
    case None => Fallback(content, "")
    case Some(span) =>
      match decode(span)
      case Some(v) => Decoded(v)
      case None => Fallback(content, "")
  }

  /** Lines 45-90: the prompt goes to the model, and its answer is parsed. */
  function CorrectAndRespond<J>(userText: string, sourceLang: string, chat: seq<Message> -> Call<string>,
                                decode: string -> Option<J>): (r: Reply<J>)
    ensures chat(BuildMessages(userText, sourceLang)).Raised? ==> r == Fallback(Apology, "")
    ensures chat(BuildMessages(userText, sourceLang)).Returned? ==>
      (r.Decoded? <==> '{' in chat(BuildMessages(userText, sourceLang)).value
                       && decode(JsonSpan(chat(BuildMessages(userText, sourceLang)).value).value).Some?)
    ensures chat(BuildMessages(userText, sourceLang)).Returned? && r.Fallback? ==>
      r == Fallback(chat(BuildMessages(userText, sourceLang)).value, "")
  {
    ApologyHasNoBrace(Apology);
    ParseReply(ChatResult(chat(BuildMessages(userText, sourceLang))), decode)
  }

  /** An answer without `{` comes back whole as the correction. */
  lemma NoBraceFallsBack<J>(content: string, decode: string -> Option<J>)
    requires '{' !in content
    ensures ParseReply(content, decode) == Fallback(content, "")
  {
  }

  /**
   * An answer whose braces enclose nothing (`json.loads("")` raises) falls
   * back as well: malformed output never escapes as an exception.
   */
  lemma EmptySpanFallsBack<J>(content: string, decode: string -> Option<J>)
    requires decode("").None?
    requires '{' in content && '}' !in content[Find(content, '{')..]
    ensures ParseReply(content, decode) == Fallback(content, "")
  {
    SpanEmptyIff(content);
  }

  /**
   * A JSON object wrapped in prose and a Markdown fence (no `{` before it,
   * no `}` after it) is handed to `json.loads` exactly.
   */
  lemma WrappedObjectDecoded<J>(before: string, obj: string, after: string, decode: string -> Option<J>)
    requires |obj| >= 2 && obj[0] == '{' && obj[|obj| - 1] == '}'
    requires '{' !in before && '}' !in after
    ensures JsonSpan(before + obj + after) == Some(obj)
    ensures ParseReply(before + obj + after, decode)
      == if decode(obj).Some? then Decoded(decode(obj).value) else Fallback(before + obj + after, "")
  {
    var s := before + obj + after;
    var i, j := |before|, |before| + |obj| - 1;
    assert s[i] == '{' && s[j] == '}';
    assert s[..i] == before;
    FindFromFirst(s, '{', 0, i);
    assert s[0..] == s;
    assert s[j + 1..] == after;
    assert s[i..j + 1] == obj;
  }

  /**
   * The fenced answer of verify_bilingual.py, lines 45-54: prose and an
   * opening fence, the object (its field lines, lines 48-51, are `fields`),
   * then the closing fence. Exactly the object reaches `json.loads`,
   * whatever its fields.
   */
  lemma FencedFixtureDecoded<J>(fields: string, decode: string -> Option<J>)
    ensures var obj := "{" + fields + "\n        }";
      JsonSpan(Preamble + obj + Postamble) == Some(obj)
  {
    var obj := "{" + fields + "\n        }";
    PreambleBraceFree(Preamble);
    assert obj[|obj| - 1] == "\n        }"[9];
    assert '}' !in Postamble;
    WrappedObjectDecoded(Preamble, obj, Postamble, decode);
  }

  /** Lines 45-48 of verify_bilingual.py: the prose and the opening fence. */
  const Preamble: string := "\n        Voici la réponse :" + "\n        ```json\n        "

  /** Lines 52-54 of verify_bilingual.py: the closing fence. */
  const Postamble: string := "\n        ```\n        "

  lemma PreambleBraceFree(before: string)
    requires before == Preamble
    ensures '{' !in before
  {
    var b1, b2 := "\n        Voici la réponse :", "\n        ```json\n        ";
    assert '{' !in b1;
    assert '{' !in b2;
  }

  // ---------------------------------------------------------------------
  // TTSService.generate_audio
  // ---------------------------------------------------------------------

  const FrenchVoice: string := "fr-FR-VivienneMultilingualNeural"
  const RussianVoice: string := "ru-RU-SvetlanaNeural"

  /** Line 95: the French voice for `"fr"`, the Russian voice for every other language. */
  function Voice(language: string): (v: string)
    ensures v == FrenchVoice || v == RussianVoice
    ensures v == FrenchVoice <==> language == "fr"
  {
    assert FrenchVoice[0] != RussianVoice[0];
    if language == "fr" then FrenchVoice else RussianVoice
  }
}
