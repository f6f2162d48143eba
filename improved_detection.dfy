/**
 * The second French/Russian detector. It still computes a French keyword
 * score and a French pattern score, but every branch reached after those
 * scores answers French, so the answer depends only on whether a Cyrillic
 * character occurs.
 */
module ImprovedDetection {
  import opened PyText
  import opened Values

  /** The keyword list in its original order, `'ou'` listed twice. */
  const FrenchKeywords: seq<string> := [
    "le", "la", "les", "un", "une", "des", "de", "du",
    "je", "tu", "il", "elle", "nous", "vous", "ils", "elles",
    "est", "sont", "être", "avoir", "a", "ai", "as", "ont",
    "ce", "cette", "ces", "mon", "ma", "mes", "ton", "ta", "tes",
    "comment", "dit", "on", "dit-on", "en", "pour", "avec", "dans",
    "au", "aux", "à", "ou", "et", "mais", "ou", "donc"]

  const FrenchPatterns: seq<string> := ["dit-on", "qu'", "c'est", "n'", "d'", "l'", "ç"]

  /**
   * Points for one keyword: 2 when it stands as a whole word, else 1 when the
   * text starts with the word and a space or ends with a space and the word.
   * A word at either end of the text already stands as a whole word, so the
   * 1-point branch never contributes: a keyword scores 0 or 2.
   */
  function KeywordPoints(lowered: string, w: string): (p: int)
    ensures p == 0 || p == 2
    ensures p == 2 <==> exists k :: WholeWordAt(lowered, w, k)
  {
    WholeWordIff(lowered, w);
    EdgeWordIsWhole(lowered, w);
    if Contains(" " + lowered + " ", " " + w + " ") then 2
    else if StartsWith(lowered, w + " ") || EndsWith(lowered, " " + w) then 1
    else 0
  }

  /** A word followed by a space at the start, or preceded by one at the end, stands as a whole word. */
  lemma EdgeWordIsWhole(lowered: string, w: string)
    ensures StartsWith(lowered, w + " ") ==> WholeWordAt(lowered, w, 0)
    ensures EndsWith(lowered, " " + w) ==> WholeWordAt(lowered, w, |lowered| - |w|)
  {
    if StartsWith(lowered, w + " ") {
      assert lowered[..|w|] == (w + " ")[..|w|] == w;
      assert lowered[|w|] == (w + " ")[|w|];
    }
    if EndsWith(lowered, " " + w) {
      var k := |lowered| - |w|;
      assert lowered[k..] == (" " + w)[1..] == w;
      assert lowered[k - 1] == (" " + w)[0];
    }
  }

  /** Every keyword scores an even number of points, at most 2. */
  function KeywordScore(lowered: string, kws: seq<string>): (n: nat)
    ensures n <= 2 * |kws| && n % 2 == 0
    ensures n == 0 <==> forall k :: 0 <= k < |kws| ==> forall j :: !WholeWordAt(lowered, kws[k], j)
  {
    if kws == [] then 0 else KeywordPoints(lowered, kws[0]) + KeywordScore(lowered, kws[1..])
  }

  /** Three points for every pattern that occurs as a substring. */
  function PatternScore(lowered: string, pats: seq<string>): (n: nat)
    ensures n <= 3 * |pats| && n % 3 == 0
    ensures n == 0 <==> forall k :: 0 <= k < |pats| ==> !Contains(lowered, pats[k])
  {
    if pats == [] then 0
    else (if Contains(lowered, pats[0]) then 3 else 0) + PatternScore(lowered, pats[1..])
  }

  /** The early-return chain that follows the counts and the scores. */
  function Decide(counts: ScriptCounts, frenchScore: nat): (r: string)
    ensures r == FR || r == RU
    ensures r == RU <==> counts.cyrillic > 0
  {
    if counts.cyrillic > 5 then RU
    else if counts.cyrillic > 0 then RU
    else if frenchScore >= 3 then FR
    else if counts.latin > 0 then FR
    else FR
  }

  /** `detect_text_language` of the improved script. */
  function DetectTextLanguage(text: string): (r: string)
    ensures r == FR || r == RU
    ensures r == RU <==> HasCyrillic(text)
  {
    var lowered := LowerStr(text);
    var counts := CountScripts(text, 0);
    var score := KeywordScore(lowered, FrenchKeywords) + PatternScore(lowered, FrenchPatterns);
    Decide(counts, score)
  }

  /**
   * The French score is dead: whatever its value, the decision is Russian
   * exactly when a Cyrillic character was counted.
   */
  lemma ScoreNeverDecides(counts: ScriptCounts, score1: nat, score2: nat)
    ensures Decide(counts, score1) == Decide(counts, score2)
    ensures Decide(counts, score1) == (if counts.cyrillic > 0 then RU else FR)
  {
  }

  /** The empty text reaches the final fallback. */
  lemma EmptyIsFrench()
    ensures DetectTextLanguage("") == FR
  {
  }

  lemma PrivetIsRussian()
    ensures DetectTextLanguage("Привет") == RU
  {
    assert IsCyrillic("Привет"[0]);
  }

  lemma GreetingIsRussian()
    ensures DetectTextLanguage("Здравствуйте как дела") == RU
  {
    assert IsCyrillic("Здравствуйте как дела"[0]);
  }

  lemma DitOnIsFrench()
    ensures DetectTextLanguage("Comment dit-on bonjour") == FR
  {
    var a, b, c := "Comment", " dit-on", " bonjour";
    assert !HasCyrillic(a) && !HasCyrillic(b) && !HasCyrillic(c);
    HasCyrillicConcat(a, b);
    HasCyrillicConcat(a + b, c);
    assert a + b + c == "Comment dit-on bonjour";
  }

  lemma ApostrophesAreFrench()
    ensures DetectTextLanguage("qu'est-ce que c'est") == FR
  {
    var a, b, c := "qu'est", "-ce que", " c'est";
    assert !HasCyrillic(a) && !HasCyrillic(b) && !HasCyrillic(c);
    HasCyrillicConcat(a, b);
    HasCyrillicConcat(a + b, c);
    assert a + b + c == "qu'est-ce que c'est";
  }
}
