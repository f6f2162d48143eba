/**
 * The first French/Russian detector and the segment validator that re-tags
 * every segment a language model produced with the detected language.
 */
module LanguageValidation {
  import opened PyText
  import opened Values

  /** Scored only as whole space-delimited words. */
  const FrenchKeywords: seq<string> :=
    ["le", "la", "les", "un", "une", "des", "je", "tu", "il", "vous", "est", "sont", "avoir", "être", "pour"]

  /** Scored as plain substrings of the lower-cased text. */
  const RussianKeywords: seq<string> := ["это", "вы", "как", "что", "на", "в", "я", "не", "и", "с"]

  /** How many of `kws` occur in `padded` surrounded by single spaces. */
  function WholeWordHits(padded: string, kws: seq<string>): (n: nat)
    ensures n <= |kws|
    ensures n == 0 <==> forall k :: 0 <= k < |kws| ==> !Contains(padded, " " + kws[k] + " ")
  {
    if kws == [] then 0
    else (if Contains(padded, " " + kws[0] + " ") then 1 else 0) + WholeWordHits(padded, kws[1..])
  }

  /** How many of `kws` occur anywhere in `t`. */
  function SubstringHits(t: string, kws: seq<string>): (n: nat)
    ensures n <= |kws|
    ensures n == 0 <==> forall k :: 0 <= k < |kws| ==> !Contains(t, kws[k])
  {
    if kws == [] then 0
    else (if Contains(t, kws[0]) then 1 else 0) + SubstringHits(t, kws[1..])
  }

  /**
   * `detect_text_language`: Russian when the Cyrillic characters exceed 30%
   * of the other letters (`cyrillic > 0.3 * latin`, written over integers),
   * else Russian when more Russian than French keywords occur, else French.
   */
  function DetectTextLanguage(text: string): (r: string)
    ensures r == FR || r == RU
  {
    var counts := CountScripts(text, 0);
    var lowered := LowerStr(text);
    var frenchScore := WholeWordHits(" " + lowered + " ", FrenchKeywords);
    var russianScore := SubstringHits(lowered, RussianKeywords);
    if 10 * counts.cyrillic > 3 * counts.latin then RU
    else if russianScore > frenchScore then RU
    else FR
  }

  /** The Cyrillic ratio test wins over any keyword scores. */
  lemma CyrillicMajorityIsRussian(text: string)
    requires 10 * CountScripts(text, 0).cyrillic > 3 * CountScripts(text, 0).latin
    ensures DetectTextLanguage(text) == RU
  {
  }

  /** Every word is non-empty and starts with a Cyrillic character. */
  predicate CyrillicWords(kws: seq<string>) {
    forall j :: 0 <= j < |kws| ==> |kws[j]| > 0 && IsCyrillic(kws[j][0])
  }

  lemma {:induction false} NoCyrillicNoHits(t: string, kws: seq<string>)
    requires CyrillicWords(kws)
    requires !HasCyrillic(t)
    ensures SubstringHits(t, kws) == 0
    decreases |kws|
  {
    if kws != [] {
      ContainsIff(t, kws[0]);
      NoCyrillicNoHits(t, kws[1..]);
    }
  }

  /**
   * Text without a single character in U+0400..U+04FF, the empty string
   * included, is French: the ratio test reads `0 > 0.3 * latin`, and every
   * Russian keyword is Cyrillic, so the Russian score is zero.
   */
  lemma NoCyrillicIsFrench(text: string)
    requires !HasCyrillic(text)
    ensures DetectTextLanguage(text) == FR
  {
    var lowered := LowerStr(text);
    assert !HasCyrillic(lowered);
    NoCyrillicNoHits(lowered, RussianKeywords);
  }

  /** Text whose letters are all Cyrillic, with at least one, is Russian. */
  lemma CyrillicLettersAreRussian(text: string)
    requires HasCyrillic(text)
    requires forall m :: 0 <= m < |text| && IsAlpha(text[m]) ==> IsCyrillic(text[m])
    ensures DetectTextLanguage(text) == RU
  {
    LatinCountZero(text, 0);
  }

  lemma {:induction false} LatinCountZero(s: string, i: nat)
    requires i <= |s|
    requires forall m :: i <= m < |s| && IsAlpha(s[m]) ==> IsCyrillic(s[m])
    ensures CountScripts(s, i).latin == 0
    decreases |s| - i
  {
    if i < |s| {
      LatinCountZero(s, i + 1);
    }
  }

  /** A segment after validation: the language is the detected one. */
  datatype Segment = Segment(lang: string, text: string)

  /** `segment.get("text", "")`. */
  function TextOf(seg: RawSegment): string {
    seg.text.GetOr("")
  }

  /**
   * What one loop iteration appends when `detect` names the language of a
   * text: nothing for blank text, else the stripped text tagged with its
   * detected language. The loop never looks inside the detector, so the
   * facts about validation below hold for any `detect`.
   */
  function Step(seg: RawSegment, detect: string -> string): (r: seq<Segment>)
    ensures |r| <= 1
    ensures r == [] <==> Strip(TextOf(seg)) == ""
    ensures forall k :: 0 <= k < |r| ==>
      && r[k].text == Strip(TextOf(seg)) && r[k].text != ""
      && Strip(r[k].text) == r[k].text
      && r[k].lang == detect(r[k].text)
  {
    var text := Strip(TextOf(seg));
    if text == "" then []
    else
      StripIdempotent(TextOf(seg));
      [Segment(detect(text), text)]
  }

  /** The segments with non-blank text, in order, stripped and tagged by `detect`. */
  function ValidatedBy(segs: seq<RawSegment>, detect: string -> string): (r: seq<Segment>)
    ensures |r| <= |segs|
    ensures forall k :: 0 <= k < |r| ==>
      && r[k].text != "" && Strip(r[k].text) == r[k].text
      && r[k].lang == detect(r[k].text)
  {
    if segs == [] then [] else ValidatedBy(segs[..|segs| - 1], detect) + Step(segs[|segs| - 1], detect)
  }

  /**
   * `validate_segment_languages` as a function of its input: the segments
   * with non-blank text, in order, stripped and tagged with the language
   * `DetectTextLanguage` finds; the incoming tag never survives on its own.
   */
  function Validated(segs: seq<RawSegment>): (r: seq<Segment>)
    ensures |r| <= |segs|
    ensures forall k :: 0 <= k < |r| ==>
      && r[k].text != "" && Strip(r[k].text) == r[k].text
      && r[k].lang == DetectTextLanguage(r[k].text)
  {
    ValidatedBy(segs, DetectTextLanguage)
  }

  /** The loop of `validate_segment_languages`. */
  method ValidateSegmentLanguages(segments: seq<RawSegment>) returns (validated: seq<Segment>)
    ensures validated == Validated(segments)
  {
    validated := [];
    for i := 0 to |segments|
      invariant validated == ValidatedBy(segments[..i], DetectTextLanguage)
    {
      var segment := segments[i];
      assert segments[..i + 1][..i] == segments[..i];
      var lang := segment.lang.GetOr(FR);
      var text := Strip(segment.text.GetOr(""));
      if text == "" {
        continue;
      }
      var detected := DetectTextLanguage(text);
      if detected != lang {
        lang := detected;
      }
      validated := validated + [Segment(lang, text)];
    }
    assert segments[..|segments|] == segments;
  }

  lemma ValidatedSnoc(segs: seq<RawSegment>, seg: RawSegment, detect: string -> string)
    ensures ValidatedBy(segs + [seg], detect) == ValidatedBy(segs, detect) + Step(seg, detect)
  {
    assert (segs + [seg])[..|segs|] == segs;
  }

  /** The indices of the input segments that validation keeps. */
  function KeptIndices(segs: seq<RawSegment>): seq<nat> {
    if segs == [] then []
    else KeptIndices(segs[..|segs| - 1]) + (if Strip(TextOf(segs[|segs| - 1])) == "" then [] else [|segs| - 1])
  }

  /** The kept indices are increasing, and are exactly those of the segments with non-blank text. */
  lemma {:induction false} KeptIndicesExact(segs: seq<RawSegment>)
    ensures forall k, l :: 0 <= k < l < |KeptIndices(segs)| ==> KeptIndices(segs)[k] < KeptIndices(segs)[l]
    ensures forall i :: i in KeptIndices(segs) <==> 0 <= i < |segs| && Strip(TextOf(segs[i])) != ""
  {
    KeptIndicesMembers(segs);
    if segs != [] {
      var n := |segs| - 1;
      var pre := segs[..n];
      KeptIndicesExact(pre);
      KeptIndicesIncreasing(KeptIndices(pre), n, KeptIndices(segs));
    }
  }

  /** Appending an index above all earlier ones keeps a sequence increasing. */
  lemma KeptIndicesIncreasing(ipre: seq<nat>, n: nat, idx: seq<nat>)
    requires forall k, l :: 0 <= k < l < |ipre| ==> ipre[k] < ipre[l]
    requires forall i :: i in ipre ==> i < n
    requires idx == ipre || idx == ipre + [n]
    ensures forall k, l :: 0 <= k < l < |idx| ==> idx[k] < idx[l]
  {
    forall k, l | 0 <= k < l < |idx| ensures idx[k] < idx[l] {
      if l >= |ipre| {
        assert idx[k] == ipre[k] && idx[l] == n;
        assert ipre[k] in ipre;
      }
    }
  }

  lemma {:induction false} KeptIndicesMembers(segs: seq<RawSegment>)
    ensures forall i :: i in KeptIndices(segs) <==> 0 <= i < |segs| && Strip(TextOf(segs[i])) != ""
  {
    if segs != [] {
      var n := |segs| - 1;
      var pre := segs[..n];
      KeptIndicesMembers(pre);
      var tail: seq<nat> := if Strip(TextOf(segs[n])) == "" then [] else [n];
      assert KeptIndices(segs) == KeptIndices(pre) + tail;
      SnocMembers(KeptIndices(pre), tail, pre, segs);
    }
  }

  lemma SnocMembers(ipre: seq<nat>, tail: seq<nat>, pre: seq<RawSegment>, segs: seq<RawSegment>)
    requires |segs| > 0 && pre == segs[..|segs| - 1]
    requires forall i :: i in ipre <==> 0 <= i < |pre| && Strip(TextOf(pre[i])) != ""
    requires tail == if Strip(TextOf(segs[|pre|])) == "" then [] else [|pre|]
    ensures forall i :: i in ipre + tail <==> 0 <= i < |segs| && Strip(TextOf(segs[i])) != ""
  {
    forall i ensures i in ipre + tail <==> 0 <= i < |segs| && Strip(TextOf(segs[i])) != "" {
      assert i in ipre + tail <==> i in ipre || i in tail;
      if 0 <= i < |pre| {
        assert segs[i] == pre[i];
      }
    }
  }

  /** One output segment per kept index. */
  lemma {:induction false} ValidatedLengthIsKept(segs: seq<RawSegment>, detect: string -> string)
    ensures |KeptIndices(segs)| == |ValidatedBy(segs, detect)|
  {
    if segs != [] {
      ValidatedLengthIsKept(segs[..|segs| - 1], detect);
    }
  }

  /**
   * Validation keeps exactly the segments whose stripped text is non-empty,
   * in their original order (`KeptIndicesExact`), each carrying its stripped
   * text.
   */
  lemma {:induction false} ValidatedKeepsNonBlankInOrder(segs: seq<RawSegment>, detect: string -> string)
    ensures |KeptIndices(segs)| == |ValidatedBy(segs, detect)|
    ensures forall k :: 0 <= k < |KeptIndices(segs)| ==>
      KeptIndices(segs)[k] < |segs| && ValidatedBy(segs, detect)[k].text == Strip(TextOf(segs[KeptIndices(segs)[k]]))
  {
    ValidatedLengthIsKept(segs, detect);
    if segs != [] {
      var n := |segs| - 1;
      var pre := segs[..n];
      ValidatedKeepsNonBlankInOrder(pre, detect);
      KeptTextsSnoc(pre, segs, KeptIndices(pre), ValidatedBy(pre, detect), KeptIndices(segs), ValidatedBy(segs, detect), detect);
    }
  }

  /** The inductive step of `ValidatedKeepsNonBlankInOrder`, for the last segment. */
  lemma KeptTextsSnoc(pre: seq<RawSegment>, segs: seq<RawSegment>, ipre: seq<nat>, vpre: seq<Segment>,
                      idx: seq<nat>, out: seq<Segment>, detect: string -> string)
    requires |segs| > 0 && pre == segs[..|segs| - 1]
    requires |ipre| == |vpre| && |idx| == |out|
    requires forall k :: 0 <= k < |ipre| ==> ipre[k] < |pre| && vpre[k].text == Strip(TextOf(pre[ipre[k]]))
    requires idx == ipre + (if Strip(TextOf(segs[|pre|])) == "" then [] else [|pre|])
    requires out == vpre + Step(segs[|pre|], detect)
    ensures forall k :: 0 <= k < |idx| ==> idx[k] < |segs| && out[k].text == Strip(TextOf(segs[idx[k]]))
  {
    forall k | 0 <= k < |idx| ensures idx[k] < |segs| && out[k].text == Strip(TextOf(segs[idx[k]])) {
      if k < |ipre| {
        assert out[k] == vpre[k];
        assert segs[ipre[k]] == pre[ipre[k]];
      } else {
        assert idx[k] == |pre|;
        assert out[k] == Step(segs[|pre|], detect)[0];
      }
    }
  }

  /** A validated segment as the dictionary the next stage receives. */
  function AsRaw(out: seq<Segment>): (r: seq<RawSegment>)
    ensures |r| == |out|
    ensures forall k :: 0 <= k < |out| ==> r[k] == RawSegment(Some(out[k].lang), Some(out[k].text))
  {
    seq(|out|, k requires 0 <= k < |out| => RawSegment(Some(out[k].lang), Some(out[k].text)))
  }

  lemma AsRawConcat(a: seq<Segment>, b: seq<Segment>)
    ensures AsRaw(a + b) == AsRaw(a) + AsRaw(b)
  {
  }

  /** Validating already validated segments gives them back unchanged. */
  lemma {:induction false} ValidateIdempotent(segs: seq<RawSegment>, detect: string -> string)
    ensures ValidatedBy(AsRaw(ValidatedBy(segs, detect)), detect) == ValidatedBy(segs, detect)
  {
    if segs != [] {
      var pre := segs[..|segs| - 1];
      ValidateIdempotent(pre, detect);
      var step := Step(segs[|segs| - 1], detect);
      assert ValidatedBy(segs, detect) == ValidatedBy(pre, detect) + step;
      if step != [] {
        ValidatedAppend(ValidatedBy(pre, detect), step[0], detect);
        assert step == [step[0]];
      } else {
        assert ValidatedBy(pre, detect) + step == ValidatedBy(pre, detect);
      }
    }
  }

  /** Appending one validated segment to a fixed point of validation gives a fixed point. */
  lemma ValidatedAppend(vpre: seq<Segment>, x: Segment, detect: string -> string)
    requires ValidatedBy(AsRaw(vpre), detect) == vpre
    requires x.text != "" && Strip(x.text) == x.text && x.lang == detect(x.text)
    ensures ValidatedBy(AsRaw(vpre + [x]), detect) == vpre + [x]
  {
    var raw := RawSegment(Some(x.lang), Some(x.text));
    AsRawConcat(vpre, [x]);
    assert AsRaw([x]) == [raw];
    ValidatedSnoc(AsRaw(vpre), raw, detect);
    StepOfValidated(x, detect);
  }

  /** A validated segment, as a dictionary, validates to itself. */
  lemma StepOfValidated(x: Segment, detect: string -> string)
    requires x.text != "" && Strip(x.text) == x.text && x.lang == detect(x.text)
    ensures Step(RawSegment(Some(x.lang), Some(x.text)), detect) == [x]
  {
    var again := Step(RawSegment(Some(x.lang), Some(x.text)), detect);
    assert |again| == 1 && again[0].text == x.text && again[0].lang == x.lang;
  }

  /** Every letter of `s` is Cyrillic. */
  predicate LettersCyrillic(s: string) {
    forall m :: 0 <= m < |s| && IsAlpha(s[m]) ==> IsCyrillic(s[m])
  }

  lemma LettersCyrillicConcat(x: string, y: string)
    requires LettersCyrillic(x) && LettersCyrillic(y)
    ensures LettersCyrillic(x + y)
  {
    forall m | |x| <= m < |x + y| ensures (x + y)[m] == y[m - |x|] {}
  }

  lemma GreetingPieces(a: string, b: string, c: string)
    requires a == "Привет" && b == ", как " && c == "дела?"
    ensures LettersCyrillic(a) && LettersCyrillic(b) && LettersCyrillic(c) && IsCyrillic(a[0])
  {
  }

  /** "Привет, как дела?" is Russian: it has Cyrillic characters and no other letter. */
  lemma GreetingIsRussian(s: string)
    requires s == "Привет, как дела?"
    ensures Strip(s) == s && DetectTextLanguage(s) == RU
  {
    var a, b, c := "Привет", ", как ", "дела?";
    assert s == a + b + c;
    GreetingPieces(a, b, c);
    LettersCyrillicConcat(a, b);
    LettersCyrillicConcat(a + b, c);
    assert s[0] == a[0];
    CyrillicLettersAreRussian(s);
    StripUnchanged(s);
  }

  /** "Bonjour, comment ça va ?" has no Cyrillic character, so it is French. */
  lemma BonjourIsFrench(s: string)
    requires s == "Bonjour, comment ça va ?"
    ensures Strip(s) == s && DetectTextLanguage(s) == FR
  {
    var a, b, c := "Bonjour", ", comment", " ça va ?";
    assert s == a + b + c;
    BonjourPieces(a, b, c);
    HasCyrillicConcat(a, b);
    HasCyrillicConcat(a + b, c);
    NoCyrillicIsFrench(s);
    assert s[0] == a[0] && s[|s| - 1] == c[|c| - 1];
    StripUnchanged(s);
  }

  lemma BonjourPieces(a: string, b: string, c: string)
    requires a == "Bonjour" && b == ", comment" && c == " ça va ?"
    ensures !HasCyrillic(a) && !HasCyrillic(b) && !HasCyrillic(c)
    ensures !IsSpace(a[0]) && !IsSpace(c[|c| - 1])
  {
  }

  /** Third case of the validation script: Russian text tagged "fr" is re-tagged "ru"; the French one keeps "fr". */
  lemma RussianTaggedFrenchIsCorrected(a: string, b: string)
    requires a == "Привет, как дела?" && b == "Bonjour, comment ça va ?"
    ensures Validated([RawSegment(Some("fr"), Some(a)), RawSegment(Some("fr"), Some(b))])
         == [Segment("ru", a), Segment("fr", b)]
  {
    GreetingIsRussian(a);
    BonjourIsFrench(b);
    CleanStep(Some("fr"), a, RU);
    CleanStep(Some("fr"), b, FR);
    ValidatedPair(RawSegment(Some("fr"), Some(a)), RawSegment(Some("fr"), Some(b)));
  }

  /** A segment whose text is already stripped and non-empty keeps its text and takes the detected language. */
  lemma CleanStep(tag: Option<string>, t: string, lang: string)
    requires t != "" && Strip(t) == t && DetectTextLanguage(t) == lang
    ensures Step(RawSegment(tag, Some(t)), DetectTextLanguage) == [Segment(lang, t)]
  {
  }

  /** Validating two segments is their two steps, in order. */
  lemma ValidatedPair(s0: RawSegment, s1: RawSegment)
    ensures Validated([s0, s1]) == Step(s0, DetectTextLanguage) + Step(s1, DetectTextLanguage)
  {
    var d := DetectTextLanguage;
    assert [s0, s1][..1] == [s0] && [s0][..0] == [];
    assert ValidatedBy([s0], d) == Step(s0, d);
  }

  lemma NoCyrillicPair(x: string, y: string)
    requires x == "Je suis prêt " || x == "avec des leçons "
    requires y == "à vous aider " || y == "de français."
    ensures !HasCyrillic(x + y)
  {
    assert !HasCyrillic(x) && !HasCyrillic(y);
    HasCyrillicConcat(x, y);
  }

  lemma ReadyToHelpHasNoCyrillic(a: string)
    requires a == "Je suis prêt à vous aider avec des leçons de français."
    ensures !HasCyrillic(a)
  {
    var h1, h2 := "Je suis prêt à vous aider ", "avec des leçons de français.";
    ReadyToHelpHalves(a);
    assert h1 == "Je suis prêt " + "à vous aider ";
    assert h2 == "avec des leçons " + "de français.";
    NoCyrillicPair("Je suis prêt ", "à vous aider ");
    NoCyrillicPair("avec des leçons ", "de français.");
    HasCyrillicConcat(h1, h2);
  }

  lemma ReadyToHelpHalves(a: string)
    requires a == "Je suis prêt à vous aider avec des leçons de français."
    ensures a == "Je suis prêt à vous aider " + "avec des leçons de français."
  {
  }

  lemma ReadyToHelpEnds()
    ensures var a := "Je suis prêt à vous aider avec des leçons de français.";
      |a| > 0 && a[0] == 'J' && a[|a| - 1] == '.'
  {
    var p1, p2 := "Je suis prêt à vous aider ", "avec des leçons de français.";
    assert p1[0] == 'J' && p2[|p2| - 1] == '.';
    assert p1 + p2 == "Je suis prêt à vous aider avec des leçons de français.";
  }

  /** "Je suis prêt à vous aider avec des leçons de français." is French. */
  lemma ReadyToHelpIsFrench(a: string)
    requires a == "Je suis prêt à vous aider avec des leçons de français."
    ensures Strip(a) == a && DetectTextLanguage(a) == FR
  {
    ReadyToHelpHasNoCyrillic(a);
    NoCyrillicIsFrench(a);
    ReadyToHelpEnds();
    StripUnchanged(a);
  }

  /** First case of the validation script: French text tagged "ru" is re-tagged "fr". */
  lemma FrenchTaggedRussianIsCorrected(a: string)
    requires a == "Je suis prêt à vous aider avec des leçons de français."
    ensures Validated([RawSegment(Some("ru"), Some(a))]) == [Segment("fr", a)]
  {
    ReadyToHelpIsFrench(a);
    ValidatedSnoc([], RawSegment(Some("ru"), Some(a)), DetectTextLanguage);
  }
}
