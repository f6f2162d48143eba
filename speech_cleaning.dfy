/**
 * `clean_text_for_speech`: the fixed chain of rewrites that prepares a
 * tutor answer for speech synthesis. Every `re.sub` of the chain is the
 * same left-to-right scan (`Sub`) driven by a compiled pattern: a function
 * that says where the pattern's regular expression matches at a position
 * (greedy, with the backtracking Python's engine would do) and what
 * replaces the match.
 */
module SpeechCleaning {
  import opened PyText
  import opened Values

  /** A match ends (exclusively) at `end` and is replaced by `replacement`. */
  datatype Match = Match(end: nat, replacement: string)

  /** A compiled pattern with its replacement: the match (if any) that starts at a position. */
  type Pattern = (string, nat) --> Option<Match>

  /** A match is non-empty, stays inside the text and is not shorter than its replacement. */
  predicate Proper(s: string, i: nat, r: Option<Match>) {
    r.Some? ==> i < r.value.end <= |s| && |r.value.replacement| <= r.value.end - i
  }

  /** `p` can be asked at every position of every text, and its matches are proper. */
  ghost predicate WellFormed(p: Pattern) {
    forall s: string, i: nat :: i < |s| ==> p.requires(s, i) && Proper(s, i, p(s, i))
  }

  // ---------------------------------------------------------------------
  // The patterns of lines 65-87
  // ---------------------------------------------------------------------

  /** The alternatives of the metadata label, folded to lower case, in the order they are tried. */
  const MetadataLabels: seq<string> := ["langue", "lang", "résultat", "attendu", "segment"]

  const BulletChars: string := "-*•"

  /** The first index at or after `i` that does not hold `c` (or `|s|`). */
  function SkipChar(s: string, c: char, i: nat): (k: nat)
    requires i <= |s|
    ensures i <= k <= |s|
    ensures forall m :: i <= m < k ==> s[m] == c
    ensures k < |s| ==> s[k] != c
    decreases |s| - i
  {
    if i == |s| || s[i] != c then i else SkipChar(s, c, i + 1)
  }

  /** The first index at or after `i` that is not a digit (or `|s|`). */
  function SkipDigits(s: string, i: nat): (k: nat)
    requires i <= |s|
    ensures i <= k <= |s|
    ensures forall m :: i <= m < k ==> IsDigit(s[m])
    ensures k < |s| ==> !IsDigit(s[k])
    decreases |s| - i
  {
    if i == |s| || !IsDigit(s[i]) then i else SkipDigits(s, i + 1)
  }

  /** `^` under MULTILINE: the start of the text or just after a newline. */
  predicate LineStart(s: string, i: nat) {
    i == 0 || (0 < i <= |s| && s[i - 1] == '\n')
  }

  /** `\b`: exactly one of the characters around position `i` is a word character. */
  predicate WordBoundary(s: string, i: nat) {
    (0 < i <= |s| && IsWordChar(s[i - 1])) != (i < |s| && IsWordChar(s[i]))
  }

  /** `w` (lower case) occurs at `i` when case is ignored. */
  predicate FoldedAt(s: string, i: nat, w: string) {
    i + |w| <= |s| && forall k :: 0 <= k < |w| ==> Lower(s[i + k]) == w[k]
  }

  /** The label `w` at `i`, ignoring case, then optional whitespace and a colon. */
  predicate LabelColonAt(s: string, i: nat, w: string) {
    FoldedAt(s, i, w) && SkipSpaces(s, i + |w|) < |s| && s[SkipSpaces(s, i + |w|)] == ':'
  }

  /**
   * `(l1|l2|...)\s*:\s*` at `i`: the first alternative that is followed by
   * optional whitespace and a colon wins (a later, shorter alternative is
   * tried when an earlier one matches but no colon follows it).
   */
  function LabelMatch(s: string, i: nat, labels: seq<string>): (r: Option<nat>)
    requires i <= |s|
    ensures r.Some? ==> i < r.value <= |s|
    ensures r.Some? ==> exists w :: w in labels && LabelColonAt(s, i, w) && r.value == LabelEnd(s, i, w)
    decreases |labels|
  {
    if labels == [] then None
    else if LabelColonAt(s, i, labels[0]) then Some(LabelEnd(s, i, labels[0]))
    else
      var r := LabelMatch(s, i, labels[1..]);
      assert r.Some? ==> exists w :: w in labels && LabelColonAt(s, i, w) && r.value == LabelEnd(s, i, w) by {
        if r.Some? {
          var w :| w in labels[1..] && LabelColonAt(s, i, w) && r.value == LabelEnd(s, i, w);
          assert w in labels;
        }
      }
      r
  }

  /** Where a label match ends: past the colon and the whitespace after it. */
  function LabelEnd(s: string, i: nat, w: string): nat
    requires LabelColonAt(s, i, w)
  {
    SkipSpaces(s, SkipSpaces(s, i + |w|) + 1)
  }

  /**
   * `s[i..e]` is `n` copies of `d`, a non-empty text without `d`, and `n`
   * copies of `d`.
   */
  predicate DelimitedSpan(s: string, i: nat, e: nat, d: char, n: nat) {
    && i + 2 * n < e <= |s|
    && (forall k :: i <= k < i + n ==> s[k] == d)
    && (forall k :: e - n <= k < e ==> s[k] == d)
    && d !in s[i + n..e - n]
  }

  /** `open` + `[^d]+` + `close`, where `open` and `close` are `n` copies of `d`; the group replaces the match. */
  function DelimitedAt(s: string, i: nat, d: char, n: nat): (r: Option<Match>)
    requires i < |s| && 1 <= n
    ensures r.Some? ==> DelimitedSpan(s, i, r.value.end, d, n)
    ensures r.Some? ==> i + 2 * n < r.value.end <= |s| && |r.value.replacement| <= r.value.end - i
    ensures r.Some? ==> r.value.replacement == s[i + n..r.value.end - n] && d !in r.value.replacement
    ensures r.Some? ==> s[i] == d
  {
    if i + n <= |s| && (forall k :: i <= k < i + n ==> s[k] == d) then
      var j := FindFrom(s, d, i + n);
      if j > i + n && j + n <= |s| && (forall k :: j <= k < j + n ==> s[k] == d) then
        Some(Match(j + n, s[i + n..j]))
      else None
    else None
  }

  /** Line 65, `\*\*([^*]+)\*\*`: a bold span gives way to its text. */
  function BoldAt(s: string, i: nat): (r: Option<Match>)
    requires i < |s|
    ensures Proper(s, i, r)
    ensures r.Some? ==> i + 4 < r.value.end && s[i] == '*' && r.value.replacement == s[i + 2..r.value.end - 2]
    ensures r.Some? ==> DelimitedSpan(s, i, r.value.end, '*', 2) && '*' !in r.value.replacement
  {
    DelimitedAt(s, i, '*', 2)
  }

  /** Line 66, `\*([^*]+)\*`: an italic span gives way to its text. */
  function ItalicAt(s: string, i: nat): (r: Option<Match>)
    requires i < |s|
    ensures Proper(s, i, r)
    ensures r.Some? ==> i + 2 < r.value.end && s[i] == '*' && r.value.replacement == s[i + 1..r.value.end - 1]
    ensures r.Some? ==> DelimitedSpan(s, i, r.value.end, '*', 1) && '*' !in r.value.replacement
  {
    DelimitedAt(s, i, '*', 1)
  }

  /** Line 67, `` `([^`]+)` ``: an inline-code span gives way to its text. */
  function CodeAt(s: string, i: nat): (r: Option<Match>)
    requires i < |s|
    ensures Proper(s, i, r)
    ensures r.Some? ==> i + 2 < r.value.end && s[i] == '`' && r.value.replacement == s[i + 1..r.value.end - 1]
    ensures r.Some? ==> DelimitedSpan(s, i, r.value.end, '`', 1) && '`' !in r.value.replacement
  {
    DelimitedAt(s, i, '`', 1)
  }

  /** Line 68, `#+\s*`: a run of `#` and the whitespace after it disappear. */
  function HeaderAt(s: string, i: nat): (r: Option<Match>)
    requires i < |s|
    ensures Proper(s, i, r)
    ensures r.Some? <==> s[i] == '#'
    ensures r.Some? ==> r.value.replacement == "" && r.value.end == SkipSpaces(s, SkipChar(s, '#', i))
  {
    if s[i] == '#' then Some(Match(SkipSpaces(s, SkipChar(s, '#', i)), "")) else None
  }

  /** Line 71, `^\s*[\-\*•]\s+` (MULTILINE): a bullet at the start of a line and the whitespace around it disappear. */
  function BulletAt(s: string, i: nat): (r: Option<Match>)
    requires i < |s|
    ensures Proper(s, i, r)
    ensures r.Some? ==> LineStart(s, i) && r.value.replacement == ""
    ensures r.Some? <==>
      LineStart(s, i) && SkipSpaces(s, i) + 1 < |s| && s[SkipSpaces(s, i)] in BulletChars && IsSpace(s[SkipSpaces(s, i) + 1])
    ensures r.Some? ==> r.value.end == SkipSpaces(s, SkipSpaces(s, i) + 1)
  {
    var k := SkipSpaces(s, i);
    if LineStart(s, i) && k < |s| && s[k] in BulletChars && SkipSpaces(s, k + 1) > k + 1 then
      Some(Match(SkipSpaces(s, k + 1), ""))
    else None
  }

  /** Line 72, `^\s*\d+\.\s+` (MULTILINE): a list number at the start of a line and the whitespace around it disappear. */
  function NumberAt(s: string, i: nat): (r: Option<Match>)
    requires i < |s|
    ensures Proper(s, i, r)
    ensures r.Some? ==> LineStart(s, i) && r.value.replacement == ""
    ensures r.Some? ==>
      var k := SkipSpaces(s, i);
      var d := SkipDigits(s, k);
      k < d < |s| && s[d] == '.' && r.value.end == SkipSpaces(s, d + 1) > d + 1
  {
    var k := SkipSpaces(s, i);
    var d := SkipDigits(s, k);
    if LineStart(s, i) && d > k && d < |s| && s[d] == '.' && SkipSpaces(s, d + 1) > d + 1 then
      Some(Match(SkipSpaces(s, d + 1), ""))
    else None
  }

  /** Line 75, `\([^)]*\)`: an opening parenthesis up to the first closing one disappears. */
  function ParenthesesAt(s: string, i: nat): (r: Option<Match>)
    requires i < |s|
    ensures Proper(s, i, r)
    ensures r.Some? ==> s[i] == '(' && r.value.replacement == ""
    ensures r.Some? ==> s[r.value.end - 1] == ')' && ')' !in s[i + 1..r.value.end - 1]
  {
    var j := FindFrom(s, ')', i + 1);
    if s[i] == '(' && j >= 0 then Some(Match(j + 1, "")) else None
  }

  /**
   * Line 78, `\b(Langue|Lang|Résultat|Attendu|Segment)\s*:\s*` (IGNORECASE):
   * a metadata label at a word boundary, with its colon and the whitespace
   * around it, disappears.
   */
  function MetadataAt(s: string, i: nat): (r: Option<Match>)
    requires i < |s|
    ensures Proper(s, i, r)
    ensures r.Some? ==> WordBoundary(s, i) && r.value.replacement == ""
    ensures r.Some? ==> exists w :: w in MetadataLabels && FoldedAt(s, i, w)
  {
    var e := LabelMatch(s, i, MetadataLabels);
    if WordBoundary(s, i) && e.Some? then Some(Match(e.value, "")) else None
  }

  /**
   * A match of line 78 is one of the labels, ignoring case, then optional
   * whitespace and a colon; it ends after the whitespace that follows the
   * colon.
   */
  lemma MetadataMatchShape(s: string, i: nat)
    requires i < |s| && MetadataAt(s, i).Some?
    ensures exists w :: w in MetadataLabels && LabelColonAt(s, i, w)
                        && MetadataAt(s, i).value.end == SkipSpaces(s, SkipSpaces(s, i + |w|) + 1)
  {
  }

  /** Line 84, `\s+`: a whole whitespace run becomes one space. */
  function WhitespaceAt(s: string, i: nat): (r: Option<Match>)
    requires i < |s|
    ensures Proper(s, i, r)
    ensures r.Some? <==> IsSpace(s[i])
    ensures r.Some? ==> r == Some(Match(SkipSpaces(s, i), " "))
  {
    if IsSpace(s[i]) then Some(Match(SkipSpaces(s, i), " ")) else None
  }

  /**
   * Line 87, `\n\s*\n` -> `. `: `\s*` first takes the whole whitespace run,
   * then gives back characters until a newline follows, so the match ends
   * just after the last newline of the run.
   */
  function BlankLineAt(s: string, i: nat): (r: Option<Match>)
    requires i < |s|
    ensures Proper(s, i, r)
    ensures r.Some? ==> s[i] == '\n' && s[r.value.end - 1] == '\n' && r.value.replacement == ". "
    ensures r.Some? <==> s[i] == '\n' && exists k :: i < k < SkipSpaces(s, i + 1) && s[k] == '\n'
    ensures r.Some? ==> i + 1 < r.value.end <= SkipSpaces(s, i + 1)
    ensures r.Some? ==> forall k :: i <= k < r.value.end ==> IsSpace(s[k])
    ensures r.Some? ==> forall k :: r.value.end <= k < SkipSpaces(s, i + 1) ==> s[k] != '\n'
  {
    if s[i] == '\n' then
      var p := RFindBefore(s, '\n', SkipSpaces(s, i + 1));
      if p > i then Some(Match(p + 1, ". ")) else None
    else None
  }

  // ---------------------------------------------------------------------
  // The chain
  // ---------------------------------------------------------------------

  /**
   * `re.sub(pattern, repl, s[i:])` for a pattern that never matches the
   * empty string: scan left to right, replace each match and resume after
   * it, copy every other character. No pattern of the chain lengthens the
   * text.
   */
  function Sub(p: Pattern, s: string, i: nat): (r: string)
    requires WellFormed(p) && i <= |s|
    ensures |r| <= |s| - i
    decreases |s| - i
  {
    if i == |s| then ""
    else match p(s, i)
      case Some(m) => m.replacement + Sub(p, s, m.end)
      case None => [s[i]] + Sub(p, s, i + 1)
  }

  /** `s.replace(c, '')`. */
  function DeleteChar(s: string, c: char): (r: string)
    ensures c !in r
    ensures forall d :: d != c ==> (d in r <==> d in s)
    ensures |r| <= |s|
  {
    if s == [] then ""
    else if s[0] == c then DeleteChar(s[1..], c)
    else
      assert s == [s[0]] + s[1..];
      [s[0]] + DeleteChar(s[1..], c)
  }

  /** `s.replace(a, b)` for single characters. */
  function ReplaceChar(s: string, a: char, b: char): (r: string)
    ensures |r| == |s|
    ensures forall k :: 0 <= k < |s| ==> r[k] == if s[k] == a then b else s[k]
  {
    seq(|s|, k requires 0 <= k < |s| => if s[k] == a then b else s[k])
  }

  /** Lines 65-67: bold, italic and inline-code spans give way to their text. */
  function Emphasis(text: string): (r: string)
    ensures |r| <= |text|
  {
    Sub(CodeAt, Sub(ItalicAt, Sub(BoldAt, text, 0), 0), 0)
  }

  /** Lines 68-75: headers, bullets, list numbers and parenthesised remarks disappear. */
  function Structure(t: string): (r: string)
    ensures |r| <= |t|
  {
    Sub(ParenthesesAt, Sub(NumberAt, Sub(BulletAt, Sub(HeaderAt, t, 0), 0), 0), 0)
  }

  /** Line 78: metadata labels disappear. */
  function Labels(t: string): (r: string)
    ensures |r| <= |t|
  {
    Sub(MetadataAt, t, 0)
  }

  /** Lines 65-78, in order. */
  function MarkupRemoved(text: string): string {
    Labels(Structure(Emphasis(text)))
  }

  /**
   * Lines 81-84 on the text left by the markup steps: backticks deleted,
   * the apostrophe replaced by itself (the two literals of that `replace`
   * are the same character), and every whitespace run collapsed to one
   * space.
   */
  function Flatten(u: string): (r: string)
    ensures '`' !in r && Collapsed(r)
  {
    var v := ReplaceChar(DeleteChar(u, '`'), '\'', '\'');
    WhitespaceCollapses(v, 0);
    CollapseAddsNoBacktick(v);
    Sub(WhitespaceAt, v, 0)
  }

  /** No whitespace other than single spaces, and never two in a row. */
  predicate Collapsed(s: string) {
    forall j :: 0 <= j < |s| && IsSpace(s[j]) ==> s[j] == ' ' && (j + 1 < |s| ==> !IsSpace(s[j + 1]))
  }

  /**
   * `clean_text_for_speech`: no whitespace at either end, no backtick, no
   * newline, and only single spaces between words.
   */
  function CleanTextForSpeech(text: string): (r: string)
    ensures |r| == 0 || (!IsSpace(r[0]) && !IsSpace(r[|r| - 1]))
    ensures '`' !in r && '\n' !in r
    ensures Collapsed(r)
  {
    var flat := Flatten(MarkupRemoved(text));
    NewlineStepsAreNoOps(MarkupRemoved(text));
    StripKeepsShape(flat);
    Strip(ReplaceChar(Sub(BlankLineAt, flat, 0), '\n', ' '))
  }

  // ---------------------------------------------------------------------
  // The scan
  // ---------------------------------------------------------------------

  /** Position `j` is left as it is: no match, or a one-character match replaced by itself. */
  predicate Inert(p: Pattern, s: string, j: nat)
    requires WellFormed(p) && j < |s|
  {
    p(s, j).None? || p(s, j) == Some(Match(j + 1, [s[j]]))
  }

  lemma SubStepInert(p: Pattern, s: string, i: nat)
    requires WellFormed(p) && i < |s| && Inert(p, s, i)
    ensures Sub(p, s, i) == [s[i]] + Sub(p, s, i + 1)
  {
  }

  lemma SubStepMatch(p: Pattern, s: string, i: nat, m: Match)
    requires WellFormed(p) && i < |s| && p(s, i) == Some(m)
    ensures Sub(p, s, i) == m.replacement + Sub(p, s, m.end)
  {
  }

  /** Every position in `[i, k)` is inert. */
  predicate InertRange(p: Pattern, s: string, i: nat, k: nat)
    requires WellFormed(p) && k <= |s|
    decreases k - i
  {
    i >= k || (Inert(p, s, i) && InertRange(p, s, i + 1, k))
  }

  /** A stretch of inert positions is copied unchanged. */
  lemma {:induction false} SubSkip(p: Pattern, s: string, i: nat, k: nat)
    requires WellFormed(p) && i <= k <= |s|
    requires InertRange(p, s, i, k)
    ensures Sub(p, s, i) == s[i..k] + Sub(p, s, k)
    decreases k - i
  {
    if i < k {
      var tail := Sub(p, s, k);
      SubStepInert(p, s, i);
      SubSkip(p, s, i + 1, k);
      SliceCons(s, i, k, tail);
    }
  }

  lemma SliceCons(s: string, i: nat, k: nat, tail: string)
    requires i < k <= |s|
    ensures [s[i]] + (s[i + 1..k] + tail) == s[i..k] + tail
  {
    assert s[i..k] == [s[i]] + s[i + 1..k];
  }

  lemma {:induction false} InertRangeFromAll(p: Pattern, s: string, i: nat, k: nat)
    requires WellFormed(p) && i <= k <= |s|
    requires forall j :: i <= j < k ==> Inert(p, s, j)
    ensures InertRange(p, s, i, k)
    decreases k - i
  {
    if i < k {
      InertRangeFromAll(p, s, i + 1, k);
    }
  }

  /** A text in which every position is inert comes back unchanged. */
  lemma SubUnchanged(p: Pattern, s: string)
    requires WellFormed(p)
    requires forall j :: 0 <= j < |s| ==> Inert(p, s, j)
    ensures Sub(p, s, 0) == s
  {
    InertRangeFromAll(p, s, 0, |s|);
    SubSkip(p, s, 0, |s|);
  }

  // ---------------------------------------------------------------------
  // What the whitespace collapse guarantees
  // ---------------------------------------------------------------------

  /**
   * After `\s+ -> ' '` every whitespace character is a plain space, and no
   * two whitespace characters are adjacent; a text that starts with a
   * non-space character keeps it in front.
   */
  lemma {:induction false} WhitespaceCollapses(s: string, i: nat)
    requires i <= |s|
    ensures Collapsed(Sub(WhitespaceAt, s, i))
    ensures i < |s| && !IsSpace(s[i]) ==> |Sub(WhitespaceAt, s, i)| > 0 && Sub(WhitespaceAt, s, i)[0] == s[i]
    decreases |s| - i
  {
    if i < |s| {
      var r := Sub(WhitespaceAt, s, i);
      if IsSpace(s[i]) {
        var k := SkipSpaces(s, i);
        var rest := Sub(WhitespaceAt, s, k);
        WhitespaceCollapses(s, k);
        assert r == " " + rest;
        forall j | 0 <= j < |r| && IsSpace(r[j])
          ensures r[j] == ' ' && (j + 1 < |r| ==> !IsSpace(r[j + 1]))
        {
          if j > 0 {
            assert r[j] == rest[j - 1];
          } else if j + 1 < |r| {
            assert r[1] == rest[0];
          }
        }
      } else {
        var rest := Sub(WhitespaceAt, s, i + 1);
        WhitespaceCollapses(s, i + 1);
        assert r == [s[i]] + rest;
        forall j | 0 <= j < |r| && IsSpace(r[j])
          ensures r[j] == ' ' && (j + 1 < |r| ==> !IsSpace(r[j + 1]))
        {
          assert j > 0;
          assert r[j] == rest[j - 1];
        }
      }
    }
  }

  /** The collapse writes only characters of the text and the space it puts for each run. */
  lemma {:induction false} WhitespaceChars(s: string, i: nat, c: char)
    requires i <= |s|
    requires c in Sub(WhitespaceAt, s, i)
    ensures c in s[i..] || c == ' '
    decreases |s| - i
  {
    if i < |s| {
      if IsSpace(s[i]) {
        if c != ' ' {
          var k := SkipSpaces(s, i);
          WhitespaceChars(s, k, c);
          assert s[k..] == s[i..][k - i..];
        }
      } else if c != s[i] {
        WhitespaceChars(s, i + 1, c);
        assert s[i + 1..] == s[i..][1..];
      } else {
        assert s[i] == s[i..][0];
      }
    }
  }

  /** The collapse brings no backtick into a text without one. */
  lemma CollapseAddsNoBacktick(v: string)
    requires '`' !in v
    ensures '`' !in Sub(WhitespaceAt, v, 0)
  {
    if '`' in Sub(WhitespaceAt, v, 0) {
      WhitespaceChars(v, 0, '`');
    }
  }

  /** In a collapsed text `\n` cannot occur: it is whitespace, and the only whitespace left is `' '`. */
  lemma CollapsedHasNoNewline(s: string)
    requires Collapsed(s)
    ensures '\n' !in s
  {
    if '\n' in s {
      var j :| 0 <= j < |s| && s[j] == '\n';
      assert IsSpace(s[j]);
    }
  }

  /** `\n\s*\n` finds nothing in a text without `\n`. */
  lemma BlankLinesInert(s: string)
    requires '\n' !in s
    ensures Sub(BlankLineAt, s, 0) == s
  {
    forall j | 0 <= j < |s| ensures Inert(BlankLineAt, s, j) {
      assert s[j] in s;
    }
    SubUnchanged(BlankLineAt, s);
  }

  /**
   * Lines 87-88 change nothing: the collapse at line 84 has already turned
   * every newline into a space, and no step after line 81 brings a
   * backtick back.
   */
  lemma NewlineStepsAreNoOps(u: string)
    ensures '\n' !in Flatten(u) && '`' !in Flatten(u) && Collapsed(Flatten(u))
    ensures Sub(BlankLineAt, Flatten(u), 0) == Flatten(u)
    ensures ReplaceChar(Flatten(u), '\n', ' ') == Flatten(u)
  {
    var flat := Flatten(u);
    CollapsedHasNoNewline(flat);
    BlankLinesInert(flat);
    assert ReplaceChar(flat, '\n', ' ') == flat by {
      forall k | 0 <= k < |flat| ensures flat[k] != '\n' {
        assert flat[k] in flat;
      }
    }
  }

  /** Stripping keeps a collapsed, backtick-free text so. */
  lemma StripKeepsShape(s: string)
    requires Collapsed(s) && '`' !in s && '\n' !in s
    ensures Collapsed(Strip(s)) && '`' !in Strip(s) && '\n' !in Strip(s)
  {
    var r := Strip(s);
    var a, b :| 0 <= a <= b <= |s| && r == s[a..b] && AllSpace(s[..a]) && AllSpace(s[b..]);
    forall j | 0 <= j < |r| ensures r[j] == s[a + j] && r[j] in s {
      assert s[a + j] in s;
    }
  }

  lemma CollapsedConcat(x: string, y: string)
    requires Collapsed(x) && Collapsed(y)
    requires |x| == 0 || |y| == 0 || !IsSpace(x[|x| - 1]) || !IsSpace(y[0])
    ensures Collapsed(x + y)
  {
    var s := x + y;
    forall j | 0 <= j < |s| && IsSpace(s[j])
      ensures s[j] == ' ' && (j + 1 < |s| ==> !IsSpace(s[j + 1]))
    {
      if j < |x| {
        if j + 1 < |x| {
          assert s[j + 1] == x[j + 1];
        } else if j + 1 < |s| {
          assert s[j + 1] == y[0];
        }
      } else {
        assert s[j] == y[j - |x|];
        if j + 1 < |s| {
          assert s[j + 1] == y[j + 1 - |x|];
        }
      }
    }
  }

  // ---------------------------------------------------------------------
  // When a step has nothing to do
  // ---------------------------------------------------------------------

  /** Without `*` and `` ` `` lines 65-67 change nothing. */
  lemma EmphasisAbsent(s: string)
    requires '*' !in s && '`' !in s
    ensures Emphasis(s) == s
  {
    BoldAbsent(s);
    ItalicAbsent(s);
    CodeAbsent(s);
  }

  /** Line 65 finds nothing in a text without `*`. */
  lemma BoldAbsent(s: string)
    requires '*' !in s
    ensures Sub(BoldAt, s, 0) == s
  {
    forall j | 0 <= j < |s| ensures Inert(BoldAt, s, j) {
      assert s[j] in s;
    }
    SubUnchanged(BoldAt, s);
  }

  /** Line 66 finds nothing in a text without `*`. */
  lemma ItalicAbsent(s: string)
    requires '*' !in s
    ensures Sub(ItalicAt, s, 0) == s
  {
    forall j | 0 <= j < |s| ensures Inert(ItalicAt, s, j) {
      assert s[j] in s;
    }
    SubUnchanged(ItalicAt, s);
  }

  /** Line 67 finds nothing in a text without `` ` ``. */
  lemma CodeAbsent(s: string)
    requires '`' !in s
    ensures Sub(CodeAt, s, 0) == s
  {
    forall j | 0 <= j < |s| ensures Inert(CodeAt, s, j) {
      assert s[j] in s;
    }
    SubUnchanged(CodeAt, s);
  }

  /** Line 68 finds nothing in a text without `#`. */
  lemma HeadersAbsent(s: string)
    requires '#' !in s
    ensures Sub(HeaderAt, s, 0) == s
  {
    forall j | 0 <= j < |s| ensures Inert(HeaderAt, s, j) {
      assert s[j] in s;
    }
    SubUnchanged(HeaderAt, s);
  }

  /** Line 71 finds nothing in a text without a bullet character. */
  lemma BulletsAbsent(s: string)
    requires '-' !in s && '*' !in s && '•' !in s
    ensures Sub(BulletAt, s, 0) == s
  {
    forall j | 0 <= j < |s| ensures Inert(BulletAt, s, j) {
      var k := SkipSpaces(s, j);
      if k < |s| {
        assert s[k] in s;
      }
    }
    SubUnchanged(BulletAt, s);
  }

  /** Line 72 finds nothing in a text without `.`. */
  lemma NumbersAbsent(s: string)
    requires '.' !in s
    ensures Sub(NumberAt, s, 0) == s
  {
    forall j | 0 <= j < |s| ensures Inert(NumberAt, s, j) {
    }
    SubUnchanged(NumberAt, s);
  }

  /** Line 75 finds nothing in a text without `(`. */
  lemma ParenthesesAbsent(s: string)
    requires '(' !in s
    ensures Sub(ParenthesesAt, s, 0) == s
  {
    forall j | 0 <= j < |s| ensures Inert(ParenthesesAt, s, j) {
      assert s[j] in s;
    }
    SubUnchanged(ParenthesesAt, s);
  }

  /** Without `#`, bullet characters, `.` or `(`, lines 68-75 change nothing. */
  lemma StructureAbsent(s: string)
    requires '#' !in s && '-' !in s && '*' !in s && '•' !in s && '.' !in s && '(' !in s
    ensures Structure(s) == s
  {
    HeadersAbsent(s);
    BulletsAbsent(s);
    NumbersAbsent(s);
    ParenthesesAbsent(s);
  }

  /** Line 78 finds nothing in a text without `:`. */
  lemma LabelsAbsent(s: string)
    requires ':' !in s
    ensures Labels(s) == s
  {
    forall j | 0 <= j < |s| ensures Inert(MetadataAt, s, j) {
    }
    SubUnchanged(MetadataAt, s);
  }

  /** Line 84 leaves a collapsed text alone. */
  lemma CollapsedUnchanged(s: string)
    requires Collapsed(s)
    ensures Sub(WhitespaceAt, s, 0) == s
  {
    forall j | 0 <= j < |s| ensures Inert(WhitespaceAt, s, j) {
      if IsSpace(s[j]) {
        assert SkipSpaces(s, j) == j + 1;
      }
    }
    SubUnchanged(WhitespaceAt, s);
  }

  lemma {:induction false} DeleteAbsent(s: string, c: char)
    requires c !in s
    ensures DeleteChar(s, c) == s
  {
    if s != [] {
      assert s[0] in s;
      assert forall d :: d in s[1..] ==> d in s;
      DeleteAbsent(s[1..], c);
    }
  }

  /** Without backticks, lines 81-84 amount to the whitespace collapse alone. */
  lemma FlattenBacktickFree(u: string)
    requires '`' !in u
    ensures Flatten(u) == Sub(WhitespaceAt, u, 0)
  {
    DeleteAbsent(u, '`');
    assert ReplaceChar(u, '\'', '\'') == u;
  }

  /** The whole pipeline is the markup steps, the flattening, and `strip`. */
  lemma CleanIsStripOfFlatten(text: string)
    ensures CleanTextForSpeech(text) == Strip(Flatten(MarkupRemoved(text)))
  {
    NewlineStepsAreNoOps(MarkupRemoved(text));
  }

  /**
   * A text the markup steps turn into `u`, where `u` has no backtick, is
   * already collapsed and has no whitespace at either end, is cleaned to `u`.
   */
  lemma CleanOfPlain(text: string, u: string)
    requires MarkupRemoved(text) == u
    requires '`' !in u && Tidy(u)
    ensures CleanTextForSpeech(text) == u
  {
    CleanIsStripOfFlatten(text);
    FlattenBacktickFree(u);
    CollapsedUnchanged(u);
    StripUnchanged(u);
  }

  // ---------------------------------------------------------------------
  // One whole span
  // ---------------------------------------------------------------------

  /**
   * Lines 65-67 find every delimited span: when one starts at `i`, it is
   * the match there (its closing run is the first `d` after the opening one,
   * so no other end is possible).
   */
  lemma DelimitedSpanMatches(s: string, i: nat, e: nat, d: char, n: nat)
    requires i < |s| && 1 <= n && DelimitedSpan(s, i, e, d, n)
    ensures DelimitedAt(s, i, d, n) == Some(Match(e, s[i + n..e - n]))
  {
    FindFromFirst(s, d, i + n, e - n);
  }

  /** A run of `n` copies of `d` at `i`, text without `d`, and `n` copies of `d` ending the string match as a whole. */
  lemma DelimitedWhole(s: string, i: nat, n: nat, d: char)
    requires 1 <= n && i + n < |s| - n
    requires forall k :: i <= k < i + n ==> s[k] == d
    requires forall k :: |s| - n <= k < |s| ==> s[k] == d
    requires d !in s[i + n..|s| - n]
    ensures DelimitedAt(s, i, d, n) == Some(Match(|s|, s[i + n..|s| - n]))
  {
    DelimitedSpanMatches(s, i, |s|, d, n);
  }

  lemma BoldShape(z: string)
    ensures var s := "**" + z + "**";
      |s| == |z| + 4 && s[2..|s| - 2] == z
      && s[0] == '*' && s[1] == '*' && s[|s| - 2] == '*' && s[|s| - 1] == '*'
  {
  }

  /** Line 65 on one bold span: `**z**` becomes `z`. */
  lemma BoldSpan(z: string)
    requires |z| > 0 && '*' !in z
    ensures Sub(BoldAt, "**" + z + "**", 0) == z
  {
    var s := "**" + z + "**";
    BoldShape(z);
    DelimitedWhole(s, 0, 2, '*');
    SubStepMatch(BoldAt, s, 0, Match(|s|, z));
  }

  /** Line 67 on a code span after plain text: `x` + `` `z` `` becomes `x + z`. */
  lemma CodeSpan(x: string, z: string)
    requires |z| > 0 && '`' !in z && '`' !in x
    ensures Sub(CodeAt, x + "`" + z + "`", 0) == x + z
  {
    var t := "`" + z + "`";
    var s := x + t;
    assert x + "`" + z + "`" == s;
    CodeFreePrefixInert(x, t);
    CodeSpanMatch(x, z);
    SubPrefixThenMatch(CodeAt, s, |x|, Match(|s|, z));
    assert s[..|x|] == x;
  }

  /** The backticked `z` after `x` is one inline-code match that reaches the end. */
  lemma CodeSpanMatch(x: string, z: string)
    requires |z| > 0 && '`' !in z
    ensures var s := x + ("`" + z + "`"); CodeAt(s, |x|) == Some(Match(|s|, z))
  {
    var s := x + ("`" + z + "`");
    assert s[|x| + 1..|s| - 1] == z;
    assert s[|x|] == s[|s| - 1] == '`';
    DelimitedWhole(s, |x|, 1, '`');
  }

  /** Inert positions up to `k`, then one match that reaches the end of the text. */
  lemma SubPrefixThenMatch(p: Pattern, s: string, k: nat, m: Match)
    requires WellFormed(p) && k < |s| && InertRange(p, s, 0, k)
    requires p(s, k) == Some(m) && m.end == |s|
    ensures Sub(p, s, 0) == s[..k] + m.replacement
  {
    SubSkip(p, s, 0, k);
    SubStepMatch(p, s, k, m);
    assert Sub(p, s, |s|) == "";
    assert s[0..k] == s[..k];
  }

  /** No inline-code match starts inside a prefix without backticks. */
  lemma CodeFreePrefixInert(x: string, t: string)
    requires '`' !in x
    ensures InertRange(CodeAt, x + t, 0, |x|)
  {
    var s := x + t;
    forall j | 0 <= j < |x| ensures Inert(CodeAt, s, j) {
      assert s[j] == x[j];
      assert x[j] in x;
    }
    InertRangeFromAll(CodeAt, s, 0, |x|);
  }

  /** Line 75 on one parenthesised remark: `(z)` disappears. */
  lemma ParenthesesSpan(z: string)
    requires ')' !in z
    ensures Sub(ParenthesesAt, "(" + z + ")", 0) == ""
  {
    var s := "(" + z + ")";
    var close := 1 + |z|;
    assert s[close] == ')';
    assert s[1..close] == z;
    FindFromFirst(s, ')', 1, close);
    SubStepMatch(ParenthesesAt, s, 0, Match(|s|, ""));
  }

  /** In a collapsed stretch that is not followed by whitespace, line 84 leaves every position alone. */
  lemma CollapsedStretchInert(s: string, lo: nat, hi: nat)
    requires lo <= hi <= |s| && Collapsed(s[lo..hi])
    requires hi == |s| || (lo < hi && !IsSpace(s[hi - 1]))
    ensures InertRange(WhitespaceAt, s, lo, hi)
  {
    forall j | lo <= j < hi ensures Inert(WhitespaceAt, s, j) {
      assert s[j] == s[lo..hi][j - lo];
      if IsSpace(s[j]) {
        if j + 1 < hi {
          assert s[j + 1] == s[lo..hi][j + 1 - lo];
        }
        assert SkipSpaces(s, j) == j + 1;
      }
    }
    InertRangeFromAll(WhitespaceAt, s, lo, hi);
  }

  /** From the start of a whitespace gap that a collapsed word follows, line 84 writes one space and the word. */
  lemma GapThenWord(s: string, a: nat, m: nat)
    requires a < m < |s| && AllSpace(s[a..m]) && !IsSpace(s[m])
    requires Collapsed(s[m..])
    ensures Sub(WhitespaceAt, s, a) == " " + s[m..]
  {
    forall k | a <= k < m ensures IsSpace(s[k]) {
      assert s[k] == s[a..m][k - a];
    }
    SkipSpacesTo(s, a, m);
    SubStepMatch(WhitespaceAt, s, a, Match(m, " "));
    CollapsedStretchInert(s, m, |s|);
    SubSkip(WhitespaceAt, s, m, |s|);
  }

  /**
   * Line 84 on two collapsed words around a whitespace gap: the gap, blank
   * lines included, becomes one space.
   */
  lemma WhitespaceGap(x: string, g: string, y: string)
    requires |x| > 0 && |y| > 0 && |g| > 0 && AllSpace(g)
    requires Collapsed(x) && Collapsed(y) && !IsSpace(x[|x| - 1]) && !IsSpace(y[0])
    ensures Sub(WhitespaceAt, x + g + y, 0) == x + " " + y
  {
    var s := x + g + y;
    var m := |x| + |g|;
    assert s[0..|x|] == x;
    assert s[|x|..m] == g;
    assert s[m..] == y;
    CollapsedStretchInert(s, 0, |x|);
    SubSkip(WhitespaceAt, s, 0, |x|);
    GapThenWord(s, |x|, m);
  }

  // ---------------------------------------------------------------------
  // The cleaning fixtures of test_improved_detection.py
  // ---------------------------------------------------------------------

  /** No whitespace at either end and only single spaces inside. */
  predicate Tidy(s: string) {
    Collapsed(s) && (|s| == 0 || (!IsSpace(s[0]) && !IsSpace(s[|s| - 1])))
  }

  /** Printable ASCII, and the letters from Latin-1 up to the end of the Cyrillic block: never whitespace. */
  predicate Visible(c: char) {
    ('!' <= c <= '~') || ('\U{C0}' <= c <= '\U{4FF}')
  }

  predicate AllVisible(s: string) {
    forall k :: 0 <= k < |s| ==> Visible(s[k])
  }

  /** No character of `s` is one of `bad`. */
  predicate NoneOf(s: string, bad: string) {
    forall k :: 0 <= k < |s| ==> s[k] !in bad
  }

  /** The characters without which no step of lines 65-78 can match. */
  const MarkupChars: string := "*`#-•.(:"

  lemma Excluded(s: string, bad: string)
    requires NoneOf(s, bad)
    ensures forall c :: c in bad ==> c !in s
  {
  }

  lemma NoneOfConcat(x: string, y: string, bad: string)
    requires NoneOf(x, bad) && NoneOf(y, bad)
    ensures NoneOf(x + y, bad)
  {
    forall k | 0 <= k < |x + y| ensures (x + y)[k] !in bad {
      if k >= |x| {
        assert (x + y)[k] == y[k - |x|];
      }
    }
  }

  /** A single word of visible characters is tidy. */
  lemma WordTidy(w: string)
    requires AllVisible(w)
    ensures Tidy(w)
  {
  }

  /** A tidy text, one space and a word of visible characters make a tidy text. */
  lemma JoinTidy(x: string, y: string)
    requires Tidy(x) && |x| > 0 && AllVisible(y) && |y| > 0
    ensures Tidy(x + " " + y)
  {
    CollapsedConcat(x, " ");
    CollapsedConcat(x + " ", y);
    assert (x + " " + y)[0] == x[0];
  }

  /** Lines 65-78 leave a text without markup characters unchanged. */
  lemma MarkupAbsent(s: string)
    requires NoneOf(s, MarkupChars)
    ensures MarkupRemoved(s) == s
  {
    Excluded(s, MarkupChars);
    assert '*' in MarkupChars && '`' in MarkupChars && '#' in MarkupChars && '-' in MarkupChars;
    assert '•' in MarkupChars && '.' in MarkupChars && '(' in MarkupChars && ':' in MarkupChars;
    EmphasisAbsent(s);
    StructureAbsent(s);
    LabelsAbsent(s);
  }

  /** A tidy text without markup characters, in bold, is cleaned to itself. */
  lemma CleanBoldText(z: string)
    requires |z| > 0 && NoneOf(z, MarkupChars) && Tidy(z)
    ensures CleanTextForSpeech("**" + z + "**") == z
  {
    Excluded(z, MarkupChars);
    assert '*' in MarkupChars && '`' in MarkupChars;
    BoldSpan(z);
    BoldAbsent(z);
    MarkupAbsent(z);
    CleanOfPlain("**" + z + "**", z);
  }

  /** The characters that would make one of lines 65-75 match. */
  const StructureChars: string := "*`#-•.("

  /** Plain text followed by a code span loses the backticks and then only meets line 78. */
  lemma CodeTextMarkup(x: string, z: string)
    requires |z| > 0 && NoneOf(x, StructureChars) && NoneOf(z, StructureChars)
    ensures MarkupRemoved(x + "`" + z + "`") == Labels(x + z)
  {
    var s := x + "`" + z + "`";
    Excluded(x, StructureChars);
    Excluded(z, StructureChars);
    assert '*' in StructureChars && '`' in StructureChars && '#' in StructureChars && '-' in StructureChars;
    assert '•' in StructureChars && '.' in StructureChars && '(' in StructureChars;
    assert '*' !in s;
    BoldAbsent(s);
    ItalicAbsent(s);
    CodeSpan(x, z);
    StructureAbsent(x + z);
  }

  /** Two tidy texts without markup around a gap of whitespace are cleaned to the two joined by one space. */
  lemma CleanGapText(x: string, g: string, y: string)
    requires |x| > 0 && |g| > 0 && |y| > 0 && AllSpace(g)
    requires NoneOf(x, MarkupChars) && NoneOf(g, MarkupChars) && NoneOf(y, MarkupChars)
    requires Tidy(x) && Tidy(y)
    ensures CleanTextForSpeech(x + g + y) == x + " " + y
  {
    var s := x + g + y;
    NoneOfConcat(x, g, MarkupChars);
    NoneOfConcat(x + g, y, MarkupChars);
    MarkupAbsent(s);
    Excluded(s, MarkupChars);
    assert '`' in MarkupChars;
    CleanIsStripOfFlatten(s);
    FlattenBacktickFree(s);
    WhitespaceGap(x, g, y);
    var r := x + " " + y;
    assert r[0] == x[0] && r[|r| - 1] == y[|y| - 1];
    StripUnchanged(r);
  }

  /** The characters that would make one of lines 65-72 match, and the closing parenthesis. */
  const RemarkChars: string := "*`#-•.)"

  /** A parenthesised remark on its own is cleaned away entirely. */
  lemma CleanRemarkText(z: string)
    requires NoneOf(z, RemarkChars)
    ensures CleanTextForSpeech("(" + z + ")") == ""
  {
    var s := "(" + z + ")";
    Excluded(z, RemarkChars);
    assert '*' in RemarkChars && '`' in RemarkChars && '#' in RemarkChars && '-' in RemarkChars;
    assert '•' in RemarkChars && '.' in RemarkChars && ')' in RemarkChars;
    assert '*' !in s && '`' !in s && '#' !in s && '-' !in s && '•' !in s && '.' !in s;
    EmphasisAbsent(s);
    HeadersAbsent(s);
    BulletsAbsent(s);
    NumbersAbsent(s);
    ParenthesesSpan(z);
    CleanOfPlain(s, "");
  }

  /** A position at which no label occurs, case ignored, starts no match of the alternation. */
  lemma {:induction false} NoLabelFolded(s: string, j: nat, labels: seq<string>)
    requires j <= |s|
    requires forall w :: w in labels ==> !FoldedAt(s, j, w)
    ensures LabelMatch(s, j, labels).None?
    decreases |labels|
  {
    if labels != [] {
      assert labels[0] in labels;
      assert forall w :: w in labels[1..] ==> w in labels;
      NoLabelFolded(s, j, labels[1..]);
    }
  }

  /** Every metadata label begins with `l`, `r`, `a` or `s`: a character that is none of them, in either case, starts no match of line 78. */
  lemma NoMetadataWithoutInitial(s: string, j: nat)
    requires j < |s| && s[j] !in "lLrRaAsS"
    ensures MetadataAt(s, j).None?
  {
    forall w | w in MetadataLabels ensures !FoldedAt(s, j, w) {
      assert Lower(s[j]) != w[0];
    }
    NoLabelFolded(s, j, MetadataLabels);
  }

  /** Every metadata label has at least four letters: none fits in the last three characters. */
  lemma NoLabelNearEnd(s: string, j: nat)
    requires j < |s| < j + 4
    ensures MetadataAt(s, j).None?
  {
    forall w | w in MetadataLabels ensures !FoldedAt(s, j, w) {
      assert |w| >= 4;
    }
    NoLabelFolded(s, j, MetadataLabels);
  }

  /** Line 78 leaves a text alone whose only label initial is a first letter that starts no label. */
  lemma LabelsOnlyFirst(u: string)
    requires |u| > 0 && MetadataAt(u, 0).None? && NoneOf(u[1..], "lLrRaAsS")
    ensures Labels(u) == u
  {
    forall j | 0 <= j < |u| ensures Inert(MetadataAt, u, j) {
      if j > 0 {
        assert u[j] == u[1..][j - 1];
        NoMetadataWithoutInitial(u, j);
      }
    }
    SubUnchanged(MetadataAt, u);
  }

  /** Line 65 finds nothing in a star, star-free text, a star and star-free text: no two stars are adjacent. */
  lemma BoldAbsentBetweenStars(a: string, b: string)
    requires |a| > 0 && '*' !in a && '*' !in b
    ensures Sub(BoldAt, "*" + a + "*" + b, 0) == "*" + a + "*" + b
  {
    var s := "*" + a + "*" + b;
    forall j | 0 <= j < |s| ensures Inert(BoldAt, s, j) {
      if j + 1 < |s| {
        if j == 0 {
          assert s[1] == a[0] && a[0] in a;
        } else if j <= |a| {
          assert s[j] == a[j - 1] && a[j - 1] in a;
        } else if j == |a| + 1 {
          assert s[j + 1] == b[0] && b[0] in b;
        } else {
          assert s[j] == b[j - |a| - 2] && b[j - |a| - 2] in b;
        }
        assert s[j] != '*' || s[j + 1] != '*';
      }
    }
    SubUnchanged(BoldAt, s);
  }

  /** Line 66 on a star, star-free text, a star and star-free text: the first span gives way to its text. */
  lemma ItalicThenPlain(a: string, b: string)
    requires |a| > 0 && '*' !in a && '*' !in b
    ensures Sub(ItalicAt, "*" + a + "*" + b, 0) == a + b
  {
    var s := "*" + a + "*" + b;
    var e := |a| + 2;
    assert s[1..e - 1] == a;
    assert s[0] == '*' && s[e - 1] == '*';
    assert DelimitedSpan(s, 0, e, '*', 1);
    DelimitedSpanMatches(s, 0, e, '*', 1);
    SubStepMatch(ItalicAt, s, 0, Match(e, a));
    forall j | e <= j < |s| ensures Inert(ItalicAt, s, j) {
      assert s[j] == b[j - e];
      assert b[j - e] in b;
    }
    InertRangeFromAll(ItalicAt, s, e, |s|);
    SubSkip(ItalicAt, s, e, |s|);
    assert s[e..|s|] == b;
  }

  /** Lines 65-67 on two stars around text free of markup characters: the stars go, the texts stay. */
  lemma EmphasisBetweenStars(a: string, b: string)
    requires |a| > 0 && NoneOf(a, MarkupChars) && NoneOf(b, MarkupChars)
    ensures Emphasis("*" + a + "*" + b) == a + b
    ensures NoneOf(a + b, MarkupChars)
  {
    Excluded(a, MarkupChars);
    Excluded(b, MarkupChars);
    assert '*' in MarkupChars && '`' in MarkupChars;
    BoldAbsentBetweenStars(a, b);
    ItalicThenPlain(a, b);
    NoneOfConcat(a, b, MarkupChars);
    Excluded(a + b, MarkupChars);
    CodeAbsent(a + b);
  }

  /** Without markup characters, lines 68-78 change nothing. */
  lemma LaterStepsAbsent(u: string)
    requires NoneOf(u, MarkupChars)
    ensures Labels(Structure(u)) == u
  {
    Excluded(u, MarkupChars);
    assert '*' in MarkupChars && '#' in MarkupChars && '-' in MarkupChars;
    assert '•' in MarkupChars && '.' in MarkupChars && '(' in MarkupChars && ':' in MarkupChars;
    StructureAbsent(u);
    LabelsAbsent(u);
  }

  /** The markup steps on two list items written `* x` and `* y` on two lines: the two stars read as one italic span. */
  lemma StarListMarkup(x: string, y: string)
    requires |x| > 0 && NoneOf(x, MarkupChars) && NoneOf(y, MarkupChars)
    ensures MarkupRemoved("*" + (" " + x + "\n") + "*" + (" " + y)) == (" " + x) + "\n " + y
  {
    var a, b := " " + x + "\n", " " + y;
    assert NoneOf(" ", MarkupChars) && NoneOf("\n", MarkupChars);
    NoneOfConcat(" ", x, MarkupChars);
    NoneOfConcat(" " + x, "\n", MarkupChars);
    NoneOfConcat(" ", y, MarkupChars);
    EmphasisBetweenStars(a, b);
    LaterStepsAbsent(a + b);
    StarListRegroup(x, y);
  }

  /** Lines 81-84 on what is left of the two items: the line break and the space after it become one space. */
  lemma StarListFlat(x: string, y: string)
    requires |x| > 0 && |y| > 0 && Tidy(x) && Tidy(y)
    requires NoneOf(x, MarkupChars) && NoneOf(y, MarkupChars)
    ensures Flatten((" " + x) + "\n " + y) == " " + (x + " " + y)
  {
    var x' := " " + x;
    var u := x' + "\n " + y;
    assert NoneOf(" ", MarkupChars) && NoneOf("\n ", MarkupChars);
    NoneOfConcat(" ", x, MarkupChars);
    NoneOfConcat(x', "\n ", MarkupChars);
    NoneOfConcat(x' + "\n ", y, MarkupChars);
    Excluded(u, MarkupChars);
    assert '`' in MarkupChars;
    FlattenBacktickFree(u);
    CollapsedConcat(" ", x);
    assert AllSpace("\n ");
    WhitespaceGap(x', "\n ", y);
    StarListRegroup(x, y);
  }

  /**
   * Two list items written `* x` and `* y` on two lines: the two stars read
   * as one italic span, and what is left is the two items around one space.
   */
  lemma CleanStarListText(x: string, y: string)
    requires |x| > 0 && |y| > 0 && Tidy(x) && Tidy(y)
    requires NoneOf(x, MarkupChars) && NoneOf(y, MarkupChars)
    ensures CleanTextForSpeech("*" + (" " + x + "\n") + "*" + (" " + y)) == x + " " + y
  {
    var text := "*" + (" " + x + "\n") + "*" + (" " + y);
    CleanIsStripOfFlatten(text);
    StarListMarkup(x, y);
    StarListFlat(x, y);
    StripLeadingSpace(x + " " + y);
  }

  lemma StarListRegroup(x: string, y: string)
    ensures (" " + x + "\n") + (" " + y) == (" " + x) + "\n " + y
    ensures (" " + x) + " " + y == " " + (x + " " + y)
  {
  }

  lemma ItemTidy(x: string, y: string)
    requires x == "Item 1" && y == "Item 2"
    ensures Tidy(x) && Tidy(y) && NoneOf(x, MarkupChars) && NoneOf(y, MarkupChars)
  {
    assert "Item" + " " + ['1'] == x && "Item" + " " + ['2'] == y;
    NumberedItemTidy('1');
    NumberedItemTidy('2');
  }

  /** `Item` followed by a space and one digit is tidy and free of markup characters. */
  lemma NumberedItemTidy(d: char)
    requires '0' <= d <= '9'
    ensures var x := "Item" + " " + [d]; Tidy(x) && NoneOf(x, MarkupChars)
  {
    WordTidy("Item");
    JoinTidy("Item", [d]);
  }

  /** `* Item 1`, a newline and `* Item 2` are cleaned to `Item 1 Item 2`. */
  lemma CleanList(text: string)
    requires text == "* Item 1\n* Item 2"
    ensures CleanTextForSpeech(text) == "Item 1 Item 2"
  {
    var x, y := "Item 1", "Item 2";
    assert text == "*" + (" " + x + "\n") + "*" + (" " + y);
    assert x + " " + y == "Item 1 Item 2";
    ItemTidy(x, y);
    CleanStarListText(x, y);
  }

  /** `**Niveau A2**` is cleaned to `Niveau A2`. */
  lemma CleanBold(text: string)
    requires text == "**Niveau A2**"
    ensures CleanTextForSpeech(text) == "Niveau A2"
  {
    var z := "Niveau A2";
    assert text == "**" + z + "**";
    assert "Niveau" + " " + "A2" == z;
    assert NoneOf(z, MarkupChars);
    assert AllVisible("Niveau") && AllVisible("A2");
    WordTidy("Niveau");
    JoinTidy("Niveau", "A2");
    CleanBoldText(z);
  }

  /** `Répétez` starts no metadata label: it fails `résultat` at its third letter. */
  lemma RepetezIsNoLabel(u: string)
    requires |u| > 2 && u[0] == 'R' && u[1] == 'é' && u[2] == 'p'
    ensures MetadataAt(u, 0).None?
  {
    forall w | w in MetadataLabels ensures !FoldedAt(u, 0, w) {
      if w == "résultat" {
        assert Lower(u[2]) != w[2];
      } else {
        assert Lower(u[0]) != w[0];
      }
    }
    NoLabelFolded(u, 0, MetadataLabels);
  }

  /** `Répétez: Здравствуйте` holds no metadata label. */
  lemma RepetezHasNoLabel(u: string)
    requires u == "Répétez: Здравствуйте"
    ensures Labels(u) == u
  {
    RepetezShape(u);
    RepetezIsNoLabel(u);
    LabelsOnlyFirst(u);
  }

  lemma RepetezShape(u: string)
    requires u == "Répétez: Здравствуйте"
    ensures |u| > 2 && u[0] == 'R' && u[1] == 'é' && u[2] == 'p'
    ensures NoneOf(u[1..], "lLrRaAsS")
  {
    var z := "Здравствуйте";
    assert u[1..] == "épétez: " + z;
    assert NoneOf("épétez: ", "lLrRaAsS") && NoneOf(z, "lLrRaAsS");
    NoneOfConcat("épétez: ", z, "lLrRaAsS");
  }

  lemma RepetezTidy(u: string)
    requires u == "Répétez: Здравствуйте"
    ensures Tidy(u)
  {
    var z := "Здравствуйте";
    assert "Répétez:" + " " + z == u;
    assert AllVisible("Répétez:") && AllVisible(z);
    WordTidy("Répétez:");
    JoinTidy("Répétez:", z);
  }

  /** Plain text and a code span, which together are tidy and hold no metadata label, are cleaned to the text and the span's content. */
  lemma CleanCodeText(x: string, z: string)
    requires |z| > 0 && NoneOf(x, StructureChars) && NoneOf(z, StructureChars)
    requires Labels(x + z) == x + z && Tidy(x + z)
    ensures CleanTextForSpeech(x + "`" + z + "`") == x + z
  {
    CodeTextMarkup(x, z);
    NoneOfConcat(x, z, StructureChars);
    Excluded(x + z, StructureChars);
    assert '`' in StructureChars;
    CleanOfPlain(x + "`" + z + "`", x + z);
  }

  /** `Répétez: ` followed by `Здравствуйте` in backticks is cleaned to `Répétez: Здравствуйте`. */
  lemma CleanCode(text: string)
    requires text == "Répétez: `Здравствуйте`"
    ensures CleanTextForSpeech(text) == "Répétez: Здравствуйте"
  {
    var x, z := "Répétez: ", "Здравствуйте";
    assert text == x + "`" + z + "`";
    assert x + z == "Répétez: Здравствуйте";
    assert NoneOf(x, StructureChars) && NoneOf(z, StructureChars);
    RepetezHasNoLabel(x + z);
    RepetezTidy(x + z);
    CleanCodeText(x, z);
  }

  lemma WelcomeTidy(x: string, y: string)
    requires x == "Bienvenue !" && y == "Je détecte"
    ensures Tidy(x) && Tidy(y)
  {
    assert "Bienvenue" + " " + "!" == x;
    assert "Je" + " " + "détecte" == y;
    assert AllVisible("Bienvenue") && AllVisible("!") && AllVisible("Je") && AllVisible("détecte");
    WordTidy("Bienvenue");
    JoinTidy("Bienvenue", "!");
    WordTidy("Je");
    JoinTidy("Je", "détecte");
  }

  /** `Bienvenue !`, a blank line and `Je détecte` are cleaned to `Bienvenue ! Je détecte`: the blank line becomes one space. */
  lemma CleanBlankLine(text: string)
    requires text == "Bienvenue !\n\nJe détecte"
    ensures CleanTextForSpeech(text) == "Bienvenue ! Je détecte"
  {
    var x, g, y := "Bienvenue !", "\n\n", "Je détecte";
    assert text == x + g + y;
    assert x + " " + y == "Bienvenue ! Je détecte";
    assert NoneOf(x, MarkupChars) && NoneOf(g, MarkupChars) && NoneOf(y, MarkupChars);
    assert AllSpace(g);
    WelcomeTidy(x, y);
    CleanGapText(x, g, y);
  }

  /** The first alternative, `langue`, matches at the start of `Langue: fr` together with its colon and the space after it. */
  lemma LangueMatch(u: string)
    requires u == "Langue: fr"
    ensures MetadataAt(u, 0) == Some(Match(8, ""))
  {
    LangueColon(u);
    assert MetadataLabels[0] == "langue";
    assert LabelMatch(u, 0, MetadataLabels) == Some(8);
  }

  /** The pieces of `Langue: fr` that the label pattern looks at. */
  lemma LangueColon(u: string)
    requires u == "Langue: fr"
    ensures FoldedAt(u, 0, "langue") && WordBoundary(u, 0)
    ensures SkipSpaces(u, 6) == 6 && u[6] == ':' && SkipSpaces(u, 7) == 8
  {
    assert Lower(u[0]) == 'l';
    SkipSpacesTo(u, 7, 8);
  }

  /** `Langue: ` is a metadata label at the start of `Langue: fr`; the `fr` after it is left. */
  lemma LangueLabel(u: string)
    requires u == "Langue: fr"
    ensures Labels(u) == "fr"
  {
    LangueMatch(u);
    LabelThenTwo(u);
    assert u[8] == 'f' && u[9] == 'r';
  }

  /** A label ending two characters before the end of the text leaves just those two characters. */
  lemma LabelThenTwo(u: string)
    requires |u| == 10 && MetadataAt(u, 0) == Some(Match(8, ""))
    ensures Labels(u) == [u[8], u[9]]
  {
    SubStepMatch(MetadataAt, u, 0, Match(8, ""));
    NoLabelNearEnd(u, 8);
    NoLabelNearEnd(u, 9);
    SubLastTwo(MetadataAt, u, 8);
  }

  /** The scan over the last two characters, when neither starts a match, keeps both. */
  lemma SubLastTwo(p: Pattern, s: string, i: nat)
    requires WellFormed(p) && i + 2 == |s| && Inert(p, s, i) && Inert(p, s, i + 1)
    ensures Sub(p, s, i) == [s[i], s[i + 1]]
  {
    SubStepInert(p, s, i);
    SubStepInert(p, s, i + 1);
    assert Sub(p, s, i + 2) == "";
  }

  /** `Langue: ` followed by `fr` in backticks is cleaned to `fr`. */
  lemma CleanLabel(text: string)
    requires text == "Langue: `fr`"
    ensures CleanTextForSpeech(text) == "fr"
  {
    var x, z := "Langue: ", "fr";
    assert text == x + "`" + z + "`";
    assert x + z == "Langue: fr";
    assert NoneOf(x, StructureChars) && NoneOf(z, StructureChars);
    assert AllVisible(z);
    CodeTextMarkup(x, z);
    LangueLabel(x + z);
    WordTidy(z);
    CleanOfPlain(text, z);
  }

  /** `(ceci est un exemple)` is cleaned away entirely. */
  lemma CleanRemark(text: string)
    requires text == "(ceci est un exemple)"
    ensures CleanTextForSpeech(text) == ""
  {
    var z := "ceci est un exemple";
    assert text == "(" + z + ")";
    assert NoneOf(z, RemarkChars);
    CleanRemarkText(z);
  }
}
