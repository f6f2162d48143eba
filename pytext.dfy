/**
 * The parts of Python's `str` that the tutoring core relies on: whitespace
 * (`isspace`, the `\s` class of `re`), `strip`, `lower`, `isalpha`, `find`,
 * `rfind`, the `in` operator, `startswith`/`endswith`, and the two
 * character-class counts both language detectors compute.
 *
 * `IsSpace` is Python's exact whitespace set. `IsAlpha` and `IsWordChar`
 * are restricted to the Basic Latin, Latin-1, Latin Extended-A/B and
 * Cyrillic blocks; `Lower` lowers only `A`-`Z`, the Latin-1 capitals and the
 * Cyrillic capitals U+0400-U+042F (see README, "Left out").
 */
module PyText {

  /** `c.isspace()`, which is also what `\s` matches in a `str` pattern. */
  predicate IsSpace(c: char) {
    || ('\t' <= c <= '\r')
    || ('\U{1C}' <= c <= '\U{1F}')
    || c == ' ' || c == '\U{85}' || c == '\U{A0}' || c == '\U{1680}'
    || ('\U{2000}' <= c <= '\U{200A}')
    || c == '\U{2028}' || c == '\U{2029}' || c == '\U{202F}' || c == '\U{205F}' || c == '\U{3000}'
  }

  /** The test `'Ѐ' <= c <= 'ӿ'` both detectors use. */
  predicate IsCyrillic(c: char) {
    '\U{0400}' <= c <= '\U{04FF}'
  }

  /** `c.isalpha()`, restricted to Latin and Cyrillic letters. */
  predicate IsAlpha(c: char) {
    || ('A' <= c <= 'Z') || ('a' <= c <= 'z')
    || c == '\U{AA}' || c == '\U{B5}' || c == '\U{BA}'
    || ('\U{C0}' <= c <= '\U{D6}') || ('\U{D8}' <= c <= '\U{F6}') || ('\U{F8}' <= c <= '\U{24F}')
    || ('\U{400}' <= c <= '\U{481}') || ('\U{48A}' <= c <= '\U{4FF}')
  }

  /** `\d`, restricted to ASCII digits. */
  predicate IsDigit(c: char) {
    '0' <= c <= '9'
  }

  /** `\w`: letters, digits and the underscore. */
  predicate IsWordChar(c: char) {
    IsAlpha(c) || IsDigit(c) || c == '_'
  }

  /** `c.lower()` on ASCII, Latin-1 capitals and the basic Cyrillic capitals. */
  function Lower(c: char): (d: char)
    ensures IsCyrillic(d) <==> IsCyrillic(c)
    ensures IsSpace(d) <==> IsSpace(c)
  {
    if 'A' <= c <= 'Z' then (c as int + 32) as char
    else if '\U{C0}' <= c <= '\U{DE}' && c != '\U{D7}' then (c as int + 32) as char
    else if '\U{410}' <= c <= '\U{42F}' then (c as int + 32) as char
    else if '\U{400}' <= c <= '\U{40F}' then (c as int + 80) as char
    else c
  }

  /** `s.lower()`, character by character. */
  function LowerStr(s: string): (r: string)
    ensures |r| == |s|
    ensures forall i :: 0 <= i < |s| ==> r[i] == Lower(s[i])
  {
    seq(|s|, i requires 0 <= i < |s| => Lower(s[i]))
  }

  predicate AllSpace(s: string) {
    forall i :: 0 <= i < |s| ==> IsSpace(s[i])
  }

  /** The first index at or after `i` that is not whitespace (or `|s|`). */
  function SkipSpaces(s: string, i: nat): (k: nat)
    requires i <= |s|
    ensures i <= k <= |s|
    ensures forall m :: i <= m < k ==> IsSpace(s[m])
    ensures k < |s| ==> !IsSpace(s[k])
    decreases |s| - i
  {
    if i == |s| || !IsSpace(s[i]) then i else SkipSpaces(s, i + 1)
  }

  /** Skipping whitespace from `a` stops at `b` when `s[a..b]` is whitespace and `s[b]` is not. */
  lemma {:induction false} SkipSpacesTo(s: string, a: nat, b: nat)
    requires a <= b <= |s|
    requires forall k :: a <= k < b ==> IsSpace(s[k])
    requires b == |s| || !IsSpace(s[b])
    ensures SkipSpaces(s, a) == b
    decreases b - a
  {
    if a < b {
      SkipSpacesTo(s, a + 1, b);
    }
  }

  /** The smallest `k >= lo` such that `s[k..j]` is all whitespace. */
  function TrimEnd(s: string, lo: nat, j: nat): (k: nat)
    requires lo <= j <= |s|
    ensures lo <= k <= j
    ensures forall m :: k <= m < j ==> IsSpace(s[m])
    ensures k > lo ==> !IsSpace(s[k - 1])
    decreases j
  {
    if j == lo || !IsSpace(s[j - 1]) then j else TrimEnd(s, lo, j - 1)
  }

  /**
   * `s.strip()`: the result is a slice of `s`, only whitespace was cut off
   * either end, and neither end of the result is whitespace. These three
   * facts determine the result.
   */
  function Strip(s: string): (r: string)
    ensures exists a, b :: 0 <= a <= b <= |s| && r == s[a..b] && AllSpace(s[..a]) && AllSpace(s[b..])
    ensures |r| > 0 ==> !IsSpace(r[0]) && !IsSpace(r[|r| - 1])
    ensures |r| <= |s|
  {
    var a := SkipSpaces(s, 0);
    var b := TrimEnd(s, a, |s|);
    assert AllSpace(s[..a]) && AllSpace(s[b..]);
    assert b > a ==> !IsSpace(s[a]);
    s[a..b]
  }

  /** Stripping a stripped string changes nothing. */
  lemma StripIdempotent(s: string)
    ensures Strip(Strip(s)) == Strip(s)
  {
    var r := Strip(s);
    var a := SkipSpaces(r, 0);
    assert a == 0;
    var b := TrimEnd(r, 0, |r|);
    assert b == |r|;
  }

  /** `s.strip()` is empty exactly when `s` is all whitespace. */
  lemma StripEmptyIff(s: string)
    ensures Strip(s) == "" <==> AllSpace(s)
  {
    var a := SkipSpaces(s, 0);
    assert a < |s| ==> !IsSpace(s[a]);
  }

  /** A text with no whitespace at either end is its own strip. */
  lemma StripUnchanged(s: string)
    requires |s| == 0 || (!IsSpace(s[0]) && !IsSpace(s[|s| - 1]))
    ensures Strip(s) == s
  {
    assert SkipSpaces(s, 0) == 0;
    assert TrimEnd(s, 0, |s|) == |s|;
  }

  /** One leading space in front of a text with no whitespace at either end is all that `strip` removes. */
  lemma StripLeadingSpace(w: string)
    requires |w| > 0 && !IsSpace(w[0]) && !IsSpace(w[|w| - 1])
    ensures Strip(" " + w) == w
  {
    var s := " " + w;
    assert SkipSpaces(s, 1) == 1;
    assert SkipSpaces(s, 0) == 1;
    assert TrimEnd(s, 1, |s|) == |s|;
    assert s[1..] == w;
  }

  /** `p` is a prefix of `s` (`s.startswith(p)`). */
  predicate StartsWith(s: string, p: string) {
    |p| <= |s| && s[..|p|] == p
  }

  /** `s.endswith(p)`. */
  predicate EndsWith(s: string, p: string) {
    |p| <= |s| && s[|s| - |p|..] == p
  }

  /** `needle` occurs in `hay` at position `i`. */
  predicate OccursAt(hay: string, needle: string, i: int) {
    0 <= i && i + |needle| <= |hay| && hay[i..i + |needle|] == needle
  }

  /** `needle in hay[i..]`, scanning left to right. */
  predicate ContainsFrom(hay: string, needle: string, i: nat)
    decreases |hay| - i
  {
    i + |needle| <= |hay| && (OccursAt(hay, needle, i) || ContainsFrom(hay, needle, i + 1))
  }

  /** Python's `needle in hay`. */
  predicate Contains(hay: string, needle: string) {
    ContainsFrom(hay, needle, 0)
  }

  lemma {:induction false} ContainsFromIff(hay: string, needle: string, i: nat)
    ensures ContainsFrom(hay, needle, i) <==> exists k :: i <= k && OccursAt(hay, needle, k)
    decreases |hay| - i
  {
    if i + |needle| <= |hay| {
      ContainsFromIff(hay, needle, i + 1);
      if exists k :: i <= k && OccursAt(hay, needle, k) {
        var k :| i <= k && OccursAt(hay, needle, k);
        assert k == i || (i + 1 <= k && OccursAt(hay, needle, k));
      }
    }
  }

  /** `needle in hay` holds exactly when some slice of `hay` equals `needle`. */
  lemma ContainsIff(hay: string, needle: string)
    ensures Contains(hay, needle) <==> exists k :: OccursAt(hay, needle, k)
  {
    ContainsFromIff(hay, needle, 0);
  }

  /** A string contains each of its slices. */
  lemma ContainsSlice(hay: string, a: nat, b: nat)
    requires a <= b <= |hay|
    ensures Contains(hay, hay[a..b])
  {
    assert OccursAt(hay, hay[a..b], a);
    ContainsIff(hay, hay[a..b]);
  }

  /** `w` stands in `t` at `k` as a word delimited by spaces or the ends of `t`. */
  predicate WholeWordAt(t: string, w: string, k: int) {
    && 0 <= k && k + |w| <= |t| && t[k..k + |w|] == w
    && (k == 0 || t[k - 1] == ' ')
    && (k + |w| == |t| || t[k + |w|] == ' ')
  }

  /**
   * The test `f" {word} " in f" {text} "` holds exactly when `word` stands in
   * `text` as a whole word: a keyword inside a longer word is not counted.
   */
  lemma WholeWordIff(t: string, w: string)
    ensures Contains(" " + t + " ", " " + w + " ") <==> exists k :: WholeWordAt(t, w, k)
  {
    ContainsIff(" " + t + " ", " " + w + " ");
    if Contains(" " + t + " ", " " + w + " ") {
      var k :| OccursAt(" " + t + " ", " " + w + " ", k);
      PaddedOccurrenceIsWord(t, w, k);
    }
    if exists k :: WholeWordAt(t, w, k) {
      var k :| WholeWordAt(t, w, k);
      WordIsPaddedOccurrence(t, w, k);
    }
  }

  lemma PaddedOccurrenceIsWord(t: string, w: string, k: int)
    requires OccursAt(" " + t + " ", " " + w + " ", k)
    ensures WholeWordAt(t, w, k)
  {
    var p := " " + t + " ";
    var n := " " + w + " ";
    assert forall j :: 1 <= j <= |t| ==> p[j] == t[j - 1];
    assert p[k] == n[0] == ' ';
    assert p[k + |w| + 1] == n[|w| + 1] == ' ';
    forall j | 0 <= j < |w| ensures t[k + j] == w[j] {
      assert p[k + 1 + j] == n[1 + j];
    }
    assert t[k..k + |w|] == w;
  }

  lemma WordIsPaddedOccurrence(t: string, w: string, k: int)
    requires WholeWordAt(t, w, k)
    ensures OccursAt(" " + t + " ", " " + w + " ", k)
  {
    var p := " " + t + " ";
    var n := " " + w + " ";
    assert forall j :: 1 <= j <= |t| ==> p[j] == t[j - 1];
    forall j | 0 <= j < |n| ensures p[k + j] == n[j] {
      if 0 < j < |n| - 1 {
        assert t[k + j - 1] == w[j - 1];
      }
    }
    assert p[k..k + |n|] == n;
  }

  /** The index of the first `c` at or after `i`, or -1. */
  function FindFrom(s: string, c: char, i: nat): (r: int)
    requires i <= |s|
    ensures r == -1 || i <= r < |s|
    ensures r == -1 <==> c !in s[i..]
    ensures r >= 0 ==> s[r] == c && c !in s[i..r]
    decreases |s| - i
  {
    if i == |s| then -1
    else if s[i] == c then i
    else
      var r := FindFrom(s, c, i + 1);
      assert s[i..] == [s[i]] + s[i + 1..];
      assert r >= 0 ==> s[i..r] == [s[i]] + s[i + 1..r];
      r
  }

  /** The first `c` at or after `i` is the one at `k` when none comes before it. */
  lemma {:induction false} FindFromFirst(s: string, c: char, i: nat, k: nat)
    requires i <= k < |s| && s[k] == c && c !in s[i..k]
    ensures FindFrom(s, c, i) == k
    decreases k - i
  {
    if i < k {
      assert s[i] in s[i..k];
      assert s[i + 1..k] == s[i..k][1..];
      FindFromFirst(s, c, i + 1, k);
    }
  }

  /** `s.find(c)`: the index of the first `c`, or -1 when there is none. */
  function Find(s: string, c: char): (r: int)
    ensures r == -1 || 0 <= r < |s|
    ensures r == -1 <==> c !in s
    ensures r >= 0 ==> s[r] == c && c !in s[..r]
  {
    assert s[0..] == s;
    FindFrom(s, c, 0)
  }

  /** The index of the last `c` before `j`, or -1. */
  function RFindBefore(s: string, c: char, j: nat): (r: int)
    requires j <= |s|
    ensures r == -1 || 0 <= r < j
    ensures r == -1 <==> c !in s[..j]
    ensures r >= 0 ==> s[r] == c && c !in s[r + 1..j]
    decreases j
  {
    if j == 0 then -1
    else if s[j - 1] == c then j - 1
    else
      var r := RFindBefore(s, c, j - 1);
      assert s[..j] == s[..j - 1] + [s[j - 1]];
      assert r >= 0 ==> s[r + 1..j] == s[r + 1..j - 1] + [s[j - 1]];
      r
  }

  /** `s.rfind(c)`: the index of the last `c`, or -1 when there is none. */
  function RFind(s: string, c: char): (r: int)
    ensures r == -1 || 0 <= r < |s|
    ensures r == -1 <==> c !in s
    ensures r >= 0 ==> s[r] == c && c !in s[r + 1..]
  {
    assert s[..|s|] == s;
    RFindBefore(s, c, |s|)
  }

  /** The two character-class counts both detectors compute. */
  datatype ScriptCounts = ScriptCounts(cyrillic: nat, latin: nat)

  /**
   * `sum(1 for c in text if 'Ѐ' <= c <= 'ӿ')` and
   * `sum(1 for c in text if c.isalpha() and not ('Ѐ' <= c <= 'ӿ'))`
   * over `s[i..]`. A character is counted at most once, so the two counts
   * never exceed the length; the Cyrillic count is zero exactly when no
   * character is Cyrillic.
   */
  function CountScripts(s: string, i: nat): (r: ScriptCounts)
    requires i <= |s|
    ensures r.cyrillic + r.latin <= |s| - i
    ensures r.cyrillic == 0 <==> forall m :: i <= m < |s| ==> !IsCyrillic(s[m])
    decreases |s| - i
  {
    if i == |s| then ScriptCounts(0, 0)
    else
      var rest := CountScripts(s, i + 1);
      if IsCyrillic(s[i]) then ScriptCounts(rest.cyrillic + 1, rest.latin)
      else if IsAlpha(s[i]) then ScriptCounts(rest.cyrillic, rest.latin + 1)
      else rest
  }

  lemma {:induction false} CountScriptsConcatFrom(x: string, y: string, i: nat)
    requires i <= |x|
    ensures CountScripts(x + y, i).cyrillic == CountScripts(x, i).cyrillic + CountScripts(y, 0).cyrillic
    ensures CountScripts(x + y, i).latin == CountScripts(x, i).latin + CountScripts(y, 0).latin
    decreases |x| - i
  {
    if i < |x| {
      CountScriptsConcatFrom(x, y, i + 1);
      assert (x + y)[i] == x[i];
    } else {
      CountScriptsSuffix(x + y, y, i, 0);
    }
  }

  lemma {:induction false} CountScriptsSuffix(s: string, t: string, i: nat, j: nat)
    requires i <= |s| && j <= |t| && s[i..] == t[j..]
    ensures CountScripts(s, i) == CountScripts(t, j)
    decreases |s| - i
  {
    if i < |s| {
      assert s[i] == s[i..][0] == t[j];
      assert s[i + 1..] == s[i..][1..];
      assert t[j + 1..] == t[j..][1..];
      CountScriptsSuffix(s, t, i + 1, j + 1);
    }
  }

  /** Both counts add up over a concatenation. */
  lemma CountScriptsConcat(x: string, y: string)
    ensures CountScripts(x + y, 0).cyrillic == CountScripts(x, 0).cyrillic + CountScripts(y, 0).cyrillic
    ensures CountScripts(x + y, 0).latin == CountScripts(x, 0).latin + CountScripts(y, 0).latin
  {
    CountScriptsConcatFrom(x, y, 0);
  }

  predicate HasCyrillic(s: string) {
    exists m :: 0 <= m < |s| && IsCyrillic(s[m])
  }

  /** A concatenation has a Cyrillic character exactly when one of its parts does. */
  lemma HasCyrillicConcat(x: string, y: string)
    ensures HasCyrillic(x + y) <==> HasCyrillic(x) || HasCyrillic(y)
  {
    forall m | 0 <= m < |x + y|
      ensures (x + y)[m] == if m < |x| then x[m] else y[m - |x|]
    {
    }
    if HasCyrillic(y) {
      var m :| 0 <= m < |y| && IsCyrillic(y[m]);
      assert (x + y)[|x| + m] == y[m];
    }
  }
}
