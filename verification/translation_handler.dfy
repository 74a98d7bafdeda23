/** The pure parts of the translation handler (src/translation_handler.py):
    the Arabic/English classifier by letter ratio, the right-to-left display
    normaliser and the whitespace short-circuit of translation. The
    translator chain itself is one oracle. */
module TranslationHandler {
  import opened Wrappers
  import opened Text

  // ---------------------------------------------------------------------------
  // detect_language
  // ---------------------------------------------------------------------------

  /** A character of the Arabic blocks the classifier counts: Arabic,
      Arabic Supplement, Arabic Extended-A and the two presentation-form
      blocks. */
  predicate IsArabic(c: char) {
    || ('\U{0600}' <= c <= '\U{06FF}')
    || ('\U{0750}' <= c <= '\U{077F}')
    || ('\U{08A0}' <= c <= '\U{08FF}')
    || ('\U{FB50}' <= c <= '\U{FDFF}')
    || ('\U{FE70}' <= c <= '\U{FEFF}')
  }

  predicate IsLatin(c: char) {
    ('a' <= c <= 'z') || ('A' <= c <= 'Z')
  }

  /** A character the classifier counts as a letter. */
  predicate IsLetter(c: char) {
    IsLatin(c) || IsArabic(c)
  }

  function CountArabic(s: string): (n: nat)
    ensures n <= |s|
    ensures n == 0 <==> forall i :: 0 <= i < |s| ==> !IsArabic(s[i])
    decreases |s|
  {
    if s == [] then 0
    else
      var rest := CountArabic(s[1..]);
      assert forall i :: 1 <= i < |s| ==> s[i] == s[1..][i - 1];
      (if IsArabic(s[0]) then 1 else 0) + rest
  }

  function CountLetters(s: string): (n: nat)
    ensures CountArabic(s) <= n <= |s|
    ensures n == 0 <==> forall i :: 0 <= i < |s| ==> !IsLetter(s[i])
    ensures n == |s| <==> forall i :: 0 <= i < |s| ==> IsLetter(s[i])
    decreases |s|
  {
    if s == [] then 0
    else
      var rest := CountLetters(s[1..]);
      assert forall i :: 1 <= i < |s| ==> s[i] == s[1..][i - 1];
      (if IsLetter(s[0]) then 1 else 0) + rest
  }

  /** `detect_language`: "unknown" for blank text or text without letters;
      otherwise by the share of Arabic letters: above 0.7 "ar", below 0.1
      "en", else "mixed". */
  function DetectLanguage(text: string): (r: string)
    ensures r == "unknown" || r == "ar" || r == "en" || r == "mixed"
    ensures r == "unknown" <==> Strip(text) == "" || CountLetters(text) == 0
    ensures r == "ar" <==> r != "unknown" && 10 * CountArabic(text) > 7 * CountLetters(text)
    ensures r == "en" <==> r != "unknown" && 10 * CountArabic(text) < CountLetters(text)
  {
    if Strip(text) == "" then "unknown"
    else
      var arabic := CountArabic(text);
      var total := CountLetters(text);
      if total == 0 then "unknown"
      else
        var ratio := arabic as real / total as real;
        RatioAbove(arabic, total, 7);
        RatioAbove(arabic, total, 1);
        if ratio > 0.7 then "ar"
        else if ratio < 0.1 then "en"
        else "mixed"
  }

  /** The ratio comparisons are the integer comparisons of the counts. */
  lemma RatioAbove(a: nat, t: nat, tenths: nat)
    requires t > 0
    ensures a as real / t as real > tenths as real / 10.0 <==> 10 * a > tenths * t
    ensures a as real / t as real < tenths as real / 10.0 <==> 10 * a < tenths * t
  {
    var x := a as real / t as real;
    assert x * t as real == a as real;
  }

  /** Text whose letters are all Arabic, with at least one, is Arabic. */
  lemma AllArabicIsArabic(text: string)
    requires exists i :: 0 <= i < |text| && IsArabic(text[i])
    requires forall i :: 0 <= i < |text| && IsLetter(text[i]) ==> IsArabic(text[i])
    ensures DetectLanguage(text) == "ar"
  {
    ArabicEqualsLetters(text);
    var i :| 0 <= i < |text| && IsArabic(text[i]);
    assert !IsSpace(text[i]);
    NonBlankStrip(text, i);
  }

  /** Text with Latin letters and no Arabic one is English. */
  lemma LatinIsEnglish(text: string)
    requires exists i :: 0 <= i < |text| && IsLatin(text[i])
    requires forall i :: 0 <= i < |text| ==> !IsArabic(text[i])
    ensures DetectLanguage(text) == "en"
  {
    var i :| 0 <= i < |text| && IsLatin(text[i]);
    assert IsLetter(text[i]);
    assert !IsSpace(text[i]);
    NonBlankStrip(text, i);
  }

  lemma {:induction false} ArabicEqualsLetters(s: string)
    requires forall i :: 0 <= i < |s| && IsLetter(s[i]) ==> IsArabic(s[i])
    ensures CountArabic(s) == CountLetters(s)
    decreases |s|
  {
    if s != [] {
      assert forall i :: 1 <= i < |s| ==> s[i] == s[1..][i - 1];
      ArabicEqualsLetters(s[1..]);
    }
  }

  /** A text with a non-space character does not strip to nothing. */
  lemma NonBlankStrip(s: string, i: nat)
    requires i < |s| && !IsSpace(s[i])
    ensures Strip(s) != ""
  {
    if Strip(s) == "" {
      StripBlank(s);
    }
  }

  // ---------------------------------------------------------------------------
  // format_rtl_text
  // ---------------------------------------------------------------------------

  /** The right-to-left mark the normaliser puts in front. */
  const Rlm: char := '\U{200F}'

  /** The directional formatting characters removed, in removal order:
      LRE, RLE, PDF, LRO, RLO, LRM, RLM and the Arabic letter mark. */
  const Directional: seq<char> := ['\U{202A}', '\U{202B}', '\U{202C}', '\U{202D}', '\U{202E}', '\U{200E}', '\U{200F}', '\U{061C}']

  /** `s.replace(c, '')` for each listed character in turn. */
  function RemoveEach(s: string, cs: seq<char>): string
    decreases |cs|
  {
    if cs == [] then s else RemoveEach(ReplaceAll(s, [cs[0]], ""), cs[1..])
  }

  /** Reference: the characters of s that are not in cs, in order. */
  function Without(s: string, cs: seq<char>): (r: string)
    ensures |r| <= |s|
    ensures forall i :: 0 <= i < |r| ==> r[i] !in cs
    decreases |s|
  {
    if s == [] then ""
    else (if s[0] in cs then "" else [s[0]]) + Without(s[1..], cs)
  }

  /** Replacing a single character by nothing drops exactly that character. */
  lemma {:induction false} ReplaceCharIsWithout(s: string, c: char)
    ensures ReplaceAll(s, [c], "") == Without(s, [c])
    decreases |s|
  {
    if s != [] {
      ReplaceCharIsWithout(s[1..], c);
      assert [c] <= s <==> s[0] == c;
      assert s[1..] == s[|[c]|..];
    }
  }

  /** Dropping one character and then a list drops both. */
  lemma {:induction false} WithoutThen(s: string, c: char, cs: seq<char>)
    ensures Without(Without(s, [c]), cs) == Without(s, [c] + cs)
    decreases |s|
  {
    if s != [] {
      WithoutThen(s[1..], c, cs);
      if s[0] == c {
        assert Without(s, [c]) == Without(s[1..], [c]);
      } else {
        var w := Without(s, [c]);
        assert w == [s[0]] + Without(s[1..], [c]);
        assert w[1..] == Without(s[1..], [c]);
      }
    }
  }

  /** Removing the characters one after another drops all of them at once. */
  lemma {:induction false} RemoveEachIsWithout(s: string, cs: seq<char>)
    ensures RemoveEach(s, cs) == Without(s, cs)
    decreases |cs|
  {
    if cs == [] {
      WithoutNone(s);
    } else {
      ReplaceCharIsWithout(s, cs[0]);
      RemoveEachIsWithout(Without(s, [cs[0]]), cs[1..]);
      WithoutThen(s, cs[0], cs[1..]);
      assert [cs[0]] + cs[1..] == cs;
    }
  }

  lemma {:induction false} WithoutNone(s: string)
    ensures Without(s, []) == s
    decreases |s|
  {
    if s != [] {
      WithoutNone(s[1..]);
    }
  }

  /** A text already free of the characters is left as it is. */
  lemma {:induction false} WithoutAbsent(s: string, cs: seq<char>)
    requires forall i :: 0 <= i < |s| ==> s[i] !in cs
    ensures Without(s, cs) == s
    decreases |s|
  {
    if s != [] {
      WithoutAbsent(s[1..], cs);
    }
  }

  /** `format_rtl_text`: empty text unchanged; otherwise the right-to-left
      mark followed by the text without any directional character. */
  function FormatRtl(s: string): (r: string)
    ensures s == "" ==> r == s
    ensures s != "" ==> r != "" && r[0] == Rlm
  {
    if s == "" then s else [Rlm] + RemoveEach(s, Directional)
  }

  /** The normalised text is the mark followed by the text with the
      directional characters dropped. */
  lemma FormatRtlContent(s: string)
    requires s != ""
    ensures FormatRtl(s) == [Rlm] + Without(s, Directional)
  {
    RemoveEachIsWithout(s, Directional);
  }

  /** Normalising twice is normalising once, because the mark itself is one
      of the removed characters. */
  lemma FormatRtlIdempotent(s: string)
    ensures FormatRtl(FormatRtl(s)) == FormatRtl(s)
  {
    if s != "" {
      FormatRtlContent(s);
      var body := Without(s, Directional);
      FormatRtlContent([Rlm] + body);
      assert Rlm in Directional;
      assert ([Rlm] + body)[1..] == body;
      assert Without([Rlm] + body, Directional) == Without(body, Directional);
      WithoutAbsent(body, Directional);
    }
  }

  // ---------------------------------------------------------------------------
  // translate_text
  // ---------------------------------------------------------------------------

  /** `translate_text`: blank text comes back unchanged without any
      translator being asked; otherwise the outcome of the translator chain
      (None when every translator failed). */
  function TranslateText(text: string, chain: string -> Option<string>): (r: Option<string>)
    ensures Strip(text) == "" ==> r == Some(text)
    ensures Strip(text) != "" ==> r == chain(text)
  {
    if Strip(text) == "" then Some(text) else chain(text)
  }
}
