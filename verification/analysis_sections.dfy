/** The seven numbered sections of a saved contract analysis and their
    extraction, shared by the two summary generators
    (src/contract_summary_generator.py and
    src/bilingual_contract_summary_generator.py, `_extract_section`) and the
    reassembly of src/bilingual_analyzer.py. The section patterns are fixed,
    so their search is modelled concretely: the header matched without
    regard to (ASCII) case, then the shortest stretch up to the next
    section's marker. */
module AnalysisSections {
  import opened Wrappers
  import opened Text

  /** The dictionary keys of the sections, in report order. */
  const Keys: seq<string> := ["basic_info", "dates", "financial", "obligations", "legal", "risks", "recommendations"]

  /** The names used in the not-found placeholder. */
  const Names: seq<string> := ["Basic Information", "Key Dates", "Financial Terms", "Obligations", "Legal Framework", "Risk Analysis", "Recommendations"]

  /** The number of sections. */
  const SectionCount: nat := 7

  /** The last section, which runs to the end of the analysis. */
  const Last: nat := 6

  /** The section headers, `**<n+1>. <TITLE>**` for section n (counted
      from 0). */
  const Headers: seq<string> := ["**1. BASIC INFO**", "**2. KEY DATES**", "**3. MONEY MATTERS**", "**4. MAIN OBLIGATIONS**", "**5. LEGAL FRAMEWORK**", "**6. RISK ANALYSIS**", "**7. RECOMMENDATIONS**"]

  /** The header of section n: two stars and the section's number. */
  function Header(n: nat): (r: string)
    requires n < SectionCount
    ensures |r| >= 6 && r[..2] == "**" && r[2] == DigitChar(n + 1)
  {
    Headers[n]
  }

  /** `\n\n**<n+2>.`, where the section after section n begins. */
  function Mark(n: nat): (r: string)
    requires n + 1 < SectionCount
    ensures |r| == 6 && r[..4] == "\n\n**" && IsDigit(r[4]) && r[5] == '.'
  {
    "\n\n**" + [DigitChar(n + 2)] + "."
  }

  /** The header of a section occurs at position i, in any case. */
  predicate HeaderAt(s: string, i: nat, h: string) {
    i + |h| <= |s| && Upper(s[i..i + |h|]) == h
  }

  /** The first case-insensitive occurrence of `h` at or after `from`. */
  function FindHeader(s: string, h: string, from: nat): (r: Option<nat>)
    ensures r.Some? ==> from <= r.value && HeaderAt(s, r.value, h)
    ensures r.Some? ==> forall i :: from <= i < r.value ==> !HeaderAt(s, i, h)
    ensures r.None? ==> forall i :: from <= i ==> !HeaderAt(s, i, h)
    decreases |s| - from
  {
    if from + |h| > |s| then None
    else if HeaderAt(s, from, h) then Some(from)
    else FindHeader(s, h, from + 1)
  }

  /** The first occurrence of `sub` at or after `from`. */
  function FindFrom(s: string, sub: string, from: nat): (r: Option<nat>)
    ensures r.Some? ==> from <= r.value && At(s, sub, r.value)
    ensures r.Some? ==> forall j :: from <= j < r.value ==> !At(s, sub, j)
    ensures r.None? ==> forall j :: from <= j ==> !At(s, sub, j)
    decreases |s| - from
  {
    if from + |sub| > |s| then None
    else if At(s, sub, from) then Some(from)
    else FindFrom(s, sub, from + 1)
  }

  /** `re.search(pattern, content, DOTALL | IGNORECASE).group(0)` for the
      pattern of section n: the search for its header and, unless the section
      is the last, the next section's marker. */
  function SearchSection(content: string, n: nat): Option<string>
    requires n < SectionCount
  {
    SearchBetween(content, Header(n), if n + 1 < SectionCount then Some(Mark(n)) else None)
  }

  /** The search for a header `h` and, when `m` is given, the marker after
      it: from the first header on to the first marker after it, or to the
      end when there is no marker to look for. When the first header has no
      marker after it no later header has one either, so the search fails. */
  function SearchBetween(content: string, h: string, m: Option<string>): (r: Option<string>)
    ensures r.None? <==>
      || FindHeader(content, h, 0).None?
      || (m.Some? && FindFrom(content, m.value, FindHeader(content, h, 0).value + |h|).None?)
    ensures r.Some? ==> exists i :: HeaderAt(content, i, h) && At(content, r.value, i)
    ensures r.Some? && m.Some? ==> |r.value| >= |h| + |m.value| && r.value[|r.value| - |m.value|..] == m.value
  {
    var found := FindHeader(content, h, 0);
    if found.None? then None
    else
      var i := found.value;
      if m.None? then
        assert At(content, content[i..], i);
        Some(content[i..])
      else
        var next := FindFrom(content, m.value, i + |h|);
        if next.None? then None
        else
          var j := next.value;
          var t := content[i..j + |m.value|];
          assert At(content, t, i);
          EndsWithAt(content, m.value, i, j, t);
          Some(t)
  }

  /** A slice that reaches past an occurrence of m ends with m. */
  lemma EndsWithAt(s: string, m: string, i: nat, j: nat, t: string)
    requires i <= j && At(s, m, j) && t == s[i..j + |m|]
    ensures |t| >= |m| + j - i && t[|t| - |m|..] == m
  {
    assert t[|t| - |m|..] == s[j..j + |m|];
  }

  // ---------------------------------------------------------------------------
  // Dropping the next section's header
  // ---------------------------------------------------------------------------

  /** The end of the run of digits starting at k. */
  function DigitsEnd(t: string, k: nat): (e: nat)
    requires k <= |t|
    ensures k <= e <= |t|
    ensures forall m :: k <= m < e ==> IsDigit(t[m])
    ensures e < |t| ==> !IsDigit(t[e])
    decreases |t| - k
  {
    if k < |t| && IsDigit(t[k]) then DigitsEnd(t, k + 1) else k
  }

  /** `\n\n\*\*\d+\..*$` matches from position i: a blank line, two stars,
      digits and a dot, and then no line break before the end except
      possibly a final one. */
  predicate TailAt(t: string, i: nat) {
    && i + 5 <= |t| && At(t, "\n\n**", i) && IsDigit(t[i + 4])
    && var e := DigitsEnd(t, i + 4);
       e < |t| && t[e] == '.' && forall m :: e < m < |t| - 1 ==> t[m] != '\n'
  }

  function FindTail(t: string, from: nat): (r: Option<nat>)
    ensures r.Some? ==> from <= r.value && TailAt(t, r.value)
    ensures r.Some? ==> forall i :: from <= i < r.value ==> !TailAt(t, i)
    ensures r.None? ==> forall i :: from <= i ==> !TailAt(t, i)
    decreases |t| - from
  {
    if from + 5 > |t| then None
    else if TailAt(t, from) then Some(from)
    else FindTail(t, from + 1)
  }

  /** `re.sub(r'\n\n\*\*\d+\..*$', '', t)`: the first match is cut out; a
      final line break the match stops before is kept. */
  function TrimTail(t: string): (r: string)
    ensures FindTail(t, 0).None? ==> r == t
    ensures FindTail(t, 0).Some? ==> t[..FindTail(t, 0).value] <= r && |r| <= FindTail(t, 0).value + 1
  {
    match FindTail(t, 0)
    case None => t
    case Some(i) =>
      var e := DigitsEnd(t, i + 4);
      t[..i] + (if e < |t| - 1 && t[|t| - 1] == '\n' then "\n" else "")
  }

  /** A text without a blank line followed by two stars is left alone. */
  lemma TrimTailAbsent(t: string)
    requires !Contains(t, "\n\n**")
    ensures TrimTail(t) == t
  {
    if FindTail(t, 0).Some? {
      var i := FindTail(t, 0).value;
      ContainsAt(t, "\n\n**", i);
    }
  }

  /** No match starts inside the text before an appended marker. */
  lemma NoTailBefore(x: string, d: char, i: nat)
    requires IsDigit(d) && i < |x|
    ensures !TailAt(x + "\n\n**" + [d] + ".", i)
  {
    var t := x + "\n\n**" + [d] + ".";
    assert t[|x|] == '\n' && t[|x| + 1] == '\n';
    if i + 4 <= |x| {
      if i + 5 <= |t| && At(t, "\n\n**", i) && IsDigit(t[i + 4]) {
        var e := DigitsEnd(t, i + 4);
        assert e <= |x|;
        if e < |x| {
          assert e < |x| < |t| - 1;
        }
      }
    } else if At(t, "\n\n**", i) {
      assert t[i..i + 4][2] == t[i + 2] && t[i..i + 4][3] == t[i + 3];
    }
  }

  /** The marker of the next section, appended to a text, is cut off again. */
  lemma TrimMark(x: string, d: char)
    requires IsDigit(d)
    ensures TrimTail(x + "\n\n**" + [d] + ".") == x
  {
    var t := x + "\n\n**" + [d] + ".";
    forall i: nat | i < |x| ensures !TailAt(t, i) {
      NoTailBefore(x, d, i);
    }
    assert t[|x|..|x| + 4] == "\n\n**";
    assert DigitsEnd(t, |x| + 5) == |x| + 5;
    assert TailAt(t, |x|);
    assert t[..|x|] == x;
  }

  // ---------------------------------------------------------------------------
  // _extract_section
  // ---------------------------------------------------------------------------

  /** `[<name> section not found]`. */
  function SectionNotFound(n: nat): string
    requires n < SectionCount
  {
    "[" + Names[n] + " section not found]"
  }

  /** `_extract_section`: the matched stretch without the next section's
      header, stripped; the placeholder when the pattern does not match. */
  function ExtractSection(content: string, n: nat): (r: string)
    requires n < SectionCount
    ensures SearchSection(content, n).None? ==> r == SectionNotFound(n)
    ensures SearchSection(content, n).Some? ==> r == Strip(TrimTail(SearchSection(content, n).value))
    ensures SearchSection(content, n).Some? ==> Trimmed(r) && |r| <= |SearchSection(content, n).value|
  {
    match SearchSection(content, n)
    case None => SectionNotFound(n)
    case Some(t) => Strip(TrimTail(t))
  }

  /** A content without the header in any case gives the placeholder. */
  lemma ExtractMissing(content: string, n: nat)
    requires n < SectionCount
    requires forall i :: !HeaderAt(content, i, Header(n))
    ensures ExtractSection(content, n) == SectionNotFound(n)
  {
  }

  /** A section followed by the next one is extracted as its header and
      body, stripped: the search stops at the first marker after the first
      header and the marker is dropped again. */
  lemma ExtractWellFormed(pre: string, body: string, post: string, n: nat)
    requires n + 1 < SectionCount
    requires var c := pre + Header(n) + body + Mark(n) + post;
      forall i :: 0 <= i < |pre| ==> !HeaderAt(c, i, Header(n))
    requires var c := pre + Header(n) + body + Mark(n) + post;
      forall j :: |pre + Header(n)| <= j < |pre + Header(n) + body| ==> !At(c, Mark(n), j)
    ensures ExtractSection(pre + Header(n) + body + Mark(n) + post, n) == Strip(Header(n) + body)
  {
    var h, m := Header(n), Mark(n);
    UpperIdentity(h, n);
    SearchWellFormed(pre, h, body, m, post);
    assert h + body + m == (h + body) + "\n\n**" + [m[4]] + ".";
    TrimMark(h + body, m[4]);
  }

  /** The search stops at the first marker after the first header. */
  lemma SearchWellFormed(pre: string, h: string, body: string, m: string, post: string)
    requires Upper(h) == h
    requires var c := pre + h + body + m + post;
      forall i :: 0 <= i < |pre| ==> !HeaderAt(c, i, h)
    requires var c := pre + h + body + m + post;
      forall j :: |pre + h| <= j < |pre + h + body| ==> !At(c, m, j)
    ensures SearchBetween(pre + h + body + m + post, h, Some(m)) == Some(h + body + m)
  {
    var c := pre + h + body + m + post;
    var i := |pre|;
    assert c[i..i + |h|] == h;
    assert HeaderAt(c, i, h);
    assert FindHeader(c, h, 0) == Some(i);
    var j := |pre + h + body|;
    assert c[j..j + |m|] == m;
    assert At(c, m, j);
    assert FindFrom(c, m, i + |h|) == Some(j);
    assert c[i..j + |m|] == h + body + m;
  }

  /** The headers are already upper case. */
  lemma UpperIdentity(h: string, n: nat)
    requires n < SectionCount && h == Header(n)
    ensures Upper(h) == h
  {
    HeaderNoSmall(n);
    UpperNoSmall(h);
  }

  predicate IsSmall(c: char) {
    'a' <= c <= 'z'
  }

  /** A string without small ASCII letters is its own upper case. */
  lemma UpperNoSmall(s: string)
    requires forall k :: 0 <= k < |s| ==> !IsSmall(s[k])
    ensures Upper(s) == s
  {
    assert forall k :: 0 <= k < |s| ==> Upper(s)[k] == s[k];
  }

  /** The headers are written in capitals. */
  lemma HeaderNoSmall(n: nat)
    requires n < SectionCount
    ensures forall k :: 0 <= k < |Headers[n]| ==> !IsSmall(Headers[n][k])
  {
    var h := Headers[n];
    if n == 0 { assert h == "**1. BASIC INFO**"; }
    else if n == 1 { assert h == "**2. KEY DATES**"; }
    else if n == 2 { assert h == "**3. MONEY MATTERS**"; }
    else if n == 3 { assert h == "**4. MAIN OBLIGATIONS**"; }
    else if n == 4 { assert h == "**5. LEGAL FRAMEWORK**"; }
    else if n == 5 { assert h == "**6. RISK ANALYSIS**"; }
    else { assert h == "**7. RECOMMENDATIONS**"; }
  }

  /** The last section runs to the end of the content. */
  lemma ExtractLast(pre: string, rest: string)
    requires var c := pre + Header(Last) + rest;
      forall i :: 0 <= i < |pre| ==> !HeaderAt(c, i, Header(Last))
    requires !Contains(Header(Last) + rest, "\n\n**")
    ensures ExtractSection(pre + Header(Last) + rest, Last) == Strip(Header(Last) + rest)
  {
    var h := Header(Last);
    var c := pre + h + rest;
    assert c[|pre|..|pre| + |h|] == h;
    UpperIdentity(h, Last);
    assert HeaderAt(c, |pre|, h);
    assert FindHeader(c, h, 0) == Some(|pre|);
    assert c[|pre|..] == h + rest;
    TrimTailAbsent(h + rest);
  }

  /** The keys are pairwise different. */
  lemma KeysDistinct()
    ensures forall a, b :: 0 <= a < b < SectionCount ==> Keys[a] != Keys[b]
  {
    assert forall a :: 0 <= a < SectionCount ==> Keys[a][0] == "bdfolrr"[a];
    assert Keys[5] != Keys[6] by {
      assert |Keys[5]| != |Keys[6]|;
    }
  }

  /** No key after position n repeats the key at n. */
  lemma KeyAfter(n: nat)
    requires n < SectionCount
    ensures forall m :: n < m < SectionCount ==> Keys[m] != Keys[n]
  {
    KeysDistinct();
  }

  /** The entries from n on, each key mapped to the text at its position. */
  function SectionsFrom(texts: seq<string>, n: nat): (r: map<string, string>)
    requires |texts| == SectionCount && n <= SectionCount
    ensures forall k :: k in r ==> k in Keys
    ensures forall m :: n <= m < SectionCount ==> Keys[m] in r && r[Keys[m]] == texts[m]
    decreases SectionCount - n
  {
    if n == SectionCount then map[]
    else
      KeyAfter(n);
      SectionsFrom(texts, n + 1)[Keys[n] := texts[n]]
  }

  /** The section dictionary: every key mapped to its extracted text. */
  function SectionsOf(content: string): (r: map<string, string>)
    ensures forall k :: k in r <==> k in Keys
    ensures forall n :: 0 <= n < SectionCount ==> Keys[n] in r && r[Keys[n]] == ExtractSection(content, n)
  {
    SectionsFrom(seq(SectionCount, m requires 0 <= m < SectionCount => ExtractSection(content, m)), 0)
  }
}
