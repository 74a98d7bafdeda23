/** The analysis driver (src/analysis.py): which part of a parsed document
    is analysed, what is written when the language model fails, how a saved
    analysis is named, and how the retry pass finds the failed analyses and
    the documents they came from. File contents are given as strings; the
    language model's reply is a parameter. */
module Analysis {
  import opened Wrappers
  import opened Text
  import opened Json
  import opened Paths
  import opened SentenceSegments

  // ---------------------------------------------------------------------------
  // Input-format dispatch
  // ---------------------------------------------------------------------------

  /** The text to analyse and the language it is labelled with. */
  datatype Input = Input(text: Value, language: Value)

  /** The dispatch of `analyze_document`: a dict with "full_text" gives that
      text and its "language"; a non-empty list gives its first item's
      "full_text" and "lang"; an empty text is refused. */
  function DocumentInput(data: Value): (r: Result<Input>)
    ensures r.Ok? ==> Truthy(r.value.text)
    ensures HasFullText(data) ==>
      var t := data.fields["full_text"];
      r == if Truthy(t) then Ok(Input(t, Get(data.fields, "language", VStr("unknown")))) else Err("No full_text field")
    ensures !HasFullText(data) && data.VList? && data.items != [] ==>
      var first := data.items[0];
      if !HasFullText(first) then r == Err("No full_text in array format")
      else r == if Truthy(first.fields["full_text"]) then Ok(Input(first.fields["full_text"], Get(first.fields, "lang", VStr("unknown"))))
                else Err("No full_text field")
    ensures !HasFullText(data) && !(data.VList? && data.items != []) ==> r == Err("Unrecognized document format")
  {
    var picked :=
      if HasFullText(data) then Ok(Input(data.fields["full_text"], Get(data.fields, "language", VStr("unknown"))))
      else if data.VList? && data.items != [] then
        var first := data.items[0];
        if HasFullText(first) then Ok(Input(first.fields["full_text"], Get(first.fields, "lang", VStr("unknown"))))
        else Err("No full_text in array format")
      else Err("Unrecognized document format");
    if picked.Ok? && !Truthy(picked.value.text) then Err("No full_text field") else picked
  }

  /** The sentence-segmented form of a document carries its first full-text
      item in front, so the dispatch finds that item's text and language. */
  lemma SegmentedDocumentDispatch(src: Value)
    requires ToSentenceSegments(src).Ok?
    requires FirstFullText(Walked(src).value) != []
    ensures var it := FirstFullText(Walked(src).value)[0];
      var t := it.fields["full_text"];
      DocumentInput(VList(ToSentenceSegments(src).value))
        == if Truthy(t) then Ok(Input(t, Get(it.fields, "lang", VStr("unknown")))) else Err("No full_text field")
  {
    var items := Walked(src).value;
    var head := FirstFullText(items);
    var i :| 0 <= i < |items| && head[0] == items[i] && HasFullText(items[i]);
    HeadFirst(head, AllSegments(items).value);
    ListDispatch(ToSentenceSegments(src).value);
  }

  lemma HeadFirst(head: seq<Value>, rest: seq<Value>)
    requires head != []
    ensures (head + rest)[0] == head[0]
  {
  }

  /** A list whose first item has a "full_text" is dispatched on that item. */
  lemma ListDispatch(xs: seq<Value>)
    requires xs != [] && HasFullText(xs[0])
    ensures var t := xs[0].fields["full_text"];
      DocumentInput(VList(xs))
        == if Truthy(t) then Ok(Input(t, Get(xs[0].fields, "lang", VStr("unknown")))) else Err("No full_text field")
  {
  }

  // ---------------------------------------------------------------------------
  // The fallback analysis
  // ---------------------------------------------------------------------------

  /** The first line of every fallback analysis. */
  const FallbackMarker: string := "COMPREHENSIVE FALLBACK ANALYSIS"

  /** The reason line the retry pass looks for. */
  const ApiErrorMarker: string := "(Reason: API error)"

  function ReasonLine(reason: string): string {
    "(Reason: " + reason + ")\n"
  }

  /** `create_fallback_analysis`: the marker, the size, the reason line and
      the fixed report sections. */
  function Fallback(filename: string, language: string, textLength: nat, reason: string): (r: string)
    ensures FallbackMarker <= r && !IsBlank(r)
  {
    var n := WithCommas(textLength);
    var head := FallbackMarker + "\n(Full document processing attempted: " + n + " characters)\n";
    var r := head + ReasonLine(reason) + FallbackBody(filename, Upper(language), n, reason);
    assert r[..|FallbackMarker|] == FallbackMarker;
    assert r[0] == 'C';
    r
  }

  /** The report sections of a fallback analysis, as far as they carry the
      arguments: the overview lines with the file, the language and the
      size, the priority line with the size and the processing notes with
      the size and the reason. `lang` is already upper case and `n` the size
      written with thousands separators. */
  function FallbackBody(filename: string, lang: string, n: string, reason: string): string {
    Join("\n", [
      "",
      "**1. DOCUMENT OVERVIEW**",
      "- File: " + filename,
      "- Language: " + lang,
      "- Size: " + n + " characters",
      "- **Priority Level**: HIGH - Full document contains " + n + " characters requiring analysis",
      "PROCESSING NOTES:",
      "- Original attempt: Full document processing (" + n + " chars)",
      "- Fallback reason: " + reason,
      ""])
  }

  /** A fallback analysis carries its reason line. */
  lemma FallbackHasReason(filename: string, language: string, textLength: nat, reason: string)
    ensures Contains(Fallback(filename, language, textLength, reason), ReasonLine(reason))
  {
    var n := WithCommas(textLength);
    var head := FallbackMarker + "\n(Full document processing attempted: " + n + " characters)\n";
    var body := FallbackBody(filename, Upper(language), n, reason);
    ContainsAt(ReasonLine(reason), ReasonLine(reason), 0);
    ContainsRight(head, ReasonLine(reason), ReasonLine(reason));
    ContainsLeft(head + ReasonLine(reason), body, ReasonLine(reason));
  }

  /** The reply of the language model: an answer with its success flag and
      finish reason, or an exception. */
  datatype Reply =
    | Answered(result: Option<string>, success: bool, finishReason: Option<string>)
    | Raised(message: string)

  /** Why the model's answer is replaced, when it is replaced before the
      emptiness check: finish reason "2" is the response limit, "3" the
      content filter, any other failure an API error. */
  function FailureReason(reply: Reply): (r: Option<string>)
    ensures r.None? <==> reply.Answered? && reply.success
    ensures reply.Answered? && !reply.success ==>
      (r.value == ApiErrorReason <==> reply.finishReason != Some("2") && reply.finishReason != Some("3"))
  {
    match reply
    case Raised(m) => Some("API processing failed: " + m)
    case Answered(_, success, finish) =>
      if success then None
      else if finish == Some("2") then Some(LimitReason)
      else if finish == Some("3") then Some(FilterReason)
      else Some(ApiErrorReason)
  }

  const LimitReason: string := LimitHead + LimitTail
  const LimitHead: string := "Full document analysis "
  const LimitTail: string := "exceeded response limits"
  const FilterReason: string := "Content filtered"
  const ApiErrorReason: string := "API error"

  /** The response-limit reason holds no opening parenthesis. */
  lemma LimitReasonPlain()
    ensures '(' !in LimitReason && LimitReason[0] == 'F'
  {
    PlainPart(LimitHead);
    PlainPart(LimitTail);
    PlainConcat(LimitHead, LimitTail);
  }

  /** The content-filter reason holds no opening parenthesis. */
  lemma FilterReasonPlain()
    ensures '(' !in FilterReason && FilterReason[0] == 'C'
  {
    PlainPart(FilterReason);
  }

  lemma PlainPart(s: string)
    requires s == LimitHead || s == LimitTail || s == FilterReason
    ensures '(' !in s
  {
  }

  lemma PlainConcat(a: string, b: string)
    requires '(' !in a && '(' !in b
    ensures '(' !in a + b
  {
  }

  /** The analysis that is saved: the model's answer when it succeeded with
      some non-blank text, else a fallback naming why. */
  function AnalysisText(filename: string, language: string, textLength: nat, reply: Reply): (r: string)
    ensures !IsBlank(r)
    ensures FailureReason(reply).Some? ==> r == Fallback(filename, language, textLength, FailureReason(reply).value)
    ensures FailureReason(reply).None? && reply.result.Some? && !IsBlank(reply.result.value) ==> r == reply.result.value
    ensures FailureReason(reply).None? && (reply.result.None? || IsBlank(reply.result.value)) ==>
      r == Fallback(filename, language, textLength, "Empty or None response from API")
  {
    var first :=
      match FailureReason(reply)
      case Some(reason) => Some(Fallback(filename, language, textLength, reason))
      case None => reply.result;
    if first.None? || IsBlank(first.value) then Fallback(filename, language, textLength, "Empty or None response from API")
    else first.value
  }

  // ---------------------------------------------------------------------------
  // The saved report
  // ---------------------------------------------------------------------------

  function RuleLine(): string {
    seq(50, _ => '=')
  }

  /** The header of the file written for an analysis: the document, the
      moment, the language, the size and the time taken. The moment and the
      time are given already formatted. */
  function ReportHeader(docName: string, analyzedAt: string, language: string, textLength: nat, timeText: string): string {
    "CONTRACT ANALYSIS REPORT\n" + RuleLine() + "\n"
    + "Document: " + docName + "\n"
    + "Analyzed: " + analyzedAt + "\n"
    + "Language: " + Upper(language) + "\n"
    + "Original Length: " + WithCommas(textLength) + " characters\n"
    + "Processing Time: " + timeText + " seconds\n"
    + "\n" + RuleLine() + "\n\n"
  }

  /** The file written for an analysis: the header, then the analysis. */
  function SavedReport(docName: string, analyzedAt: string, language: string, textLength: nat, timeText: string, analysis: string): string {
    ReportHeader(docName, analyzedAt, language, textLength, timeText) + analysis
  }

  /** The retry pass's test on a file's content. */
  predicate IsRetryCandidate(content: string) {
    Contains(content, FallbackMarker) && Contains(content, ApiErrorMarker)
  }

  /** A document whose analysis failed with an API error is saved with both
      markers, so the retry pass picks its report up. */
  lemma ApiErrorReportSelected(docName: string, analyzedAt: string, language: string, textLength: nat, timeText: string, reply: Reply)
    requires reply.Answered? && !reply.success
    requires reply.finishReason != Some("2") && reply.finishReason != Some("3")
    ensures IsRetryCandidate(SavedReport(docName, analyzedAt, language, textLength, timeText,
                                         AnalysisText(docName, language, textLength, reply)))
  {
    var a := AnalysisText(docName, language, textLength, reply);
    assert a == Fallback(docName, language, textLength, ApiErrorReason);
    ApiErrorFallbackMarked(docName, language, textLength);
    MarkersKept(ReportHeader(docName, analyzedAt, language, textLength, timeText), a);
  }

  /** An API-error fallback carries both markers. */
  lemma ApiErrorFallbackMarked(filename: string, language: string, textLength: nat)
    ensures IsRetryCandidate(Fallback(filename, language, textLength, ApiErrorReason))
  {
    FallbackHasReason(filename, language, textLength, ApiErrorReason);
    ApiErrorLineMarked();
    MarkedByParts(Fallback(filename, language, textLength, ApiErrorReason), ReasonLine(ApiErrorReason));
  }

  lemma ApiErrorLineMarked()
    ensures Contains(ReasonLine(ApiErrorReason), ApiErrorMarker)
  {
    ContainsAt(ReasonLine(ApiErrorReason), ApiErrorMarker, 0);
  }

  /** A text that opens with the fallback marker and holds a line holding
      the API-error marker is a retry candidate. */
  lemma MarkedByParts(a: string, line: string)
    requires FallbackMarker <= a && Contains(a, line) && Contains(line, ApiErrorMarker)
    ensures IsRetryCandidate(a)
  {
    ContainsAt(a, FallbackMarker, 0);
    ContainsTrans(a, line, ApiErrorMarker);
  }

  /** A header in front keeps both markers of a text. */
  lemma MarkersKept(h: string, a: string)
    requires IsRetryCandidate(a)
    ensures IsRetryCandidate(h + a)
  {
    ContainsRight(h, a, FallbackMarker);
    ContainsRight(h, a, ApiErrorMarker);
  }

  /** A reason without an opening parenthesis that does not start with "A"
      gives a reason line that is not the API-error line. */
  lemma ReasonLineUnmarked(reason: string)
    requires '(' !in reason
    requires reason == [] || reason[0] != 'A'
    ensures !Contains(ReasonLine(reason), ApiErrorMarker)
  {
    var line := ReasonLine(reason);
    var pre: string, post := "(Reason: ", reason + ")\n";
    assert line == pre + post;
    assert forall k :: 1 <= k < |pre| ==> pre[k] != '(';
    assert forall k :: 0 <= k < |post| ==> post[k] != '(' by {
      assert forall k :: 0 <= k < |reason| ==> post[k] == reason[k];
    }
    assert post[0] != 'A';
    OnlyOpenAtStart(pre, post);
    forall i | 0 <= i <= |line| - |ApiErrorMarker| ensures !(ApiErrorMarker <= line[i..]) {
      if i == 0 {
        assert line[i..][9] == line[9];
      } else {
        assert line[i..][0] == line[i];
      }
    }
  }

  lemma OnlyOpenAtStart(pre: string, post: string)
    requires |pre| == 9
    requires forall k :: 1 <= k < |pre| ==> pre[k] != '('
    requires forall k :: 0 <= k < |post| ==> post[k] != '('
    requires post != [] && post[0] != 'A'
    ensures forall k :: 1 <= k < |pre + post| ==> (pre + post)[k] != '('
    ensures (pre + post)[9] != 'A'
  {
  }

  /** The reason lines of the content-filter and response-limit fallbacks are
      not the API-error line. */
  lemma OtherReasonLinesUnmarked(reply: Reply)
    requires reply.Answered? && !reply.success
    requires reply.finishReason == Some("2") || reply.finishReason == Some("3")
    ensures !Contains(ReasonLine(FailureReason(reply).value), ApiErrorMarker)
  {
    if reply.finishReason == Some("2") {
      LimitReasonPlain();
      ReasonLineUnmarked(LimitReason);
    } else {
      FilterReasonPlain();
      ReasonLineUnmarked(FilterReason);
    }
  }

  // ---------------------------------------------------------------------------
  // Output names and the retry pass
  // ---------------------------------------------------------------------------

  /** The separator between a document's stem and the timestamp. */
  const Marker: string := "_analysis_"

  /** `strftime("%Y%m%d_%H%M%S")`: eight digits, an underscore, six digits. */
  predicate Stamp(ts: string) {
    |ts| == 15 && forall i :: 0 <= i < 15 ==> if i == 8 then ts[i] == '_' else IsDigit(ts[i])
  }

  /** The name an analysis of a document with stem `stem` is saved under. */
  function OutputName(stem: string, ts: string): string {
    stem + Marker + ts + ".txt"
  }

  /** The last occurrence at or before position i. */
  function LastFrom(s: string, sub: string, i: nat): (r: Option<nat>)
    ensures r.Some? ==> r.value <= i && At(s, sub, r.value)
    ensures r.Some? ==> forall j :: r.value < j <= i ==> !At(s, sub, j)
    ensures r.None? ==> forall j :: 0 <= j <= i ==> !At(s, sub, j)
    decreases i
  {
    if At(s, sub, i) then Some(i)
    else if i == 0 then None
    else LastFrom(s, sub, i - 1)
  }

  /** `s.rfind(sub)`, as an Option. */
  function LastOccurrence(s: string, sub: string): (r: Option<nat>)
    ensures r.Some? ==> At(s, sub, r.value) && forall j :: r.value < j ==> !At(s, sub, j)
    ensures r.None? ==> forall j :: !At(s, sub, j)
  {
    if |sub| > |s| then None else LastFrom(s, sub, |s| - |sub|)
  }

  /** The stem recovered from an analysis file name as the retry pass does
      it: the text before the FIRST occurrence of the separator. */
  function RetryStemAsWritten(name: string): (r: Option<string>)
    ensures r.Some? ==> r.value <= Stem(name)
  {
    var base := Stem(name);
    if Contains(base, Marker) then Some(SplitOn(base, Marker)[0]) else None
  }

  /** The stem recovered from the LAST occurrence of the separator, which is
      the one the saving step put there. */
  function RetryStem(name: string): (r: Option<string>)
    ensures r.Some? ==> r.value <= Stem(name)
    ensures r.None? <==> forall j :: !At(Stem(name), Marker, j)
  {
    var base := Stem(name);
    match LastOccurrence(base, Marker)
    case Some(i) => Some(base[..i])
    case None => None
  }

  /** The stem of a saved name is the stem, separator and timestamp. */
  lemma OutputNameStem(stem: string, ts: string)
    requires Stamp(ts)
    ensures Stem(OutputName(stem, ts)) == stem + Marker + ts
  {
    var base := stem + Marker + ts;
    forall j | 1 <= j < 4 ensures ".txt"[j] != '.' {
    }
    StemOfExtension(base, ".txt");
  }

  /** No separator starts after the one the saving step put in: the
      timestamp has no letter and the separator cannot overlap itself
      there. */
  lemma NoLaterMarker(stem: string, ts: string, j: nat)
    requires Stamp(ts) && |stem| < j
    ensures !At(stem + Marker + ts, Marker, j)
  {
    var base := stem + Marker + ts;
    if j + |Marker| <= |base| {
      var k := j - |stem|;
      if k == 2 {
        assert base[j] == Marker[2];
      } else if k < 9 {
        assert base[j + 1] == Marker[k + 1];
      } else {
        assert base[j + 1] == ts[k + 1 - |Marker|];
      }
      assert base[j..j + |Marker|][0] == base[j] && base[j..j + |Marker|][1] == base[j + 1];
    }
  }

  /** Recovering the stem from the last separator undoes the naming, for
      every stem. */
  lemma RetryStemRoundTrip(stem: string, ts: string)
    requires Stamp(ts)
    ensures RetryStem(OutputName(stem, ts)) == Some(stem)
  {
    OutputNameStem(stem, ts);
    var base := stem + Marker + ts;
    assert At(base, Marker, |stem|);
    var r := LastOccurrence(base, Marker);
    if r.Some? && r.value != |stem| {
      if r.value > |stem| {
        NoLaterMarker(stem, ts, r.value);
      }
    }
    assert base[..|stem|] == stem;
  }

  /** No separator starts inside the stem, even one running into the
      separator the saving step adds. */
  predicate NoEarlyMarker(stem: string) {
    forall j :: 0 <= j < |stem| ==> !At(stem + Marker, Marker, j)
  }

  /** As written, the stem comes back exactly when no separator starts
      inside it. */
  lemma RetryStemAsWrittenRoundTrip(stem: string, ts: string)
    requires Stamp(ts) && NoEarlyMarker(stem)
    ensures RetryStemAsWritten(OutputName(stem, ts)) == Some(stem)
  {
    OutputNameStem(stem, ts);
    var base := stem + Marker + ts;
    assert base[|stem|..|stem| + |Marker|] == Marker;
    ContainsAt(base, Marker, |stem|);
    NoEarlyInBase(stem, ts);
    SplitHeadBefore(base, Marker, |stem|);
    assert base[..|stem|] == stem;
  }

  lemma NoEarlyInBase(stem: string, ts: string)
    requires NoEarlyMarker(stem)
    ensures forall j :: 0 <= j < |stem| ==> !(Marker <= (stem + Marker + ts)[j..])
  {
    var base := stem + Marker + ts;
    forall j | 0 <= j < |stem| ensures !(Marker <= base[j..]) {
      if Marker <= base[j..] {
        assert base[j..j + |Marker|] == (stem + Marker)[j..j + |Marker|];
        assert At(stem + Marker, Marker, j);
      }
    }
  }

  /** A stem ending in "_analysis" is cut short as written: "a_analysis"
      comes back as "a", while the last separator gives it back whole. */
  lemma RetryStemAsWrittenLosesStem()
    ensures RetryStemAsWritten(OutputName("a_analysis", "20240101_120000")) == Some("a")
    ensures RetryStem(OutputName("a_analysis", "20240101_120000")) == Some("a_analysis")
  {
    var ts := "20240101_120000";
    assert Stamp(ts) by {
      forall i | 0 <= i < 15 ensures if i == 8 then ts[i] == '_' else IsDigit(ts[i]) {
      }
    }
    OutputNameStem("a_analysis", ts);
    var base := "a_analysis" + Marker + ts;
    assert base[1..11] == Marker;
    ContainsAt(base, Marker, 1);
    assert !(Marker <= base[0..]) by {
      assert base[0] == 'a';
    }
    SplitHeadBefore(base, Marker, 1);
    assert base[..1] == "a";
    RetryStemRoundTrip("a_analysis", ts);
  }

  /** `output_dir.glob("*_analysis_*.txt")`. */
  predicate MatchesGlob(name: string) {
    && |name| >= 4 && name[|name| - 4..] == ".txt"
    && exists i :: 0 <= i && i + |Marker| <= |name| - 4 && At(name, Marker, i)
  }

  lemma OutputNameMatchesGlob(stem: string, ts: string)
    ensures MatchesGlob(OutputName(stem, ts))
  {
    var name := OutputName(stem, ts);
    assert At(name, Marker, |stem|);
  }

  /** An analysis file found in the output directory: its name and its
      content. */
  datatype SavedFile = SavedFile(name: string, content: string)

  /** The document a failed analysis is retried from, when the retry pass
      retries it: the stem recovered as written, before the first
      separator, with ".json", if the parsed directory has it. */
  function RetryTarget(f: SavedFile, parsed: set<string>): (r: Option<string>)
    ensures r.Some? ==> r.value in parsed && MatchesGlob(f.name) && IsRetryCandidate(f.content)
    ensures r.Some? ==> RetryStemAsWritten(f.name).Some? && r.value == RetryStemAsWritten(f.name).value + ".json"
  {
    if MatchesGlob(f.name) && IsRetryCandidate(f.content) then
      match RetryStemAsWritten(f.name)
      case Some(stem) => if stem + ".json" in parsed then Some(stem + ".json") else None
      case None => None
    else None
  }

  /** `check_and_retry_failed_analyses` without the re-analysis itself: the
      documents to analyse again, in the order the files are found. */
  function RetryTargets(files: seq<SavedFile>, parsed: set<string>): (r: seq<string>)
    ensures forall t :: t in r <==> exists k :: 0 <= k < |files| && RetryTarget(files[k], parsed) == Some(t)
    ensures |r| <= |files|
    decreases |files|
  {
    if files == [] then []
    else
      var rest := RetryTargets(files[1..], parsed);
      assert forall k :: 1 <= k < |files| ==> files[k] == files[1..][k - 1];
      match RetryTarget(files[0], parsed)
      case Some(t) => [t] + rest
      case None => rest
  }

  /** The whole cycle: a document "X.json" whose analysis failed with an API
      error, saved under its output name, is found again by the retry pass,
      provided no separator starts inside X (see RetryStemAsWrittenLosesStem
      for one that does). */
  lemma FailedDocumentRetried(docFile: string, ts: string, analyzedAt: string, language: string, textLength: nat,
                              timeText: string, reply: Reply, files: seq<SavedFile>, parsed: set<string>, k: nat)
    requires |docFile| > 5 && docFile[|docFile| - 5..] == ".json" && docFile in parsed
    requires NoEarlyMarker(docFile[..|docFile| - 5])
    requires Stamp(ts)
    requires reply.Answered? && !reply.success
    requires reply.finishReason != Some("2") && reply.finishReason != Some("3")
    requires k < |files|
    requires files[k] == SavedFile(OutputName(Stem(docFile), ts),
                                   SavedReport(docFile, analyzedAt, language, textLength, timeText,
                                               AnalysisText(docFile, language, textLength, reply)))
    ensures docFile in RetryTargets(files, parsed)
  {
    ApiErrorReportSelected(docFile, analyzedAt, language, textLength, timeText, reply);
    SavedDocumentTarget(docFile, ts, files[k].content, parsed);
  }

  /** A retry candidate saved under the output name of "X.json" leads back
      to "X.json". */
  lemma SavedDocumentTarget(docFile: string, ts: string, content: string, parsed: set<string>)
    requires |docFile| > 5 && docFile[|docFile| - 5..] == ".json" && docFile in parsed
    requires NoEarlyMarker(docFile[..|docFile| - 5])
    requires Stamp(ts) && IsRetryCandidate(content)
    ensures RetryTarget(SavedFile(OutputName(Stem(docFile), ts), content), parsed) == Some(docFile)
  {
    var x := docFile[..|docFile| - 5];
    assert docFile == x + ".json";
    forall j | 1 <= j < 5 ensures ".json"[j] != '.' {
    }
    StemOfExtension(x, ".json");
    OutputNameMatchesGlob(x, ts);
    RetryStemAsWrittenRoundTrip(x, ts);
  }
}
