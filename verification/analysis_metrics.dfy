/** The session metrics of the contract analyser (src/analysis_metrics.py):
    per-document bookkeeping, the counters it keeps consistent, the quality
    scores of an analysis text, the complexity score and the ratios of the
    final report. Regular expressions are an oracle `search(regex, text)`
    over patterns tagged with their `re.IGNORECASE` flag. The clock is a
    parameter. Reals are exact. */
module AnalysisMetrics {
  import opened Wrappers
  import opened Text

  // ---------------------------------------------------------------------------
  // Counting
  // ---------------------------------------------------------------------------

  /** `sum(bools)`: how many indicators hold. */
  function CountTrue(bs: seq<bool>): (n: nat)
    ensures n <= |bs|
    ensures n == |bs| <==> forall i :: 0 <= i < |bs| ==> bs[i]
    ensures n == 0 <==> forall i :: 0 <= i < |bs| ==> !bs[i]
    decreases |bs|
  {
    if bs == [] then 0
    else
      var rest := CountTrue(bs[1..]);
      assert forall i :: 1 <= i < |bs| ==> bs[i] == bs[1..][i - 1];
      (if bs[0] then 1 else 0) + rest
  }

  /** A count over a positive total, as a ratio. */
  lemma RatioFacts(n: nat, m: nat)
    requires 0 < m && n <= m
    ensures 0.0 <= n as real / m as real <= 1.0
    ensures n as real / m as real == 1.0 <==> n == m
    ensures n as real / m as real == 0.0 <==> n == 0
  {
    var x := n as real / m as real;
    assert x * m as real == n as real;
  }

  /** The share of the indicators that hold. */
  function Share(bs: seq<bool>): (r: real)
    requires bs != []
    ensures 0.0 <= r <= 1.0
    ensures r == 1.0 <==> forall i :: 0 <= i < |bs| ==> bs[i]
    ensures r == 0.0 <==> forall i :: 0 <= i < |bs| ==> !bs[i]
  {
    RatioFacts(CountTrue(bs), |bs|);
    CountTrue(bs) as real / |bs| as real
  }

  /** A regular expression as `re.search` is given it: `Ci` with the
      `re.IGNORECASE` flag, `Re` without. */
  datatype Regex = Re(pattern: string) | Ci(pattern: string)

  /** `s.count(c)`. */
  function CountChar(s: string, c: char): (n: nat)
    ensures n <= |s|
    ensures n == 0 <==> c !in s
    decreases |s|
  {
    if s == [] then 0
    else
      assert s == [s[0]] + s[1..];
      (if s[0] == c then 1 else 0) + CountChar(s[1..], c)
  }

  /** A position where a word of `s.split()` begins. */
  predicate WordStart(s: string, i: nat)
    requires i < |s|
  {
    !IsSpace(s[i]) && (i == 0 || IsSpace(s[i - 1]))
  }

  /** `len(s.split())`: the number of maximal runs of non-whitespace. */
  function WordCount(s: string): (n: nat)
    decreases |s|
  {
    if s == [] then 0
    else WordCount(s[..|s| - 1]) + (if WordStart(s, |s| - 1) then 1 else 0)
  }

  /** Words are separated by whitespace, so there is at most one word for
      every two characters, rounded up. */
  lemma {:induction false} WordCountBound(s: string)
    ensures 2 * WordCount(s) <= |s| + 1
    ensures s != [] && IsSpace(s[|s| - 1]) ==> 2 * WordCount(s) <= |s|
    decreases |s|
  {
    if s != [] {
      var p := s[..|s| - 1];
      WordCountBound(p);
      if |p| > 0 {
        assert p[|p| - 1] == s[|s| - 2];
      }
    }
  }

  /** `len(re.findall(r'[A-Z][a-z]+', s))`: a match starts at every ASCII
      capital followed by an ASCII small letter, and consumes only small
      letters after it, so the matches are counted by their starts. */
  function CapitalWords(s: string): (n: nat)
    ensures n <= |s|
    decreases |s|
  {
    if |s| < 2 then 0
    else (if 'A' <= s[0] <= 'Z' && 'a' <= s[1] <= 'z' then 1 else 0) + CapitalWords(s[1..])
  }

  // ---------------------------------------------------------------------------
  // Quality scores
  // ---------------------------------------------------------------------------

  const StructurePatterns: seq<string> := [
    "contract type|type:|purpose",
    "parties|party|between|among",
    "date|term|effective|expir",
    "financial|payment|fee|cost|price",
    "obligation|requirement|shall|must",
    "risk|liability|penalty|breach"]

  /** `_check_structure_compliance`: the share of the six section patterns
      found, ignoring case. */
  function StructureScore(response: string, search: (Regex, string) -> bool): (r: real)
    ensures 0.0 <= r <= 1.0
    ensures r == 1.0 <==> forall i :: 0 <= i < |StructurePatterns| ==> search(Ci(StructurePatterns[i]), response)
    ensures r == 0.0 <==> forall i :: 0 <= i < |StructurePatterns| ==> !search(Ci(StructurePatterns[i]), response)
  {
    var bs := seq(|StructurePatterns|, i requires 0 <= i < |StructurePatterns| => search(Ci(StructurePatterns[i]), response));
    assert forall i :: 0 <= i < |bs| ==> bs[i] == search(Ci(StructurePatterns[i]), response);
    Share(bs)
  }

  /** The six completeness indicators, in the source's order. */
  function CompletenessIndicators(response: string, search: (Regex, string) -> bool): (bs: seq<bool>)
    ensures |bs| == 6
  {
    [ |response| > 100,
      search(Re("\\d+"), response),
      search(Re("[A-Z][a-z]+ [A-Z][a-z]+"), response),
      !search(Ci("not found|unable to|cannot determine"), response),
      search(Ci("shall|will|must|required"), response),
      CountChar(response, '.') >= 3 ]
  }

  /** `_check_completeness`: the share of the six indicators that hold. */
  function CompletenessScore(response: string, search: (Regex, string) -> bool): (r: real)
    ensures 0.0 <= r <= 1.0
    ensures r == 1.0 ==> |response| > 100 && CountChar(response, '.') >= 3
    ensures r == 1.0 ==> !search(Ci("not found|unable to|cannot determine"), response)
  {
    var bs := CompletenessIndicators(response, search);
    assert bs[0] == (|response| > 100) && bs[3] == !search(Ci("not found|unable to|cannot determine"), response);
    assert bs[5] == (CountChar(response, '.') >= 3);
    Share(bs)
  }

  /** The nine information-density indicators, in the source's order. */
  function DensityIndicators(response: string, search: (Regex, string) -> bool): (bs: seq<bool>)
    ensures |bs| == 9
  {
    [ search(Re("\\$[\\d,]+"), response),
      search(Re("\\d{1,2}[/-]\\d{1,2}[/-]\\d{2,4}"), response),
      search(Ci("\\d+\\s*(days|months|years)"), response),
      search(Re("(?:Inc\\.|LLC|Corp\\.|Ltd\\.)"), response),
      CapitalWords(response) >= 5,
      CountChar(response, ':') >= 2,
      search(Ci("(January|February|March|April|May|June|July|August|September|October|November|December)"), response),
      search(Ci("\\d+\\s*(percent|%)"), response),
      WordCount(response) >= 100 ]
  }

  /** `_check_information_density`: the share of the nine indicators that
      hold. */
  function DensityScore(response: string, search: (Regex, string) -> bool): (r: real)
    ensures 0.0 <= r <= 1.0
    ensures r == 1.0 ==> WordCount(response) >= 100 && CountChar(response, ':') >= 2
  {
    var bs := DensityIndicators(response, search);
    assert bs[5] == (CountChar(response, ':') >= 2) && bs[8] == (WordCount(response) >= 100);
    Share(bs)
  }

  /** A response shorter than 199 characters cannot have a hundred words, so
      it never earns the full density score. */
  lemma ShortResponseNotDense(response: string, search: (Regex, string) -> bool)
    requires |response| < 199
    ensures DensityScore(response, search) < 1.0
  {
    WordCountBound(response);
  }

  /** The contradiction pairs: a statement and its opposite. */
  const Contradictions: seq<(string, string)> := [
    ("high risk", "low risk"),
    ("expires?", "perpetual|indefinite"),
    ("simple|basic", "complex|complicated")]

  /** Both sides of pair i occur, ignoring case. */
  predicate Contradicts(response: string, search: (Regex, string) -> bool, i: nat)
    requires i < |Contradictions|
  {
    search(Ci(Contradictions[i].0), response) && search(Ci(Contradictions[i].1), response)
  }

  /** `_check_consistency`: 1 less 0.2 for each contradiction present, not
      below 0. With three pairs the floor is never reached. */
  function ConsistencyScore(response: string, search: (Regex, string) -> bool): (r: real)
    ensures 0.4 <= r <= 1.0
    ensures r == 1.0 <==> forall i :: 0 <= i < |Contradictions| ==> !Contradicts(response, search, i)
  {
    var bs := [Contradicts(response, search, 0), Contradicts(response, search, 1), Contradicts(response, search, 2)];
    assert forall i :: 0 <= i < |bs| ==> bs[i] == Contradicts(response, search, i);
    var k := CountTrue(bs);
    var score := 1.0 - 0.2 * k as real;
    if score > 0.0 then score else 0.0
  }

  const ContractTypes: seq<string> := [
    "service agreement|services contract",
    "employment|work|labor",
    "software|development|technology",
    "lease|rental|property",
    "purchase|sale|buy|sell",
    "consulting|advisory",
    "partnership|joint venture",
    "license|licensing",
    "non-disclosure|confidentiality|nda",
    "maintenance|support"]

  /** The key a contract type is counted under: its first alternative. */
  function TypeName(pattern: string): string {
    SplitOn(pattern, "|")[0]
  }

  /** A counter of a `dict.get(key, 0)` tally. */
  function Tally(m: map<string, nat>, key: string): nat {
    if key in m then m[key] else 0
  }

  /** `m[key] = m.get(key, 0) + 1`. */
  function Bump(m: map<string, nat>, key: string): (r: map<string, nat>)
    ensures Tally(r, key) == Tally(m, key) + 1
    ensures forall k :: k != key ==> Tally(r, k) == Tally(m, k)
    ensures r.Keys == m.Keys + {key}
  {
    m[key := Tally(m, key) + 1]
  }

  /** Pattern i is the first of the list that matches. */
  predicate FirstMatch(patterns: seq<string>, response: string, search: (Regex, string) -> bool, i: nat) {
    && i < |patterns|
    && search(Ci(patterns[i]), response)
    && forall j :: 0 <= j < i ==> !search(Ci(patterns[j]), response)
  }

  /** Some pattern of the list matches the response. */
  predicate AnyMatch(patterns: seq<string>, response: string, search: (Regex, string) -> bool) {
    exists i :: 0 <= i < |patterns| && search(Ci(patterns[i]), response)
  }

  /** `_check_contract_type_detection` over a list of type patterns: 1 when
      one matches, counting only the first matching type; else 0 with the
      tally untouched. */
  function DetectType(patterns: seq<string>, response: string, search: (Regex, string) -> bool, types: map<string, nat>): (r: (real, map<string, nat>))
    ensures r.0 == 1.0 || r.0 == 0.0
    ensures r.0 == 1.0 <==> AnyMatch(patterns, response, search)
    ensures r.0 == 0.0 ==> r.1 == types
    ensures r.0 == 1.0 ==> exists i: nat :: FirstMatch(patterns, response, search, i) && r.1 == Bump(types, TypeName(patterns[i]))
    decreases |patterns|
  {
    if patterns == [] then (0.0, types)
    else if search(Ci(patterns[0]), response) then
      assert FirstMatch(patterns, response, search, 0);
      (1.0, Bump(types, TypeName(patterns[0])))
    else
      var r := DetectType(patterns[1..], response, search, types);
      assert forall i :: 1 <= i < |patterns| ==> patterns[i] == patterns[1..][i - 1];
      if r.0 == 1.0 then
        var i: nat :| FirstMatch(patterns[1..], response, search, i) && r.1 == Bump(types, TypeName(patterns[1..][i]));
        assert FirstMatch(patterns, response, search, i + 1);
        r
      else r
  }

  /** The five scores `analyze_response_quality` reports. */
  datatype Quality = Quality(structure: real, completeness: real, density: real, consistency: real, typeDetection: real)

  predicate InUnit(x: real) {
    0.0 <= x <= 1.0
  }

  // ---------------------------------------------------------------------------
  // Session state
  // ---------------------------------------------------------------------------

  /** How a document's analysis ended. */
  datatype Outcome = Outcome(processingTime: real, success: bool, end: real)

  /** The per-document record. */
  datatype Doc = Doc(
    filename: string,
    start: real,
    textLength: int,
    language: string,
    apiCalls: nat,
    lastResponseTime: Option<real>,
    errors: seq<string>,
    quality: Option<Quality>,
    outcome: Option<Outcome>)

  /** The session's counters and lists. */
  datatype Session = Session(
    processed: nat,
    successful: nat,
    failed: nat,
    totalTime: real,
    docs: seq<Doc>,
    structure: seq<real>,
    completeness: seq<real>,
    extraction: seq<real>,
    consistency: seq<real>,
    responseTimes: seq<real>,
    tokens: seq<int>,
    sizes: seq<int>,
    languages: map<string, nat>,
    contractTypes: map<string, nat>,
    complexities: seq<real>)

  /** A fresh session. */
  function EmptySession(): (s: Session)
    ensures Inv(s) && s.processed == 0
  {
    Session(0, 0, 0, 0.0, [], [], [], [], [], [], [], [], map[], map[], [])
  }

  predicate AllInUnit(xs: seq<real>) {
    forall i :: 0 <= i < |xs| ==> InUnit(xs[i])
  }

  /** What every session state keeps: each processed document is either a
      success or a failure and has its record and complexity score; every
      quality score lies in [0, 1] and no complexity exceeds 1. */
  predicate Inv(s: Session) {
    && s.processed == s.successful + s.failed
    && |s.docs| == s.processed
    && |s.complexities| == s.processed
    && AllInUnit(s.structure) && AllInUnit(s.completeness)
    && AllInUnit(s.extraction) && AllInUnit(s.consistency)
    && forall i :: 0 <= i < |s.complexities| ==> s.complexities[i] <= 1.0
  }

  /** `start_document_analysis` at clock reading `now`: a fresh record; the
      size is appended and only the language's tally grows, by one. */
  function Start(s: Session, filename: string, textLength: int, language: string, now: real): (r: (Session, Doc))
    ensures r.0.sizes == s.sizes + [textLength]
    ensures Tally(r.0.languages, language) == Tally(s.languages, language) + 1
    ensures forall l :: l != language ==> Tally(r.0.languages, l) == Tally(s.languages, l)
    ensures r.0.(sizes := s.sizes, languages := s.languages) == s
    ensures r.1.apiCalls == 0 && r.1.errors == [] && r.1.outcome == None && r.1.quality == None
    ensures r.1.start == now && r.1.textLength == textLength && r.1.language == language
    ensures Inv(s) ==> Inv(r.0)
  {
    (s.(sizes := s.sizes + [textLength], languages := Bump(s.languages, language)),
     Doc(filename, now, textLength, language, 0, None, [], None, None))
  }

  /** Starting one document after another: each request is a file name, a
      text length and a language. */
  function StartAll(s: Session, reqs: seq<(string, int, string)>, now: real): (r: Session)
    ensures |r.sizes| == |s.sizes| + |reqs|
    decreases |reqs|
  {
    if reqs == [] then s
    else StartAll(Start(s, reqs[0].0, reqs[0].1, reqs[0].2, now).0, reqs[1..], now)
  }

  /** How many requests name language l. */
  function CountLanguage(reqs: seq<(string, int, string)>, l: string): (n: nat)
    ensures n <= |reqs|
    decreases |reqs|
  {
    if reqs == [] then 0 else (if reqs[0].2 == l then 1 else 0) + CountLanguage(reqs[1..], l)
  }

  /** After a run of starts, every language's tally has grown by the number
      of documents started in it. */
  lemma {:induction false} StartAllTally(s: Session, reqs: seq<(string, int, string)>, now: real, l: string)
    ensures Tally(StartAll(s, reqs, now).languages, l) == Tally(s.languages, l) + CountLanguage(reqs, l)
    decreases |reqs|
  {
    if reqs != [] {
      var s1 := Start(s, reqs[0].0, reqs[0].1, reqs[0].2, now).0;
      StartAllTally(s1, reqs[1..], now, l);
    }
  }

  /** `if tokens_used:` — None and 0 are false. */
  predicate TokensTruthy(tokens: Option<int>) {
    tokens.Some? && tokens.value != 0
  }

  /** `record_api_call`: one more call on the record; the response time is
      kept for the session only on success, the token count only when
      given and non-zero. */
  function RecordApiCall(s: Session, d: Doc, responseTime: real, tokens: Option<int>, success: bool): (r: (Session, Doc))
    ensures r.1.apiCalls == d.apiCalls + 1 && r.1.lastResponseTime == Some(responseTime)
    ensures r.1.(apiCalls := d.apiCalls, lastResponseTime := d.lastResponseTime) == d
    ensures |r.0.responseTimes| == |s.responseTimes| + 1 <==> success
    ensures |r.0.tokens| == |s.tokens| + 1 <==> TokensTruthy(tokens)
    ensures s.responseTimes <= r.0.responseTimes && s.tokens <= r.0.tokens
    ensures success ==> r.0.responseTimes[|s.responseTimes|] == responseTime
    ensures TokensTruthy(tokens) ==> r.0.tokens[|s.tokens|] == tokens.value
    ensures r.0.(responseTimes := s.responseTimes, tokens := s.tokens) == s
    ensures Inv(s) ==> Inv(r.0)
  {
    var times := if success then s.responseTimes + [responseTime] else s.responseTimes;
    var toks := if TokensTruthy(tokens) then s.tokens + [tokens.value] else s.tokens;
    (s.(responseTimes := times, tokens := toks),
     d.(apiCalls := d.apiCalls + 1, lastResponseTime := Some(responseTime)))
  }

  /** The five scores of a response and the contract type tally after the
      type detection. */
  function Assess(response: string, search: (Regex, string) -> bool, types: map<string, nat>): (r: (Quality, map<string, nat>))
    ensures InUnit(r.0.structure) && InUnit(r.0.completeness) && InUnit(r.0.density) && InUnit(r.0.consistency)
    ensures r.0.typeDetection == 1.0 <==> AnyMatch(ContractTypes, response, search)
    ensures r.0.typeDetection == 0.0 ==> r.1 == types
  {
    var t := DetectType(ContractTypes, response, search, types);
    (Quality(
      StructureScore(response, search),
      CompletenessScore(response, search),
      DensityScore(response, search),
      ConsistencyScore(response, search),
      t.0),
     t.1)
  }

  lemma AppendInUnit(xs: seq<real>, x: real)
    requires AllInUnit(xs) && InUnit(x)
    ensures AllInUnit(xs + [x])
  {
  }

  /** `analyze_response_quality`: the five scores, stored on the record; the
      first four are appended to the session's lists and the contract type
      tally is updated. */
  function AnalyzeQuality(s: Session, d: Doc, response: string, search: (Regex, string) -> bool): (r: (Session, Doc, Quality))
    ensures InUnit(r.2.structure) && InUnit(r.2.completeness) && InUnit(r.2.density) && InUnit(r.2.consistency)
    ensures r.2.typeDetection == 1.0 <==> AnyMatch(ContractTypes, response, search)
    ensures r.0.structure == s.structure + [r.2.structure] && r.0.completeness == s.completeness + [r.2.completeness]
    ensures r.0.extraction == s.extraction + [r.2.density] && r.0.consistency == s.consistency + [r.2.consistency]
    ensures r.1 == d.(quality := Some(r.2))
    ensures r.0.processed == s.processed && r.0.docs == s.docs && r.0.sizes == s.sizes
    ensures Inv(s) ==> Inv(r.0)
  {
    var (q, types) := Assess(response, search, s.contractTypes);
    var s' := s.(structure := s.structure + [q.structure],
                 completeness := s.completeness + [q.completeness],
                 extraction := s.extraction + [q.density],
                 consistency := s.consistency + [q.consistency],
                 contractTypes := types);
    InvAfterScores(s, q, types);
    (s', d.(quality := Some(q)), q)
  }

  lemma InvAfterScores(s: Session, q: Quality, types: map<string, nat>)
    requires InUnit(q.structure) && InUnit(q.completeness) && InUnit(q.density) && InUnit(q.consistency)
    ensures Inv(s) ==> Inv(s.(structure := s.structure + [q.structure],
                              completeness := s.completeness + [q.completeness],
                              extraction := s.extraction + [q.density],
                              consistency := s.consistency + [q.consistency],
                              contractTypes := types))
  {
    if Inv(s) {
      AppendInUnit(s.structure, q.structure);
      AppendInUnit(s.completeness, q.completeness);
      AppendInUnit(s.extraction, q.density);
      AppendInUnit(s.consistency, q.consistency);
    }
  }

  // ---------------------------------------------------------------------------
  // Complexity
  // ---------------------------------------------------------------------------

  function MinReal(a: real, b: real): (r: real)
    ensures r <= a && r <= b && (r == a || r == b)
  {
    if a <= b then a else b
  }

  /** The language multiplier: 1.2 for a code starting with "ar". */
  function LanguageFactor(language: string): (f: real)
    ensures f == 1.2 <==> "ar" <= language
    ensures f == 1.0 <==> !("ar" <= language)
  {
    if "ar" <= language then 1.2 else 1.0
  }

  /** `_calculate_complexity_score`: the length, time and call factors, each
      capped at 1, averaged, scaled by the language factor and capped at 1. */
  function Complexity(textLength: int, time: real, apiCalls: nat, language: string): (r: real)
    ensures r <= 1.0
    ensures textLength >= 0 && time >= 0.0 ==> 0.0 <= r
  {
    var lengthFactor := MinReal(textLength as real / 50000.0, 1.0);
    var timeFactor := MinReal(time / 30.0, 1.0);
    var apiFactor := MinReal(apiCalls as real / 3.0, 1.0);
    MinReal((lengthFactor + timeFactor + apiFactor) * LanguageFactor(language) / 3.0, 1.0)
  }

  /** A document at or beyond every baseline is as complex as can be. */
  lemma ComplexitySaturates(textLength: int, time: real, apiCalls: nat, language: string)
    requires textLength >= 50000 && time >= 30.0 && apiCalls >= 3
    ensures Complexity(textLength, time, apiCalls, language) == 1.0
  {
  }

  /** Complexity grows with the length, the time and the calls. */
  lemma ComplexityMonotone(l1: int, t1: real, c1: nat, l2: int, t2: real, c2: nat, language: string)
    requires l1 <= l2 && t1 <= t2 && c1 <= c2
    ensures Complexity(l1, t1, c1, language) <= Complexity(l2, t2, c2, language)
  {
    var f := LanguageFactor(language);
    var a := MinReal(l1 as real / 50000.0, 1.0) + MinReal(t1 / 30.0, 1.0) + MinReal(c1 as real / 3.0, 1.0);
    var b := MinReal(l2 as real / 50000.0, 1.0) + MinReal(t2 / 30.0, 1.0) + MinReal(c2 as real / 3.0, 1.0);
    assert a <= b;
    assert a * f <= b * f;
  }

  /** For the same non-negative measurements, an Arabic document is never
      scored simpler than any other. */
  lemma ArabicNotSimpler(textLength: int, time: real, apiCalls: nat, other: string)
    requires textLength >= 0 && time >= 0.0
    ensures Complexity(textLength, time, apiCalls, "ar") >= Complexity(textLength, time, apiCalls, other)
  {
    var a := MinReal(textLength as real / 50000.0, 1.0) + MinReal(time / 30.0, 1.0) + MinReal(apiCalls as real / 3.0, 1.0);
    assert a >= 0.0;
    assert a * 1.2 >= a * LanguageFactor(other);
  }

  // ---------------------------------------------------------------------------
  // finish_document_analysis
  // ---------------------------------------------------------------------------

  /** `if error:` — None and "" are false. */
  predicate ErrorTruthy(error: Option<string>) {
    error.Some? && error.value != ""
  }

  /** `finish_document_analysis` at clock reading `now`: the record gets its
      outcome and any error, the session counts one more document and one
      more success or failure, and the complexity score is appended. */
  function Finish(s: Session, d: Doc, success: bool, error: Option<string>, now: real): (r: Session)
    ensures r.processed == s.processed + 1
    ensures success ==> r.successful == s.successful + 1 && r.failed == s.failed
    ensures !success ==> r.failed == s.failed + 1 && r.successful == s.successful
    ensures r.totalTime == s.totalTime + (now - d.start)
    ensures |r.docs| == |s.docs| + 1 && r.docs[..|s.docs|] == s.docs
    ensures r.docs[|s.docs|].outcome == Some(Outcome(now - d.start, success, now))
    ensures r.docs[|s.docs|].errors == d.errors + (if ErrorTruthy(error) then [error.value] else [])
    ensures r.complexities == s.complexities + [Complexity(d.textLength, now - d.start, d.apiCalls, d.language)]
    ensures r.sizes == s.sizes && r.languages == s.languages && r.structure == s.structure
    ensures Inv(s) ==> Inv(r)
  {
    var time := now - d.start;
    var errors := if ErrorTruthy(error) then d.errors + [error.value] else d.errors;
    var done := d.(errors := errors, outcome := Some(Outcome(time, success, now)));
    s.(processed := s.processed + 1,
       totalTime := s.totalTime + time,
       successful := if success then s.successful + 1 else s.successful,
       failed := if success then s.failed else s.failed + 1,
       docs := s.docs + [done],
       complexities := s.complexities + [Complexity(d.textLength, time, d.apiCalls, d.language)])
  }

  // ---------------------------------------------------------------------------
  // calculate_final_metrics
  // ---------------------------------------------------------------------------

  function Sum(xs: seq<real>): real
    decreases |xs|
  {
    if xs == [] then 0.0 else xs[0] + Sum(xs[1..])
  }

  /** `statistics.mean`. */
  function Mean(xs: seq<real>): real
    requires xs != []
  {
    Sum(xs) / |xs| as real
  }

  /** A sum of values within bounds lies within the bounds times the count. */
  lemma {:induction false} SumBounds(xs: seq<real>, lo: real, hi: real)
    requires forall i :: 0 <= i < |xs| ==> lo <= xs[i] <= hi
    ensures |xs| as real * lo <= Sum(xs) <= |xs| as real * hi
    decreases |xs|
  {
    if xs != [] {
      var rest := xs[1..];
      assert forall i :: 0 <= i < |rest| ==> rest[i] == xs[i + 1];
      SumBounds(rest, lo, hi);
      var m := |rest| as real;
      assert Sum(xs) == xs[0] + Sum(rest) && lo <= xs[0] <= hi;
      assert |xs| as real * lo == m * lo + lo && |xs| as real * hi == m * hi + hi;
    }
  }

  /** The mean of values within bounds lies within the bounds. */
  lemma MeanBounds(xs: seq<real>, lo: real, hi: real)
    requires xs != []
    requires forall i :: 0 <= i < |xs| ==> lo <= xs[i] <= hi
    ensures lo <= Mean(xs) <= hi
  {
    SumBounds(xs, lo, hi);
    var n := |xs| as real;
    assert Mean(xs) * n == Sum(xs);
  }

  function SumInt(xs: seq<int>): int
    decreases |xs|
  {
    if xs == [] then 0 else xs[0] + SumInt(xs[1..])
  }

  /** `int(x)`: truncation toward zero. */
  function Trunc(x: real): (r: int)
    ensures x >= 0.0 ==> r as real <= x < r as real + 1.0
    ensures x < 0.0 ==> r as real - 1.0 < x <= r as real
  {
    if x >= 0.0 then x.Floor else -((-x).Floor)
  }

  /** The mean of a list of scores, when there are any. */
  function MeanIf(xs: seq<real>): (r: Option<real>)
    ensures r.Some? <==> xs != []
    ensures AllInUnit(xs) && r.Some? ==> InUnit(r.value)
  {
    if xs == [] then None
    else
      MeanWithin(xs, 0.0, 1.0);
      Some(Mean(xs))
  }

  /** The bounds of the mean, whenever the values keep them. */
  lemma MeanWithin(xs: seq<real>, lo: real, hi: real)
    ensures xs != [] && (forall i :: 0 <= i < |xs| ==> lo <= xs[i] <= hi) ==> lo <= Mean(xs) <= hi
  {
    if xs != [] && (forall i :: 0 <= i < |xs| ==> lo <= xs[i] <= hi) {
      MeanBounds(xs, lo, hi);
    }
  }

  /** The figures `calculate_final_metrics` adds; rounding is not modelled. */
  datatype Report = Report(
    metrics: Session,
    avgResponseTime: Option<real>,
    successRate: Option<real>,
    throughput: Option<real>,
    avgStructure: Option<real>,
    avgCompleteness: Option<real>,
    avgExtraction: Option<real>,
    avgConsistency: Option<real>,
    avgDocumentSize: Option<int>,
    avgComplexity: Option<real>)

  /** `calculate_final_metrics`: nothing is added before a document has
      been processed; afterwards the success rate always, and each average
      over a non-empty list. */
  function FinalMetrics(s: Session): (r: Report)
    ensures r.metrics == s
    ensures s.processed == 0 ==> r == Report(s, None, None, None, None, None, None, None, None, None)
    ensures s.processed > 0 ==> r.successRate == Some(s.successful as real / s.processed as real)
    ensures s.processed > 0 ==> (r.throughput.Some? <==> s.totalTime > 0.0)
    ensures s.processed > 0 && s.totalTime > 0.0 ==> r.throughput == Some(s.successful as real / s.totalTime * 60.0)
    ensures s.processed > 0 ==> (r.avgResponseTime.Some? <==> s.responseTimes != [])
    ensures s.processed > 0 ==> (r.avgDocumentSize.Some? <==> s.sizes != [])
    ensures Inv(s) && s.processed > 0 ==> InUnit(r.successRate.value)
    ensures Inv(s) && r.avgStructure.Some? ==> InUnit(r.avgStructure.value)
    ensures Inv(s) && r.avgCompleteness.Some? ==> InUnit(r.avgCompleteness.value)
    ensures Inv(s) && r.avgExtraction.Some? ==> InUnit(r.avgExtraction.value)
    ensures Inv(s) && r.avgConsistency.Some? ==> InUnit(r.avgConsistency.value)
    ensures Inv(s) && r.avgComplexity.Some? ==> r.avgComplexity.value <= 1.0
  {
    if s.processed == 0 then Report(s, None, None, None, None, None, None, None, None, None)
    else
      Report(
        s,
        if s.responseTimes == [] then None else Some(Mean(s.responseTimes)),
        Some(s.successful as real / s.processed as real),
        if s.totalTime > 0.0 then Some(s.successful as real / s.totalTime * 60.0) else None,
        MeanIf(s.structure),
        MeanIf(s.completeness),
        MeanIf(s.extraction),
        MeanIf(s.consistency),
        if s.sizes == [] then None else Some(Trunc(SumInt(s.sizes) as real / |s.sizes| as real)),
        MeanAtMostOne(s.complexities))
  }

  /** The mean of the complexity scores, when there are any; none exceeds 1,
      so neither does the mean. */
  function MeanAtMostOne(xs: seq<real>): (r: Option<real>)
    ensures r.Some? <==> xs != []
    ensures (forall i :: 0 <= i < |xs| ==> xs[i] <= 1.0) && r.Some? ==> r.value <= 1.0
  {
    if xs == [] then None
    else
      MeanWithin(xs, MinOf(xs), 1.0);
      Some(Mean(xs))
  }

  /** The `avg_avg_<type>` entry a second `calculate_final_metrics` adds for
      an average `avg_<type>` the first call stored: the stored float is
      read as the one-element list of scores, and skipped when it is 0.0,
      which Python treats as false. */
  function RepeatedAverage(prev: Option<real>): (r: Option<real>)
    ensures r.Some? <==> prev.Some? && prev.value != 0.0
    ensures r.Some? ==> r.value == prev.value
  {
    if prev.Some? && prev.value != 0.0 then
      assert Sum([prev.value]) == prev.value + Sum([]);
      Some(Mean([prev.value]))
    else None
  }

  /** The least element of a non-empty list. */
  function MinOf(xs: seq<real>): (m: real)
    requires xs != []
    ensures forall i :: 0 <= i < |xs| ==> m <= xs[i]
    decreases |xs|
  {
    if |xs| == 1 then xs[0]
    else
      var m := MinOf(xs[1..]);
      assert forall i :: 1 <= i < |xs| ==> xs[i] == xs[1..][i - 1];
      if xs[0] <= m then xs[0] else m
  }
}
