/** Extractive answer synthesis (`extractive_answer` in app/rag_model.py): a
    priority-ordered table of legal-clause rules over the retrieved hits, a
    lexical best-sentence fallback, and a last-resort first line, every answer
    a quoted span of the hits' text with citations. The clause regexes are
    modelled as finder oracles. */
module RagAnswer {
  import opened Wrappers
  import opened Text
  import opened Sentences
  import opened QaCli
  import opened RagRetrieval

  /** Longest span (in characters) an answer quotes; `max_chars` keeps its
      default everywhere the core calls the function. */
  const MaxChars: nat := 700

  const NotFound: string := "NOT_FOUND"

  datatype Answer = Answer(answer: string, citations: seq<string>)

  /** A compiled pattern's `search(text)`: the matched text, if any. */
  type Finder = string -> Option<string>

  /** What every clause pattern guarantees: a match is a non-empty piece of
      the searched text. */
  ghost predicate SoundFinder(f: Finder) {
    forall t :: f(t).Some? ==> f(t).value != [] && Contains(t, f(t).value)
  }

  /** The per-hit law-sentence pattern and the seven clause patterns. */
  datatype Finders = Finders(
    lawSentence: Finder,
    governingLaw: Finder,
    termination: Finder,
    payment: Finder,
    parties: Finder,
    confidential: Finder,
    venue: Finder,
    liabilityCap: Finder)

  ghost predicate Sound(fs: Finders) {
    && SoundFinder(fs.lawSentence) && SoundFinder(fs.governingLaw)
    && SoundFinder(fs.termination) && SoundFinder(fs.payment)
    && SoundFinder(fs.parties) && SoundFinder(fs.confidential)
    && SoundFinder(fs.venue) && SoundFinder(fs.liabilityCap)
  }

  /** The rules of the table, in the order they are tried. */
  datatype Rule = GoverningLawRule | TerminationRule | PaymentRule | PartiesRule
                | ConfidentialRule | VenueRule | LiabilityCapRule

  const RuleOrder: seq<Rule> := [GoverningLawRule, TerminationRule, PaymentRule, PartiesRule,
                                 ConfidentialRule, VenueRule, LiabilityCapRule]

  /** The lower-cased query fragments that enable a rule. */
  function RuleTriggers(r: Rule): seq<string> {
    match r
    case GoverningLawRule => ["govern", "law", "jurisd"]
    case TerminationRule => ["terminat", "expire"]
    case PaymentRule => ["payment", "fee", "charges", "settle", "compensation"]
    case PartiesRule => ["parties", "roles", "between", "by and among"]
    case ConfidentialRule => ["confidential"]
    case VenueRule => ["venue", "governing", "law"]
    case LiabilityCapRule => ["liability", "cap", "limit"]
  }

  function FinderOf(fs: Finders, r: Rule): Finder {
    match r
    case GoverningLawRule => fs.governingLaw
    case TerminationRule => fs.termination
    case PaymentRule => fs.payment
    case PartiesRule => fs.parties
    case ConfidentialRule => fs.confidential
    case VenueRule => fs.venue
    case LiabilityCapRule => fs.liabilityCap
  }

  /** The span a rule quotes from its match: the first line for termination
      clauses, the whole match otherwise. */
  function Span(r: Rule, m: string): (s: string)
    ensures s <= m
  {
    if r == TerminationRule then FirstLine(m) else m
  }

  function Texts(hits: seq<Candidate>): (r: seq<string>)
    ensures |r| == |hits| && forall i :: 0 <= i < |hits| ==> r[i] == hits[i].text
  {
    seq(|hits|, i requires 0 <= i < |hits| => hits[i].text)
  }

  /** `" ".join(h[2] for h in hits)`. */
  function Joined(hits: seq<Candidate>): string {
    Join(" ", Texts(hits))
  }

  function Quote(s: string): (r: string)
    ensures |r| == |s| + 2 && r[0] == '"' && r[|r| - 1] == '"' && r[1..|r| - 1] == s
  {
    "\"" + s + "\""
  }

  /** An answer text wrapped in double quotes. */
  predicate QuotedAnswer(a: string) {
    |a| >= 2 && a[0] == '"' && a[|a| - 1] == '"'
  }

  /** The text between the outer quotes of an answer. */
  function Inner(a: string): string
    requires |a| >= 2
  {
    a[1..|a| - 1]
  }

  /** The ids of the first five hits (all of them when there are fewer). */
  function TopIds(hits: seq<Candidate>): (r: seq<string>)
    ensures |r| == MinInt(5, |hits|)
    ensures forall i :: 0 <= i < |r| ==> r[i] == hits[i].id
  {
    seq(MinInt(5, |hits|), i requires 0 <= i < MinInt(5, |hits|) => hits[i].id)
  }

  /** The two citation forms: one hit's id, or the ids of the first five
      hits. */
  predicate CitationForm(hits: seq<Candidate>, cites: seq<string>) {
    (exists c :: 0 <= c < |hits| && cites == [hits[c].id]) || cites == TopIds(hits)
  }

  // ---------------------------------------------------------------------------
  // pack_with_best_citation
  // ---------------------------------------------------------------------------

  /** The first hit at or after p whose text contains the non-empty span. */
  function CiteFrom(hits: seq<Candidate>, span: string, p: nat): (r: Option<nat>)
    ensures r.Some? ==> p <= r.value < |hits| && span != [] && Contains(hits[r.value].text, span)
    ensures r.Some? ==> forall j :: p <= j < r.value ==> !Contains(hits[j].text, span)
    ensures r.None? ==> span == [] || forall j :: p <= j < |hits| ==> !Contains(hits[j].text, span)
    decreases |hits| - p
  {
    if span == [] || p >= |hits| then None
    else if Contains(hits[p].text, span) then Some(p)
    else CiteFrom(hits, span, p + 1)
  }

  /** `pack_with_best_citation`: quote the stripped span (cut to MaxChars)
      and cite the first hit containing it, or the first five hits when no
      hit does or that hit's id is empty. */
  function Pack(hits: seq<Candidate>, txt: string): (r: Answer)
    ensures QuotedAnswer(r.answer)
  {
    var mtxt := Strip(txt);
    var cid := CiteFrom(hits, mtxt, 0);
    var cites := if cid.Some? && hits[cid.value].id != "" then [hits[cid.value].id] else TopIds(hits);
    Answer(Quote(mtxt[..MinInt(MaxChars, |mtxt|)]), cites)
  }

  /** The quoted text is the stripped span, cut to MaxChars. */
  lemma PackInner(hits: seq<Candidate>, txt: string)
    ensures Inner(Pack(hits, txt).answer) <= Strip(txt)
    ensures |Inner(Pack(hits, txt).answer)| <= MaxChars
    ensures |Strip(txt)| <= MaxChars ==> Inner(Pack(hits, txt).answer) == Strip(txt)
  {
  }

  /** The citation is the id of the first hit containing the stripped span,
      when there is one and its id is not empty; otherwise the first five
      ids. */
  lemma PackCitation(hits: seq<Candidate>, txt: string)
    ensures var m, cites := Strip(txt), Pack(hits, txt).citations;
      || (exists c :: 0 <= c < |hits| && hits[c].id != "" && m != ""
            && Contains(hits[c].text, m)
            && (forall j :: 0 <= j < c ==> !Contains(hits[j].text, m))
            && cites == [hits[c].id])
      || cites == TopIds(hits)
    ensures var m := Strip(txt);
      (m == "" || forall j :: 0 <= j < |hits| ==> !Contains(hits[j].text, m))
      ==> Pack(hits, txt).citations == TopIds(hits)
  {
    var m := Strip(txt);
    var cid := CiteFrom(hits, m, 0);
    if cid.Some? && hits[cid.value].id != "" {
      assert Pack(hits, txt).citations == [hits[cid.value].id];
    }
  }

  /** A packed answer is a piece of any text that contains the packed span. */
  lemma PackExtractive(hits: seq<Candidate>, txt: string, big: string)
    requires Contains(big, txt)
    ensures Contains(big, Inner(Pack(hits, txt).answer))
  {
    PackInner(hits, txt);
    StrippedPrefixContained(big, txt, Inner(Pack(hits, txt).answer));
  }

  /** A prefix of a stripped piece of a text is a piece of the text. */
  lemma StrippedPrefixContained(big: string, txt: string, p: string)
    requires Contains(big, txt) && p <= Strip(txt)
    ensures Contains(big, p)
  {
    StripContained(txt);
    PrefixContained(big, txt, Strip(txt), p);
  }

  lemma PrefixContained(big: string, txt: string, s: string, p: string)
    requires Contains(big, txt) && Contains(txt, s) && p <= s
    ensures Contains(big, p)
  {
    ContainsAt(s, p, 0);
    ContainsTrans(txt, s, p);
    ContainsTrans(big, txt, p);
  }

  /** Stripping the quotes of a packed answer gives the packed span back
      whenever the span was short enough not to be cut. */
  lemma PackUnquotes(hits: seq<Candidate>, txt: string)
    requires |Strip(txt)| <= MaxChars
    ensures StripQuotes(Pack(hits, txt).answer) == Strip(txt)
  {
    var a := Pack(hits, txt).answer;
    PackInner(hits, txt);
    assert a == [a[0]] + Inner(a) + [a[0]];
    UnquoteQuoted('"', Inner(a));
    StripIdempotent(txt);
  }

  // ---------------------------------------------------------------------------
  // The rule table
  // ---------------------------------------------------------------------------

  /** A hit's law sentence qualifies when, stripped, it is longer than 30
      characters. */
  predicate LongLawSentence(f: Finder, t: string) {
    f(t).Some? && |Strip(f(t).value)| > 30
  }

  /** The first hit at or after p with a qualifying law sentence. */
  function LawHitFrom(hits: seq<Candidate>, f: Finder, p: nat): (r: Option<nat>)
    ensures r.Some? ==> p <= r.value < |hits| && LongLawSentence(f, hits[r.value].text)
    ensures r.Some? ==> forall j :: p <= j < r.value ==> !LongLawSentence(f, hits[j].text)
    ensures r.None? ==> forall j :: p <= j < |hits| ==> !LongLawSentence(f, hits[j].text)
    decreases |hits| - p
  {
    if p >= |hits| then None
    else if LongLawSentence(f, hits[p].text) then Some(p)
    else LawHitFrom(hits, f, p + 1)
  }

  predicate RuleFires(q: string, r: Rule) {
    AnyIn(q, RuleTriggers(r))
  }

  /** The answer a single rule gives, if it applies: the rule's query trigger
      holds and either (governing law only) some hit has a qualifying law
      sentence, or the rule's pattern matches the joined text. */
  function RuleResult(q: string, hits: seq<Candidate>, fs: Finders, r: Rule): (a: Option<Answer>)
    ensures a.Some? ==> QuotedAnswer(a.value.answer) && CitationForm(hits, a.value.citations)
  {
    if !RuleFires(q, r) then None
    else if r == GoverningLawRule && LawHitFrom(hits, fs.lawSentence, 0).Some? then
      var c := LawHitFrom(hits, fs.lawSentence, 0).value;
      Some(Answer(Quote(Strip(fs.lawSentence(hits[c].text).value)), [hits[c].id]))
    else
      match FinderOf(fs, r)(Joined(hits))
      case None => None
      case Some(m) => PackCitation(hits, Span(r, m)); Some(Pack(hits, Span(r, m)))
  }

  /** The rules tried in order: the answer of the first rule that applies. */
  function FirstRule(q: string, hits: seq<Candidate>, fs: Finders, rules: seq<Rule>): (r: Option<Answer>)
    ensures r.None? ==> forall k :: 0 <= k < |rules| ==> RuleResult(q, hits, fs, rules[k]).None?
    ensures r.Some? ==> exists k :: 0 <= k < |rules| && RuleResult(q, hits, fs, rules[k]) == r
                                   && forall j :: 0 <= j < k ==> RuleResult(q, hits, fs, rules[j]).None?
    ensures r.Some? ==> QuotedAnswer(r.value.answer) && CitationForm(hits, r.value.citations)
  {
    var xs := seq(|rules|, k requires 0 <= k < |rules| => RuleResult(q, hits, fs, rules[k]));
    var r := FirstSome(xs, 0);
    FirstRuleFacts(q, hits, fs, rules, xs, r);
    r
  }

  lemma FirstRuleFacts(q: string, hits: seq<Candidate>, fs: Finders, rules: seq<Rule>, xs: seq<Option<Answer>>, r: Option<Answer>)
    requires |xs| == |rules| && forall k :: 0 <= k < |rules| ==> xs[k] == RuleResult(q, hits, fs, rules[k])
    requires r == FirstSome(xs, 0)
    ensures r.None? ==> forall k :: 0 <= k < |rules| ==> RuleResult(q, hits, fs, rules[k]).None?
    ensures r.Some? ==> exists k :: 0 <= k < |rules| && RuleResult(q, hits, fs, rules[k]) == r
                                   && forall j :: 0 <= j < k ==> RuleResult(q, hits, fs, rules[j]).None?
    ensures r.Some? ==> QuotedAnswer(r.value.answer) && CitationForm(hits, r.value.citations)
  {
    if r.Some? {
      var k :| 0 <= k < |xs| && xs[k] == r && forall j :: 0 <= j < k ==> xs[j].None?;
      assert RuleResult(q, hits, fs, rules[k]) == r;
    }
  }

  /** The first present value at or after position n. */
  function FirstSome<T>(xs: seq<Option<T>>, n: nat): (r: Option<T>)
    requires n <= |xs|
    ensures r.None? ==> forall k :: n <= k < |xs| ==> xs[k].None?
    ensures r.Some? ==> exists k :: n <= k < |xs| && xs[k] == r && forall j :: n <= j < k ==> xs[j].None?
    decreases |xs| - n
  {
    if n == |xs| then None
    else if xs[n].Some? then xs[n]
    else FirstSome(xs, n + 1)
  }

  // ---------------------------------------------------------------------------
  // The lexical fallback
  // ---------------------------------------------------------------------------

  predicate IsAsciiAlnum(c: char) {
    ('A' <= c <= 'Z') || ('a' <= c <= 'z') || ('0' <= c <= '9')
  }

  /** The length of the alphanumeric run at the start of s. */
  function AlnumPrefix(s: string): (n: nat)
    ensures n <= |s| && (forall i :: 0 <= i < n ==> IsAsciiAlnum(s[i]))
    ensures n < |s| ==> !IsAsciiAlnum(s[n])
    decreases |s|
  {
    if s == [] || !IsAsciiAlnum(s[0]) then 0 else 1 + AlnumPrefix(s[1..])
  }

  /** `re.findall(r"[A-Za-z0-9]+", s)`: the maximal alphanumeric runs. */
  function Tokens(s: string): (r: seq<string>)
    ensures forall k :: 0 <= k < |r| ==> r[k] != [] && forall i :: 0 <= i < |r[k]| ==> IsAsciiAlnum(r[k][i])
    decreases |s|
  {
    if s == [] then []
    else if !IsAsciiAlnum(s[0]) then Tokens(s[1..])
    else
      var n := AlnumPrefix(s);
      [s[..n]] + Tokens(s[n..])
  }

  /** The tokens longer than two characters, in order. */
  function LongTerms(ts: seq<string>): (r: seq<string>)
    ensures forall k :: 0 <= k < |r| ==> |r[k]| > 2 && r[k] in ts
    ensures forall t :: t in ts && |t| > 2 ==> t in r
    decreases |ts|
  {
    if ts == [] then []
    else if |ts[0]| > 2 then [ts[0]] + LongTerms(ts[1..])
    else LongTerms(ts[1..])
  }

  function QueryTerms(q: string): seq<string> {
    LongTerms(Tokens(q))
  }

  /** How many query terms (with repetition) occur in the text. */
  function Count(terms: seq<string>, t: string): (n: nat)
    ensures n <= |terms|
    ensures n > 0 <==> exists k :: 0 <= k < |terms| && Contains(t, terms[k])
    decreases |terms|
  {
    if terms == [] then 0
    else
      var rest := Count(terms[1..], t);
      assert forall k :: 1 <= k < |terms| ==> terms[k] == terms[1..][k - 1];
      (if Contains(t, terms[0]) then 1 else 0) + rest
  }

  function Score(terms: seq<string>, s: string): nat {
    Count(terms, Lower(s))
  }

  /** A sentence may be chosen when it is non-empty and at most MaxChars
      long. */
  predicate Eligible(s: string) {
    0 < |s| <= MaxChars
  }

  /** Sentence i is the earliest eligible sentence of the highest positive
      score. */
  predicate IsBest(sents: seq<string>, terms: seq<string>, i: nat) {
    && i < |sents| && Eligible(sents[i]) && Score(terms, sents[i]) > 0
    && (forall j :: 0 <= j < |sents| && Eligible(sents[j]) ==> Score(terms, sents[j]) <= Score(terms, sents[i]))
    && (forall j :: 0 <= j < i && Eligible(sents[j]) ==> Score(terms, sents[j]) < Score(terms, sents[i]))
  }

  /** The scan of the fallback loop from sentence p on, `cur` being the
      sentence kept so far with score `score`: a sentence replaces it only
      with a strictly higher score. */
  function Scan(sents: seq<string>, terms: seq<string>, p: nat, cur: Option<nat>, score: nat): (r: Option<nat>)
    requires p <= |sents|
    requires cur.None? ==> score == 0
    requires cur.Some? ==> cur.value < p && Eligible(sents[cur.value])
                           && Score(terms, sents[cur.value]) == score && score > 0
    requires forall j :: 0 <= j < p && Eligible(sents[j]) ==> Score(terms, sents[j]) <= score
    requires cur.Some? ==> forall j :: 0 <= j < cur.value && Eligible(sents[j]) ==> Score(terms, sents[j]) < score
    ensures r.Some? ==> IsBest(sents, terms, r.value)
    ensures r.None? ==> forall j :: 0 <= j < |sents| && Eligible(sents[j]) ==> Score(terms, sents[j]) == 0
    decreases |sents| - p
  {
    if p == |sents| then cur
    else
      var sc := Score(terms, sents[p]);
      if sc > score && Eligible(sents[p]) then Scan(sents, terms, p + 1, Some(p), sc)
      else Scan(sents, terms, p + 1, cur, score)
  }

  /** The fallback sentence: the stripped best sentence of the joined text,
      or "" when no eligible sentence shares a term with the query. */
  function BestSentence(q: string, joined: string): (r: string)
    ensures r != "" ==> exists i: nat :: IsBest(Split(joined, false), QueryTerms(q), i) && r == Strip(Split(joined, false)[i])
  {
    var sents := Split(joined, false);
    var b := Scan(sents, QueryTerms(q), 0, None, 0);
    if b.Some? then Strip(sents[b.value]) else ""
  }

  /** The fallback sentence is a piece of the joined text. */
  lemma BestSentenceContained(q: string, joined: string)
    ensures Contains(joined, BestSentence(q, joined))
  {
    var sents := Split(joined, false);
    var b := Scan(sents, QueryTerms(q), 0, None, 0);
    if b.Some? {
      PieceContained(joined, false, b.value);
      StripContained(sents[b.value]);
      ContainsTrans(joined, sents[b.value], Strip(sents[b.value]));
    } else {
      ContainsAt(joined, "", 0);
    }
  }

  // ---------------------------------------------------------------------------
  // extractive_answer
  // ---------------------------------------------------------------------------

  /** Everything before the last resort: the rule table, then the lexical
      fallback. None when both come up empty. */
  function RulesOrFallback(query: string, hits: seq<Candidate>, fs: Finders): (r: Option<Answer>)
    ensures r.Some? ==> QuotedAnswer(r.value.answer) && CitationForm(hits, r.value.citations)
  {
    var q := Lower(query);
    var a := FirstRule(q, hits, fs, RuleOrder);
    if a.Some? then a
    else
      var best := BestSentence(q, Joined(hits));
      if best != "" then PackCitation(hits, best); Some(Pack(hits, best)) else None
  }

  /** `extractive_answer`. With no hits the answer is NOT_FOUND; otherwise
      the first applicable rule, else the fallback sentence, else the first
      line of the top hit, quoted and cited. */
  function ExtractiveAnswer(query: string, hits: seq<Candidate>, fs: Finders): (r: Answer)
    ensures hits == [] ==> r == Answer(NotFound, [])
    ensures hits != [] ==> QuotedAnswer(r.answer) && CitationForm(hits, r.citations)
  {
    if hits == [] then Answer(NotFound, [])
    else
      match RulesOrFallback(query, hits, fs)
      case Some(a) => a
      case None => PackCitation(hits, FirstLine(hits[0].text)); Pack(hits, FirstLine(hits[0].text))
  }

  /** The answer is NOT_FOUND exactly when there are no hits. */
  lemma NotFoundIffNoHits(query: string, hits: seq<Candidate>, fs: Finders)
    ensures ExtractiveAnswer(query, hits, fs).answer == NotFound <==> hits == []
    ensures hits == [] ==> ExtractiveAnswer(query, hits, fs).citations == []
  {
    var a := ExtractiveAnswer(query, hits, fs).answer;
    if hits != [] {
      assert a[0] == '"' && NotFound[0] == 'N';
    }
  }



  /** A rule's answer quotes a piece of the joined hit texts. */
  lemma RuleExtractive(q: string, hits: seq<Candidate>, fs: Finders, r: Rule)
    requires Sound(fs) && RuleResult(q, hits, fs, r).Some?
    ensures var a := RuleResult(q, hits, fs, r).value.answer;
            |a| >= 2 && Contains(Joined(hits), Inner(a))
  {
    var joined := Joined(hits);
    var a := RuleResult(q, hits, fs, r).value.answer;
    if r == GoverningLawRule && LawHitFrom(hits, fs.lawSentence, 0).Some? {
      var c := LawHitFrom(hits, fs.lawSentence, 0).value;
      var m := fs.lawSentence(hits[c].text).value;
      assert a == Quote(Strip(m));
      LawSentenceContained(hits, c, m);
    } else {
      var m := FinderOf(fs, r)(joined).value;
      assert a == Pack(hits, Span(r, m)).answer;
      assert Contains(joined, m);
      SpanContained(joined, r, m);
      PackExtractive(hits, Span(r, m), joined);
    }
  }

  /** The stripped law sentence of a hit is a piece of the joined texts. */
  lemma LawSentenceContained(hits: seq<Candidate>, c: nat, m: string)
    requires c < |hits| && Contains(hits[c].text, m)
    ensures Contains(Joined(hits), Inner(Quote(Strip(m))))
  {
    StripContained(m);
    ContainsTrans(hits[c].text, m, Strip(m));
    JoinContainsPart(" ", Texts(hits), c);
    ContainsTrans(Joined(hits), hits[c].text, Strip(m));
  }

  /** The span of a match in a text is a piece of the text. */
  lemma SpanContained(t: string, r: Rule, m: string)
    requires Contains(t, m)
    ensures Contains(t, Span(r, m))
  {
    ContainsAt(m, Span(r, m), 0);
    ContainsTrans(t, m, Span(r, m));
  }

  /** With sound finders every answer quotes a piece of the joined hit texts:
      the answer is extractive. */
  lemma AnswerExtractive(query: string, hits: seq<Candidate>, fs: Finders)
    requires Sound(fs) && hits != []
    ensures Contains(Joined(hits), Inner(ExtractiveAnswer(query, hits, fs).answer))
  {
    var q := Lower(query);
    var joined := Joined(hits);
    var f := FirstRule(q, hits, fs, RuleOrder);
    var best := BestSentence(q, joined);
    var a := ExtractiveAnswer(query, hits, fs);
    AnswerSource(query, hits, fs);
    if f.Some? {
      var k :| 0 <= k < |RuleOrder| && RuleResult(q, hits, fs, RuleOrder[k]) == f;
      RuleExtractive(q, hits, fs, RuleOrder[k]);
    } else if best != "" {
      BestSentenceContained(q, joined);
      PackExtractive(hits, best, joined);
    } else {
      FirstLineContained(hits);
      PackExtractive(hits, FirstLine(hits[0].text), joined);
    }
  }

  /** Where the answer comes from: the rule table, the fallback sentence or
      the top hit's first line. */
  lemma AnswerSource(query: string, hits: seq<Candidate>, fs: Finders)
    requires hits != []
    ensures var q := Lower(query);
      var f := FirstRule(q, hits, fs, RuleOrder);
      var best := BestSentence(q, Joined(hits));
      ExtractiveAnswer(query, hits, fs) ==
        if f.Some? then f.value
        else if best != "" then Pack(hits, best)
        else Pack(hits, FirstLine(hits[0].text))
  {
  }

  /** The top hit's first line is a piece of the joined hit texts. */
  lemma FirstLineContained(hits: seq<Candidate>)
    requires hits != []
    ensures Contains(Joined(hits), FirstLine(hits[0].text))
  {
    var t := hits[0].text;
    ContainsAt(t, FirstLine(t), 0);
    JoinContainsPart(" ", Texts(hits), 0);
    ContainsTrans(Joined(hits), t, FirstLine(t));
  }

  /** When no rule applies and the fallback finds a sentence, the answer
      packs the earliest best-scoring eligible sentence. */
  lemma FallbackPicksBest(query: string, hits: seq<Candidate>, fs: Finders)
    requires hits != []
    requires FirstRule(Lower(query), hits, fs, RuleOrder).None?
    requires BestSentence(Lower(query), Joined(hits)) != ""
    ensures exists i: nat :: IsBest(Split(Joined(hits), false), QueryTerms(Lower(query)), i)
                        && ExtractiveAnswer(query, hits, fs) == Pack(hits, Strip(Split(Joined(hits), false)[i]))
  {
    AnswerSource(query, hits, fs);
    var sents, terms := Split(Joined(hits), false), QueryTerms(Lower(query));
    var best := BestSentence(Lower(query), Joined(hits));
    var i: nat :| IsBest(sents, terms, i) && best == Strip(sents[i]);
    assert ExtractiveAnswer(query, hits, fs) == Pack(hits, Strip(sents[i]));
  }

  // ---------------------------------------------------------------------------
  // The last resort, as written
  // ---------------------------------------------------------------------------

  /** The last resort as the source writes it: `hits[0][2].splitlines()[0]`
      raises IndexError when the top hit's text is empty, because
      `"".splitlines()` is the empty list. */
  function ExtractiveAnswerAsWritten(query: string, hits: seq<Candidate>, fs: Finders): (r: Result<Answer>)
    ensures r.Ok? ==> r.value == ExtractiveAnswer(query, hits, fs)
  {
    if hits == [] then Ok(Answer(NotFound, []))
    else
      match RulesOrFallback(query, hits, fs)
      case Some(a) => Ok(a)
      case None => if hits[0].text == "" then Err("IndexError: list index out of range")
                   else Ok(Pack(hits, FirstLine(hits[0].text)))
  }

  /** A single hit with empty text and a query without rule triggers or
      terms reaches the last resort and makes the source raise, while the
      corrected function answers with an empty quote citing that hit. */
  lemma EmptyTopHitRaises(fs: Finders)
    ensures ExtractiveAnswerAsWritten("", [Candidate("a", 1.0, "")], fs).Err?
    ensures ExtractiveAnswer("", [Candidate("a", 1.0, "")], fs) == Answer("\"\"", ["a"])
  {
    var hits := [Candidate("a", 1.0, "")];
    LastResortOnEmptyQuery(hits, fs);
    assert TopIds(hits) == ["a"];
  }

  /** With the empty query every rule and the fallback come up empty, so an
      empty top hit decides the outcome. */
  lemma LastResortOnEmptyQuery(hits: seq<Candidate>, fs: Finders)
    requires hits != [] && hits[0].text == ""
    ensures ExtractiveAnswerAsWritten("", hits, fs).Err?
    ensures ExtractiveAnswer("", hits, fs) == Answer("\"\"", TopIds(hits))
  {
    EmptyQueryNoRule(hits, fs);
    EmptyQueryNoSentence(Joined(hits));
    assert RulesOrFallback("", hits, fs).None?;
    assert FirstLine(hits[0].text) == "";
    assert ExtractiveAnswer("", hits, fs) == Pack(hits, "");
    PackEmpty(hits);
  }

  /** Packing the empty span quotes nothing and cites the first five hits. */
  lemma PackEmpty(hits: seq<Candidate>)
    ensures Pack(hits, "") == Answer("\"\"", TopIds(hits))
  {
    var m := Strip("");
    assert m == "";
    assert CiteFrom(hits, m, 0).None?;
    assert Quote(m[..MinInt(MaxChars, |m|)]) == "\"\"";
  }

  /** The empty query enables no rule. */
  lemma EmptyQueryNoRule(hits: seq<Candidate>, fs: Finders)
    ensures Lower("") == ""
    ensures FirstRule("", hits, fs, RuleOrder).None?
  {
    forall r: Rule, j | 0 <= j < |RuleTriggers(r)| ensures !Contains("", RuleTriggers(r)[j]) {
      assert RuleTriggers(r)[j] != [];
    }
    assert forall r: Rule :: !RuleFires("", r);
  }

  /** The empty query has no terms, so the fallback finds nothing. */
  lemma EmptyQueryNoSentence(joined: string)
    ensures BestSentence("", joined) == ""
  {
    assert Tokens("") == [];
    assert QueryTerms("") == [];
    var sents := Split(joined, false);
    var b := Scan(sents, [], 0, None, 0);
  }

  // ---------------------------------------------------------------------------
  // ask
  // ---------------------------------------------------------------------------

  /** The response of `ask` without timings and index metadata. */
  datatype AskResult = AskResult(
    query: string,
    hits: seq<(string, real)>,
    contexts: seq<(string, string)>,
    result: Answer)

  /** Python's `xs[:k]`, a negative k counting from the end. */
  function SliceTo<T>(xs: seq<T>, k: int): (r: seq<T>)
    ensures r <= xs
    ensures 0 <= k ==> |r| == MinInt(k, |xs|)
    ensures k < 0 ==> |r| == Max(|xs| + k, 0)
  {
    if k >= 0 then xs[..MinInt(k, |xs|)]
    else xs[..Max(|xs| + k, 0)]
  }

  /** The response built from the re-ranked hits: every hit's id and score,
      and the id and text of the first k hits as contexts. */
  function Shape(query: string, hits: seq<Candidate>, k: int, ans: Answer): (r: AskResult)
    ensures r.query == query && r.result == ans
    ensures |r.hits| == |hits| && forall i :: 0 <= i < |hits| ==> r.hits[i] == (hits[i].id, hits[i].score)
    ensures |r.contexts| <= |hits|
    ensures forall i :: 0 <= i < |r.contexts| ==> r.contexts[i] == (hits[i].id, hits[i].text)
    ensures 0 <= k ==> |r.contexts| == MinInt(k, |hits|)
  {
    var ctx := SliceTo(hits, k);
    AskResult(query,
              seq(|hits|, i requires 0 <= i < |hits| => (hits[i].id, hits[i].score)),
              seq(|ctx|, i requires 0 <= i < |ctx| => (ctx[i].id, ctx[i].text)),
              ans)
  }

  /** `ask` in extractive mode: search the index, re-rank the pool with MMR
      and answer from the re-ranked hits. Besides the response, `pool` and
      `hits` are the search result and the re-ranked hits behind it. The
      answer is computed as written, so an empty top hit at the last resort
      fails as the source's IndexError. */
  method Ask(idx: Index, query: string, k: int, lambda: real,
             similarity: (string, string) -> real, textSim: (string, string) -> real, fs: Finders)
    returns (r: Result<AskResult>, pool: seq<Candidate>, hits: seq<Candidate>)
    requires WellFormed(idx)
    ensures idx.kind != "tfidf" && idx.kind != "sbert" ==> r == Err("unknown index type") && hits == []
    ensures idx.kind == "tfidf" || idx.kind == "sbert" ==>
      && IsSearchPool(idx, query, k, similarity, pool)
      && IsMmrResult(pool, k, lambda, textSim, hits)
      && (r.Ok? <==> ExtractiveAnswerAsWritten(query, hits, fs).Ok?)
      && (r.Err? ==> r.error == ExtractiveAnswerAsWritten(query, hits, fs).error)
    ensures r.Ok? ==> r.value == Shape(query, hits, k, ExtractiveAnswer(query, hits, fs))
    ensures |hits| <= Max(k, 0) && forall c :: c in hits ==> c in pool && c.id in idx.ids
  {
    var found := Search(idx, query, k, similarity);
    if found.Err? {
      return Err(found.error), [], [];
    }
    pool := found.value;
    hits := Mmr(pool, k, lambda, textSim);
    match ExtractiveAnswerAsWritten(query, hits, fs)
    case Ok(ans) => r := Ok(Shape(query, hits, k, ans));
    case Err(e) => r := Err(e);
  }
}
