/** Retrieval for the extractive question answerer (app/rag_model.py): the
    legal-intent query rewrite, the top-n candidate pool of `_search`, and the
    maximal-marginal-relevance (MMR) re-ranking. Similarity scores come from an
    external engine and are modelled as abstract functions. */
module RagRetrieval {
  import opened Wrappers
  import opened Text

  // ---------------------------------------------------------------------------
  // _rewrite_query
  // ---------------------------------------------------------------------------

  /** The legal intents the rewrite recognises, in the order their boost terms
      are appended. */
  datatype Intent = GoverningLaw | Termination | Payment | Parties

  const IntentOrder: seq<Intent> := [GoverningLaw, Termination, Payment, Parties]

  function Rank(i: Intent): nat {
    match i
    case GoverningLaw => 0
    case Termination => 1
    case Payment => 2
    case Parties => 3
  }

  /** The lower-cased query fragments that select an intent. */
  function Triggers(i: Intent): seq<string> {
    match i
    case GoverningLaw => ["govern", "law", "jurisd"]
    case Termination => ["terminat", "expire"]
    case Payment => ["payment", "fee", "fees", "charges", "settle", "compensation", "consideration", "remuneration"]
    case Parties => ["parties", "roles"]
  }

  /** The terms appended for an intent. */
  function Boosts(i: Intent): seq<string> {
    match i
    case GoverningLaw => ["\"governing law\"", "construed", "enforced", "laws of", "state of"]
    case Termination => ["termination", "notice", "\"prior written notice\"", "insolvent", "mutual written agreement"]
    case Payment => ["payment", "pass-through", "monthly", "charge", "settle", "net basis", "invoice", "due date", "late fee"]
    case Parties => ["by and among", "between", "affiliate", "service provider", "service recipient"]
  }

  /** Some fragment of `words` occurs in `ql`. */
  predicate AnyIn(ql: string, words: seq<string>) {
    exists j :: 0 <= j < |words| && Contains(ql, words[j])
  }

  predicate Fires(i: Intent, ql: string) {
    AnyIn(ql, Triggers(i))
  }

  /** The intents a lower-cased query selects: exactly those that fire, in
      rank order. */
  function Matched(ql: string): (r: seq<Intent>)
    ensures forall i :: i in r <==> Fires(i, ql)
    ensures forall a, b :: 0 <= a < b < |r| ==> Rank(r[a]) < Rank(r[b])
  {
    var g, t, p, o := Fires(GoverningLaw, ql), Fires(Termination, ql), Fires(Payment, ql), Fires(Parties, ql);
    var r := (if g then [GoverningLaw] else []) + (if t then [Termination] else [])
             + (if p then [Payment] else []) + (if o then [Parties] else []);
    MatchedMembers(ql, g, t, p, o, r);
    r
  }

  lemma MatchedMembers(ql: string, g: bool, t: bool, p: bool, o: bool, r: seq<Intent>)
    requires g == Fires(GoverningLaw, ql) && t == Fires(Termination, ql)
    requires p == Fires(Payment, ql) && o == Fires(Parties, ql)
    requires r == (if g then [GoverningLaw] else []) + (if t then [Termination] else [])
                  + (if p then [Payment] else []) + (if o then [Parties] else [])
    ensures forall i :: i in r <==> Fires(i, ql)
    ensures forall a, b :: 0 <= a < b < |r| ==> Rank(r[a]) < Rank(r[b])
  {
    forall i ensures i in r <==> Fires(i, ql) {
      match i
      case GoverningLaw =>
      case Termination =>
      case Payment =>
      case Parties =>
    }
    RankOrdered(g, t, p, o, r);
  }

  /** The intents picked by four flags, in rule order, have increasing ranks. */
  lemma RankOrdered(g: bool, t: bool, p: bool, o: bool, r: seq<Intent>)
    requires r == (if g then [GoverningLaw] else []) + (if t then [Termination] else [])
                  + (if p then [Payment] else []) + (if o then [Parties] else [])
    ensures forall a, b :: 0 <= a < b < |r| ==> Rank(r[a]) < Rank(r[b])
  {
  }

  /** The boost terms of a list of intents, block after block. */
  function BoostTerms(intents: seq<Intent>): (r: seq<string>)
    ensures intents == [] ==> r == []
    decreases |intents|
  {
    if intents == [] then [] else Boosts(intents[0]) + BoostTerms(intents[1..])
  }

  /** `_rewrite_query`: the query, one space, then the boost terms of every
      intent the lower-cased query selects, joined by spaces. */
  function RewriteQuery(q: string): (r: string)
    ensures q + " " <= r
    ensures r == q + " " + Join(" ", BoostTerms(Matched(Lower(q))))
    ensures Matched(Lower(q)) == [] ==> r == q + " "
  {
    q + " " + Join(" ", BoostTerms(Matched(Lower(q))))
  }

  // ---------------------------------------------------------------------------
  // Candidates and the top-n pool of _search
  // ---------------------------------------------------------------------------

  /** A retrieved segment: `(id, score, text)`. */
  datatype Candidate = Candidate(id: string, score: real, text: string)

  /** A loaded index: its engine type and the parallel id and text lists. */
  datatype Index = Index(kind: string, ids: seq<string>, texts: seq<string>)

  predicate WellFormed(idx: Index) {
    |idx.ids| == |idx.texts|
  }

  function MinInt(a: int, b: int): int {
    if a <= b then a else b
  }

  function Max(a: int, b: int): int {
    if a >= b then a else b
  }

  /** The positions 0..n-1 split into those still `remaining` (in
      increasing order) and those already `taken` (without repetition). */
  predicate Partition(remaining: seq<nat>, taken: seq<nat>, n: nat) {
    && |remaining| + |taken| == n
    && StrictlyIncreasing(remaining)
    && (forall q :: 0 <= q < |remaining| ==> remaining[q] < n)
    && (forall a :: 0 <= a < |taken| ==> taken[a] < n)
    && (forall a, b :: 0 <= a < b < |taken| ==> taken[a] != taken[b])
    && (forall p :: 0 <= p < n ==> (p in remaining <==> p !in taken))
  }

  /** `list(range(n))`. */
  function Positions(n: nat): (r: seq<nat>)
    ensures Partition(r, [], n)
  {
    var r: seq<nat> := seq(n, p requires 0 <= p => p);
    assert forall p :: 0 <= p < n ==> r[p] == p;
    assert forall p :: 0 <= p < n ==> p in r by {
      forall p | 0 <= p < n ensures p in r {
        assert r[p] == p;
      }
    }
    r
  }

  /** Moving the element at `pos` from `remaining` to the end of `taken`
      keeps the partition. */
  lemma PartitionTake(remaining: seq<nat>, taken: seq<nat>, n: nat, pos: nat)
    requires Partition(remaining, taken, n) && pos < |remaining|
    ensures Partition(remaining[..pos] + remaining[pos + 1..], taken + [remaining[pos]], n)
  {
    var rem := remaining[..pos] + remaining[pos + 1..];
    var t := taken + [remaining[pos]];
    assert forall q :: 0 <= q < |rem| ==> rem[q] == (if q < pos then remaining[q] else remaining[q + 1]);
    assert StrictlyIncreasing(rem);
    assert remaining[pos] !in taken;
    assert forall a, b :: 0 <= a < b < |t| ==> t[a] != t[b];
    forall p | 0 <= p < n ensures p in rem <==> p !in t {
      if p in rem {
        var q :| 0 <= q < |rem| && rem[q] == p;
        assert p != remaining[pos];
      }
    }
  }

  /** A position below n that has not been taken sits somewhere in
      `remaining`. */
  lemma Untaken(remaining: seq<nat>, taken: seq<nat>, n: nat, p: nat) returns (q: nat)
    requires Partition(remaining, taken, n) && p < n && p !in taken
    ensures q < |remaining| && remaining[q] == p
  {
    assert p in remaining;
    q :| 0 <= q < |remaining| && remaining[q] == p;
  }

  /** `order` lists the positions of the n best scores, best first: distinct
      positions, scores non-increasing, and no position left out scores
      higher than one taken. Ties may come in either order. */
  predicate IsTopOrder(scores: seq<real>, n: nat, order: seq<nat>) {
    && |order| == MinInt(n, |scores|)
    && (forall a :: 0 <= a < |order| ==> order[a] < |scores|)
    && (forall a, b :: 0 <= a < b < |order| ==> order[a] != order[b])
    && (forall a, b :: 0 <= a < b < |order| ==> scores[order[a]] >= scores[order[b]])
    && (forall a, p :: 0 <= a < |order| && 0 <= p < |scores| && p !in order ==> scores[p] <= scores[order[a]])
  }

  /** The n best positions by score, by repeated selection of the best
      remaining position (the earliest one among equal scores). */
  method TopN(scores: seq<real>, n: nat) returns (order: seq<nat>)
    ensures IsTopOrder(scores, n, order)
  {
    order := [];
    var limit := MinInt(n, |scores|);
    var remaining := Positions(|scores|);
    while |order| < limit
      invariant |order| <= limit
      invariant Partition(remaining, order, |scores|)
      invariant forall a, b :: 0 <= a < b < |order| ==> scores[order[a]] >= scores[order[b]]
      invariant forall a, p :: 0 <= a < |order| && 0 <= p < |scores| && p !in order ==> scores[p] <= scores[order[a]]
    {
      var key := (p: nat) => if p < |scores| then scores[p] else 0.0;
      var pos := FirstMax(remaining, key);
      var best := remaining[pos];
      forall p | 0 <= p < |scores| && p !in order ensures scores[p] <= scores[best] {
        var q := Untaken(remaining, order, |scores|, p);
        assert key(remaining[q]) <= key(remaining[pos]);
      }
      PartitionTake(remaining, order, |scores|, pos);
      remaining := remaining[..pos] + remaining[pos + 1..];
      order := order + [best];
    }
  }

  /** The size of the candidate pool: 50 for TF-IDF whatever k is, at least
      50 and at least k for sentence embeddings. */
  function PoolSize(kind: string, k: int): nat
    requires kind == "tfidf" || kind == "sbert"
  {
    if kind == "tfidf" then 50 else Max(k, 50)
  }

  function CandidateAt(idx: Index, scores: seq<real>, p: nat): Candidate
    requires WellFormed(idx) && |scores| == |idx.ids| && p < |scores|
  {
    Candidate(idx.ids[p], scores[p], idx.texts[p])
  }

  /** The candidates at the listed positions, in order. */
  function CandidatesAt(idx: Index, scores: seq<real>, order: seq<nat>): (r: seq<Candidate>)
    requires WellFormed(idx) && |scores| == |idx.ids|
    requires forall a :: 0 <= a < |order| ==> order[a] < |scores|
    ensures |r| == |order|
    ensures forall a :: 0 <= a < |order| ==> r[a] == CandidateAt(idx, scores, order[a])
  {
    seq(|order|, a requires 0 <= a < |order| => CandidateAt(idx, scores, order[a]))
  }

  /** The similarity of the rewritten query to every indexed text. */
  function ScoresFor(idx: Index, q: string, similarity: (string, string) -> real): (r: seq<real>)
    ensures |r| == |idx.texts|
    ensures forall p :: 0 <= p < |r| ==> r[p] == similarity(q, idx.texts[p])
  {
    seq(|idx.texts|, p requires 0 <= p < |idx.texts| => similarity(q, idx.texts[p]))
  }

  /** `_search`: rewrite the query, score every indexed segment, and return
      the pool of best-scoring candidates, best first. An index of unknown
      type is an error. */
  method Search(idx: Index, query: string, k: int, similarity: (string, string) -> real)
    returns (r: Result<seq<Candidate>>)
    requires WellFormed(idx)
    ensures idx.kind != "tfidf" && idx.kind != "sbert" <==> r.Err?
    ensures r.Err? ==> r.error == "unknown index type"
    ensures r.Ok? ==>
      var scores := ScoresFor(idx, RewriteQuery(query), similarity);
      exists order :: IsTopOrder(scores, PoolSize(idx.kind, k), order)
                      && r.value == CandidatesAt(idx, scores, order)
    ensures r.Ok? ==> forall c :: c in r.value ==> c.id in idx.ids && c.text in idx.texts
  {
    if idx.kind != "tfidf" && idx.kind != "sbert" {
      return Err("unknown index type");
    }
    var scores := ScoresFor(idx, RewriteQuery(query), similarity);
    var order := TopN(scores, PoolSize(idx.kind, k));
    var cands := CandidatesAt(idx, scores, order);
    forall c | c in cands ensures c.id in idx.ids && c.text in idx.texts {
      var a :| 0 <= a < |cands| && cands[a] == c;
      assert c == CandidateAt(idx, scores, order[a]);
    }
    r := Ok(cands);
  }

  // ---------------------------------------------------------------------------
  // mmr
  // ---------------------------------------------------------------------------

  /** The largest candidate score. */
  function MaxScore(cands: seq<Candidate>): (m: real)
    requires cands != []
    ensures forall j :: 0 <= j < |cands| ==> cands[j].score <= m
    ensures exists j :: 0 <= j < |cands| && cands[j].score == m
    decreases |cands|
  {
    if |cands| == 1 then cands[0].score
    else
      var m := MaxScore(cands[..|cands| - 1]);
      var last := cands[|cands| - 1].score;
      assert forall j :: 0 <= j < |cands| - 1 ==> cands[j] == cands[..|cands| - 1][j];
      if m >= last then m else last
  }

  /** `max(rel) or 1.0`: the divisor of the relevance normalisation. */
  function Divisor(cands: seq<Candidate>): (d: real)
    ensures d != 0.0
  {
    if cands == [] then 1.0
    else
      var m := MaxScore(cands);
      if m == 0.0 then 1.0 else m
  }

  /** The normalised relevance of candidate j. */
  function Rel(cands: seq<Candidate>, j: nat): real {
    if j < |cands| then cands[j].score / Divisor(cands) else 0.0
  }

  function TextAt(cands: seq<Candidate>, j: nat): string {
    if j < |cands| then cands[j].text else ""
  }

  /** The largest similarity of candidate j to an already selected one. */
  function MaxSim(cands: seq<Candidate>, sim: (string, string) -> real, j: nat, selected: seq<nat>): real
    requires selected != []
    decreases |selected|
  {
    var s := sim(TextAt(cands, j), TextAt(cands, selected[0]));
    if |selected| == 1 then s
    else
      var rest := MaxSim(cands, sim, j, selected[1..]);
      if s >= rest then s else rest
  }

  /** The selection key: relevance alone for the first pick, afterwards the
      MMR trade-off between relevance and redundancy. */
  function Key(cands: seq<Candidate>, lambda: real, sim: (string, string) -> real, selected: seq<nat>, j: nat): real {
    if selected == [] then Rel(cands, j)
    else lambda * Rel(cands, j) - (1.0 - lambda) * MaxSim(cands, sim, j, selected)
  }

  /** `pick` is what `max(remaining, key=...)` returns after `prefix` has been
      selected: an unselected candidate of maximal key, the earliest such. */
  predicate GreedyStep(cands: seq<Candidate>, lambda: real, sim: (string, string) -> real, prefix: seq<nat>, pick: nat) {
    && pick < |cands| && pick !in prefix
    && (forall j :: 0 <= j < |cands| && j !in prefix ==> Key(cands, lambda, sim, prefix, j) <= Key(cands, lambda, sim, prefix, pick))
    && (forall j :: 0 <= j < pick && j !in prefix ==> Key(cands, lambda, sim, prefix, j) < Key(cands, lambda, sim, prefix, pick))
  }

  /** A full greedy MMR selection of k candidates (none for k <= 0). */
  predicate IsMmrSelection(cands: seq<Candidate>, k: int, lambda: real, sim: (string, string) -> real, sel: seq<nat>) {
    && |sel| == Max(k, 0)
    && forall t :: 0 <= t < |sel| ==> GreedyStep(cands, lambda, sim, sel[..t], sel[t])
  }

  /** A greedy selection never repeats a candidate. */
  lemma SelectionDistinct(cands: seq<Candidate>, k: int, lambda: real, sim: (string, string) -> real, sel: seq<nat>)
    requires IsMmrSelection(cands, k, lambda, sim, sel)
    ensures forall a, b :: 0 <= a < b < |sel| ==> sel[a] != sel[b]
    ensures forall a :: 0 <= a < |sel| ==> sel[a] < |cands|
  {
    forall a, b | 0 <= a < b < |sel| ensures sel[a] != sel[b] {
      assert GreedyStep(cands, lambda, sim, sel[..b], sel[b]);
      assert sel[a] == sel[..b][a];
    }
    forall a | 0 <= a < |sel| ensures sel[a] < |cands| {
      assert GreedyStep(cands, lambda, sim, sel[..a], sel[a]);
    }
  }

  /** The first greedy pick is the earliest candidate of maximal normalised
      relevance. */
  lemma FirstPickIsMostRelevant(cands: seq<Candidate>, k: int, lambda: real, sim: (string, string) -> real, sel: seq<nat>)
    requires IsMmrSelection(cands, k, lambda, sim, sel) && k > 0
    ensures forall j :: 0 <= j < |cands| ==> Rel(cands, j) <= Rel(cands, sel[0])
    ensures forall j :: 0 <= j < sel[0] ==> Rel(cands, j) < Rel(cands, sel[0])
  {
    assert GreedyStep(cands, lambda, sim, sel[..0], sel[0]);
    var first: seq<nat> := [];
    assert sel[..0] == first;
    forall j | 0 <= j < |cands| ensures Rel(cands, j) <= Rel(cands, sel[0]) {
      assert Key(cands, lambda, sim, first, j) <= Key(cands, lambda, sim, first, sel[0]);
    }
    forall j | 0 <= j < sel[0] ensures Rel(cands, j) < Rel(cands, sel[0]) {
      assert Key(cands, lambda, sim, first, j) < Key(cands, lambda, sim, first, sel[0]);
    }
  }

  predicate StrictlyIncreasing(xs: seq<nat>) {
    forall a, b :: 0 <= a < b < |xs| ==> xs[a] < xs[b]
  }

  /** `max(remaining, key=key)`: the position of the first maximal element. */
  method FirstMax(remaining: seq<nat>, key: nat -> real) returns (pos: nat)
    requires remaining != []
    ensures pos < |remaining|
    ensures forall q :: 0 <= q < |remaining| ==> key(remaining[q]) <= key(remaining[pos])
    ensures forall q :: 0 <= q < pos ==> key(remaining[q]) < key(remaining[pos])
  {
    pos := 0;
    var q := 1;
    while q < |remaining|
      invariant 1 <= q <= |remaining| && pos < q
      invariant forall x :: 0 <= x < q ==> key(remaining[x]) <= key(remaining[pos])
      invariant forall x :: 0 <= x < pos ==> key(remaining[x]) < key(remaining[pos])
    {
      if key(remaining[q]) > key(remaining[pos]) {
        pos := q;
      }
      q := q + 1;
    }
  }

  /** `pick` is where `max(remaining, key=...)` lands when `remaining`
      holds exactly the unselected candidates in increasing order. */
  lemma GreedyPick(cands: seq<Candidate>, lambda: real, sim: (string, string) -> real,
                   remaining: seq<nat>, sel: seq<nat>, pos: nat)
    requires Partition(remaining, sel, |cands|) && pos < |remaining|
    requires forall q :: 0 <= q < |remaining| ==> Key(cands, lambda, sim, sel, remaining[q]) <= Key(cands, lambda, sim, sel, remaining[pos])
    requires forall q :: 0 <= q < pos ==> Key(cands, lambda, sim, sel, remaining[q]) < Key(cands, lambda, sim, sel, remaining[pos])
    ensures GreedyStep(cands, lambda, sim, sel, remaining[pos])
  {
    var pick := remaining[pos];
    forall j | 0 <= j < |cands| && j !in sel ensures Key(cands, lambda, sim, sel, j) <= Key(cands, lambda, sim, sel, pick) {
      var q := Untaken(remaining, sel, |cands|, j);
    }
    forall j | 0 <= j < pick && j !in sel ensures Key(cands, lambda, sim, sel, j) < Key(cands, lambda, sim, sel, pick) {
      var q := Untaken(remaining, sel, |cands|, j);
    }
  }

  /** Appending a greedy step to a greedy prefix gives a greedy sequence. */
  lemma GreedyExtend(cands: seq<Candidate>, lambda: real, sim: (string, string) -> real, sel: seq<nat>, pick: nat)
    requires forall t :: 0 <= t < |sel| ==> GreedyStep(cands, lambda, sim, sel[..t], sel[t])
    requires GreedyStep(cands, lambda, sim, sel, pick)
    ensures var s := sel + [pick];
      forall t :: 0 <= t < |s| ==> GreedyStep(cands, lambda, sim, s[..t], s[t])
  {
    var s := sel + [pick];
    assert s[..|sel|] == sel;
    forall t | 0 <= t < |sel| ensures s[..t] == sel[..t] && s[t] == sel[t] {
    }
  }

  /** The selection loop of `mmr` for more candidates than requested. */
  method MmrSelect(cands: seq<Candidate>, k: int, lambda: real, sim: (string, string) -> real)
    returns (sel: seq<nat>)
    requires |cands| > k
    ensures IsMmrSelection(cands, k, lambda, sim, sel)
  {
    sel := [];
    var remaining := Positions(|cands|);
    while remaining != [] && |sel| < k
      invariant |sel| <= Max(k, 0)
      invariant Partition(remaining, sel, |cands|)
      invariant forall t :: 0 <= t < |sel| ==> GreedyStep(cands, lambda, sim, sel[..t], sel[t])
    {
      var chosen := sel;
      var key := (j: nat) => Key(cands, lambda, sim, chosen, j);
      var pos := FirstMax(remaining, key);
      GreedyPick(cands, lambda, sim, remaining, sel, pos);
      GreedyExtend(cands, lambda, sim, sel, remaining[pos]);
      PartitionTake(remaining, sel, |cands|, pos);
      sel := sel + [remaining[pos]];
      remaining := remaining[..pos] + remaining[pos + 1..];
    }
  }

  /** The candidates picked by a selection, in selection order. */
  function Picked(cands: seq<Candidate>, sel: seq<nat>): (r: seq<Candidate>)
    requires forall a :: 0 <= a < |sel| ==> sel[a] < |cands|
    ensures |r| == |sel|
    ensures forall a :: 0 <= a < |sel| ==> r[a] == cands[sel[a]]
  {
    seq(|sel|, a requires 0 <= a < |sel| => cands[sel[a]])
  }

  /** `mmr`: the candidates unchanged when there are at most k of them;
      otherwise the greedy MMR selection of k candidates. */
  method Mmr(cands: seq<Candidate>, k: int, lambda: real, sim: (string, string) -> real)
    returns (r: seq<Candidate>)
    ensures |cands| <= k ==> r == cands
    ensures |cands| > k ==> |r| == Max(k, 0)
    ensures |cands| > k ==> exists sel :: IsMmrSelection(cands, k, lambda, sim, sel)
                                         && (forall a :: 0 <= a < |sel| ==> sel[a] < |cands|)
                                         && r == Picked(cands, sel)
    ensures forall c :: c in r ==> c in cands
  {
    if |cands| <= k {
      return cands;
    }
    var sel := MmrSelect(cands, k, lambda, sim);
    SelectionDistinct(cands, k, lambda, sim, sel);
    r := Picked(cands, sel);
  }

  /** `pool` is what `_search` returns for the query: the candidates of the
      best-scoring positions of the rewritten query, best first. */
  ghost predicate IsSearchPool(idx: Index, query: string, k: int, similarity: (string, string) -> real, pool: seq<Candidate>)
    requires WellFormed(idx) && (idx.kind == "tfidf" || idx.kind == "sbert")
  {
    var scores := ScoresFor(idx, RewriteQuery(query), similarity);
    exists order :: IsTopOrder(scores, PoolSize(idx.kind, k), order)
                    && pool == CandidatesAt(idx, scores, order)
  }

  /** `hits` is what `mmr` returns for the pool: the pool itself when it
      has at most k candidates, otherwise a greedy MMR selection of k. */
  ghost predicate IsMmrResult(cands: seq<Candidate>, k: int, lambda: real, sim: (string, string) -> real, hits: seq<Candidate>) {
    && (|cands| <= k ==> hits == cands)
    && (|cands| > k ==> exists sel :: IsMmrSelection(cands, k, lambda, sim, sel)
                                      && (forall a :: 0 <= a < |sel| ==> sel[a] < |cands|)
                                      && hits == Picked(cands, sel))
  }
}
