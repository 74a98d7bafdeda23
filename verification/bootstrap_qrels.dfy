/** Gold-label bootstrapping for the retrieval benchmark
    (benches/bootstrap_qrels.py): for every bench item, the gold segment ids
    and weak gold answers. The gold regex is an oracle `search(pattern,
    text)` and the TF-IDF ranker an oracle `ranker(query)` standing for
    `tfidf_top(query, limit=10)`. */
module BootstrapQrels {
  import opened Wrappers
  import opened Text
  import opened Json
  import opened PyDict

  /** One output item. The gold lists are JSON values because a given list is
      copied as it is; a string in their place is sliced like a list. */
  datatype Qrel = Qrel(q: Value, k: Value, goldIds: Value, goldAnswers: Value)

  /** The length of a sliceable JSON value. */
  function Len(v: Value): nat {
    match v
    case VList(items) => |items|
    case VStr(s) => |s|
    case _ => 0
  }

  function Min(a: nat, b: nat): nat {
    if a <= b then a else b
  }

  /** `v[:n]` on a list or string; anything else cannot be sliced. */
  function SliceValue(v: Value, n: nat): (r: Result<Value>)
    ensures r.Ok? <==> v.VList? || v.VStr?
    ensures r.Ok? ==> Len(r.value) == Min(Len(v), n) && r.value.VList? == v.VList?
    ensures r.Ok? && v.VList? ==> r.value.items == v.items[..Min(|v.items|, n)]
  {
    match v
    case VList(items) => Ok(VList(items[..Min(|items|, n)]))
    case VStr(s) => Ok(VStr(s[..Min(|s|, n)]))
    case _ => Err("TypeError: object is not subscriptable")
  }

  /** Cutting twice to the same length cuts once. */
  lemma SliceTwice(v: Value, n: nat)
    requires SliceValue(v, n).Ok?
    ensures SliceValue(SliceValue(v, n).value, n) == SliceValue(v, n)
  {
    match v
    case VList(items) => assert items[..Min(|items|, n)][..Min(Min(|items|, n), n)] == items[..Min(|items|, n)];
    case VStr(t) => assert t[..Min(|t|, n)][..Min(Min(|t|, n), n)] == t[..Min(|t|, n)];
  }

  function Strs(xs: seq<string>): (r: seq<Value>)
    ensures |r| == |xs| && forall i :: 0 <= i < |xs| ==> r[i] == VStr(xs[i])
  {
    seq(|xs|, i requires 0 <= i < |xs| => VStr(xs[i]))
  }

  // ---------------------------------------------------------------------------
  // Regex mode
  // ---------------------------------------------------------------------------

  /** An indexed id is gold when its text is non-empty and the pattern is
      found in it. */
  predicate Gold(id2text: map<string, string>, search: (string, string) -> bool, pattern: string, id: string) {
    id in id2text && id2text[id] != "" && search(pattern, id2text[id])
  }

  /** The gold keys among `keys`, in their order. */
  function Matching(keys: seq<string>, id2text: map<string, string>, search: (string, string) -> bool, pattern: string): (r: seq<string>)
    ensures |r| <= |keys|
    ensures forall x :: x in r <==> x in keys && Gold(id2text, search, pattern, x)
    decreases |keys|
  {
    if keys == [] then []
    else
      var rest := Matching(keys[1..], id2text, search, pattern);
      assert forall x :: x in keys <==> x == keys[0] || x in keys[1..];
      if Gold(id2text, search, pattern, keys[0]) then [keys[0]] + rest else rest
  }

  /** The gold ids keep the relative order of the keys they come from. */
  lemma {:induction false} MatchingInOrder(keys: seq<string>, id2text: map<string, string>, search: (string, string) -> bool, pattern: string, a: nat, b: nat)
    requires a < b < |Matching(keys, id2text, search, pattern)|
    ensures var r := Matching(keys, id2text, search, pattern);
      exists i, j :: 0 <= i < j < |keys| && keys[i] == r[a] && keys[j] == r[b]
    decreases |keys|
  {
    var r := Matching(keys, id2text, search, pattern);
    var rest := Matching(keys[1..], id2text, search, pattern);
    if Gold(id2text, search, pattern, keys[0]) {
      assert r == [keys[0]] + rest;
      if a == 0 {
        assert rest[b - 1] in keys[1..];
        var j :| 0 <= j < |keys[1..]| && keys[1..][j] == rest[b - 1];
        assert keys[0] == r[a] && keys[j + 1] == r[b];
      } else {
        MatchingInOrder(keys[1..], id2text, search, pattern, a - 1, b - 1);
        var i, j :| 0 <= i < j < |keys[1..]| && keys[1..][i] == rest[a - 1] && keys[1..][j] == rest[b - 1];
        assert keys[i + 1] == r[a] && keys[j + 1] == r[b];
      }
    } else {
      MatchingInOrder(keys[1..], id2text, search, pattern, a, b);
      var i, j :| 0 <= i < j < |keys[1..]| && keys[1..][i] == rest[a] && keys[1..][j] == rest[b];
      assert keys[i + 1] == r[a] && keys[j + 1] == r[b];
    }
  }

  /** `[i for i, t in id2text.items() if t and pat.search(t)]` with
      `id2text = dict(zip(ids, texts))`: the dict iterates its keys in order
      of first occurrence, each holding the text of its last occurrence. */
  function RegexGoldIds(ids: seq<string>, texts: seq<string>, search: (string, string) -> bool, pattern: string): (r: seq<string>)
    ensures forall x :: x in r <==> Gold(ZipMap(ids, texts), search, pattern, x)
    ensures forall a, b :: 0 <= a < b < |r| ==> r[a] != r[b]
  {
    var keys := Dedup(ids[..MinLen(ids, texts)]);
    var r := Matching(keys, ZipMap(ids, texts), search, pattern);
    ZipKeys(ids, texts);
    DistinctMatching(keys, ZipMap(ids, texts), search, pattern);
    r
  }

  predicate Distinct(xs: seq<string>) {
    forall a, b :: 0 <= a < b < |xs| ==> xs[a] != xs[b]
  }

  /** The keys of `dict(zip(ids, texts))` are the paired ids. */
  lemma ZipKeys(ids: seq<string>, texts: seq<string>)
    ensures forall x :: x in ZipMap(ids, texts) <==> x in Dedup(ids[..MinLen(ids, texts)])
  {
  }

  lemma {:induction false} DistinctMatching(keys: seq<string>, id2text: map<string, string>, search: (string, string) -> bool, pattern: string)
    requires Distinct(keys)
    ensures Distinct(Matching(keys, id2text, search, pattern))
    decreases |keys|
  {
    if keys != [] {
      var tail := keys[1..];
      assert forall a, b :: 0 <= a < b < |tail| ==> tail[a] != tail[b] by {
        forall a, b | 0 <= a < b < |tail| ensures tail[a] != tail[b] {
          assert tail[a] == keys[a + 1] && tail[b] == keys[b + 1];
        }
      }
      DistinctMatching(tail, id2text, search, pattern);
      var rest := Matching(tail, id2text, search, pattern);
      assert keys[0] !in tail by {
        forall j | 0 <= j < |tail| ensures tail[j] != keys[0] {
          assert tail[j] == keys[j + 1];
        }
      }
      if Gold(id2text, search, pattern, keys[0]) {
        var r := [keys[0]] + rest;
        assert Matching(keys, id2text, search, pattern) == r;
        forall a, b | 0 <= a < b < |r| ensures r[a] != r[b] {
          if a == 0 {
            assert r[b] == rest[b - 1] && rest[b - 1] in rest;
            assert r[a] == keys[0];
          } else {
            assert r[a] == rest[a - 1] && r[b] == rest[b - 1];
          }
        }
      }
    }
  }

  /** The sentence terminators of the weak-answer regex: `.`, the Arabic
      question mark U+061F and `!`. */
  predicate IsStop(c: char) {
    c == '.' || c == '؟' || c == '!'
  }

  /** The position of the first terminator. */
  function FirstStop(t: string): (r: Option<nat>)
    ensures r.Some? ==> r.value < |t| && IsStop(t[r.value]) && forall p :: 0 <= p < r.value ==> !IsStop(t[p])
    ensures r.None? ==> forall p :: 0 <= p < |t| ==> !IsStop(t[p])
    decreases |t|
  {
    if t == [] then None
    else if IsStop(t[0]) then Some(0)
    else
      var r := FirstStop(t[1..]);
      assert forall p :: 1 <= p < |t| ==> t[p] == t[1..][p - 1];
      if r.None? then None else Some(r.value + 1)
  }

  /** `re.search(r"[^.؟!]*[.؟!]", t)` and its fallback `t[:200]`: the leftmost
      match starts at 0 and runs through the first terminator; with no
      terminator there is no match at all. */
  function Snippet(t: string): (r: string)
    ensures r <= t
    ensures FirstStop(t).Some? ==> |r| >= 1 && IsStop(r[|r| - 1]) && forall p :: 0 <= p < |r| - 1 ==> !IsStop(r[p])
    ensures FirstStop(t).None? ==> |r| == Min(|t|, 200)
  {
    match FirstStop(t)
    case Some(p) => t[..p + 1]
    case None => t[..Min(|t|, 200)]
  }

  /** The weak answer of one gold id: the stripped snippet of its text, `""`
      standing for an id outside the index. */
  function WeakAnswer(id2text: map<string, string>, id: string): string {
    Strip(Snippet(if id in id2text then id2text[id] else ""))
  }

  /** The weak gold answers: one for each of the first three gold ids. */
  function GoldAnswers(goldIds: seq<string>, id2text: map<string, string>): (r: seq<string>)
    ensures |r| == Min(|goldIds|, 3)
    ensures forall i :: 0 <= i < |r| ==> r[i] == WeakAnswer(id2text, goldIds[i])
  {
    var n := if |goldIds| < 3 then |goldIds| else 3;
    seq(n, i requires 0 <= i < n => WeakAnswer(id2text, goldIds[i]))
  }

  // ---------------------------------------------------------------------------
  // One item and the whole bench
  // ---------------------------------------------------------------------------

  /** One bench item. Regex mode when "gold_regex" is present: the pattern
      must be a string that compiles (`compiles` says which do); the
      matching ids, else the ranker's; answers from the first three. Otherwise the
      given gold ids when truthy, else the ranker's, and the given answers.
      Both lists are cut to 10 and 3. */
  function BootItem(it: Value, ids: seq<string>, texts: seq<string>, search: (string, string) -> bool, compiles: string -> bool, ranker: Value -> seq<string>): (r: Result<Qrel>)
    ensures !(it.VObj? && "q" in it.fields) ==> r.Err?
    ensures r.Ok? ==> it.VObj? && r.value.q == it.fields["q"] && r.value.k == Get(it.fields, "k", VInt(8))
    ensures r.Ok? ==> Len(r.value.goldIds) <= 10 && Len(r.value.goldAnswers) <= 3
    ensures r.Ok? && "gold_regex" in it.fields ==>
      && it.fields["gold_regex"].VStr? && compiles(it.fields["gold_regex"].s)
      && var found := RegexGoldIds(ids, texts, search, it.fields["gold_regex"].s);
         var gold := if found != [] then found else ranker(it.fields["q"]);
         && r.value.goldIds == VList(Strs(gold[..Min(|gold|, 10)]))
         && r.value.goldAnswers == VList(Strs(GoldAnswers(gold, ZipMap(ids, texts))))
    ensures it.VObj? && "q" in it.fields && "gold_regex" in it.fields ==> (r.Ok? <==> it.fields["gold_regex"].VStr? && compiles(it.fields["gold_regex"].s))
    ensures r.Ok? && "gold_regex" !in it.fields && Truthy(Get(it.fields, "gold_ids", VList([]))) ==>
      SliceValue(it.fields["gold_ids"], 10) == Ok(r.value.goldIds)
    ensures r.Ok? && "gold_regex" !in it.fields && !Truthy(Get(it.fields, "gold_ids", VList([]))) ==>
      var gold := ranker(it.fields["q"]);
      r.value.goldIds == VList(Strs(gold[..Min(|gold|, 10)]))
    ensures r.Ok? && "gold_regex" !in it.fields ==>
      SliceValue(Get(it.fields, "gold_answers", VList([])), 3) == Ok(r.value.goldAnswers)
  {
    if !it.VObj? then Err("TypeError: item is not a dict")
    else if "q" !in it.fields then Err("KeyError: 'q'")
    else
      var f := it.fields;
      var q := f["q"];
      var k := Get(f, "k", VInt(8));
      if "gold_regex" in f then
        if !f["gold_regex"].VStr? then Err("TypeError: first argument must be string or compiled pattern")
        else if !compiles(f["gold_regex"].s) then Err("re.error: invalid pattern")
        else
          var found := RegexGoldIds(ids, texts, search, f["gold_regex"].s);
          var gold := if found != [] then found else ranker(q);
          var answers := GoldAnswers(gold, ZipMap(ids, texts));
          Ok(Qrel(q, k, VList(Strs(gold[..Min(|gold|, 10)])), VList(Strs(answers))))
      else
        var given := Get(f, "gold_ids", VList([]));
        var gold := if Truthy(given) then given else VList(Strs(ranker(q)));
        var answers := SliceValue(Get(f, "gold_answers", VList([])), 3);
        if answers.Err? then Err(answers.error)
        else
          var goldCut := SliceValue(gold, 10);
          if goldCut.Err? then Err(goldCut.error)
          else
            var answersCut := SliceValue(answers.value, 3);
            SliceTwice(Get(f, "gold_answers", VList([])), 3);
            Ok(Qrel(q, k, goldCut.value, answersCut.value))
  }

  /** The script's loop: one output item per bench item, in order; the first
      failing item aborts the run. */
  function Bootstrap(items: seq<Value>, ids: seq<string>, texts: seq<string>, search: (string, string) -> bool, compiles: string -> bool, ranker: Value -> seq<string>): (r: Result<seq<Qrel>>)
    ensures r.Ok? <==> forall i :: 0 <= i < |items| ==> BootItem(items[i], ids, texts, search, compiles, ranker).Ok?
    ensures r.Ok? ==> |r.value| == |items|
    ensures r.Ok? ==> forall i :: 0 <= i < |items| ==> r.value[i] == BootItem(items[i], ids, texts, search, compiles, ranker).value
    decreases |items|
  {
    if items == [] then Ok([])
    else
      var first := BootItem(items[0], ids, texts, search, compiles, ranker);
      if first.Err? then Err(first.error)
      else
        var rest := Bootstrap(items[1..], ids, texts, search, compiles, ranker);
        assert forall i :: 1 <= i < |items| ==> items[i] == items[1..][i - 1];
        if rest.Err? then Err(rest.error) else Ok([first.value] + rest.value)
  }

  /** Every output item keeps its question, and its gold lists stay within
      10 ids and 3 answers. */
  lemma BootstrapBounds(items: seq<Value>, ids: seq<string>, texts: seq<string>, search: (string, string) -> bool, compiles: string -> bool, ranker: Value -> seq<string>, i: nat)
    requires Bootstrap(items, ids, texts, search, compiles, ranker).Ok? && i < |items|
    ensures var out := Bootstrap(items, ids, texts, search, compiles, ranker).value;
      && items[i].VObj? && out[i].q == items[i].fields["q"]
      && Len(out[i].goldIds) <= 10 && Len(out[i].goldAnswers) <= 3
  {
    assert BootItem(items[i], ids, texts, search, compiles, ranker).Ok?;
  }
}
