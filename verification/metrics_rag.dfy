/** The retrieval benchmark (app/metrics_rag.py): bench validation, the
    Hit@k, P@1 and exact-match indicators, one result row per bench item and
    the summary over the successful runs. The gold regex is an oracle
    `search(pattern, text)`; the `ask` runs are given as their outcomes. */
module MetricsRag {
  import opened Wrappers
  import opened Text
  import opened Json
  import opened PyDict
  import AnalysisMetrics

  // ---------------------------------------------------------------------------
  // load_bench
  // ---------------------------------------------------------------------------

  function BenchError(i: nat): string {
    "ValueError: bench item " + NatToString(i) + " missing 'q' or 'gold_regex'"
  }

  /** Python's `key in item` for a parsed JSON value: a key of a dict, an
      element of a list, a substring of a string; numbers, booleans and None
      are not containers. */
  function HasKey(item: Value, key: string): Result<bool> {
    match item
    case VObj(fields) => Ok(key in fields)
    case VList(items) => Ok(VStr(key) in items)
    case VStr(s) => Ok(Contains(s, key))
    case _ => Err("TypeError: argument is not iterable")
  }

  /** The validated item: both keys present, and "k" set to 8 when absent. */
  function WithDefaultK(fields: map<string, Value>): (r: map<string, Value>)
    ensures "k" in r && r["k"] == (if "k" in fields then fields["k"] else VInt(8))
    ensures forall key :: key in fields ==> key in r && (key != "k" ==> r[key] == fields[key])
    ensures forall key :: key in r ==> key in fields || key == "k"
  {
    if "k" in fields then fields else fields["k" := VInt(8)]
  }

  predicate ValidItem(item: Value) {
    item.VObj? && "q" in item.fields && "gold_regex" in item.fields
  }

  /** `load_bench` from item i on: the first item lacking "q" or "gold_regex"
      is an error naming its position; a non-dict item that has both keys
      fails on `setdefault`. */
  function LoadBenchFrom(items: seq<Value>, i: nat): (r: Result<seq<map<string, Value>>>)
    requires i <= |items|
    ensures r.Ok? <==> forall j :: i <= j < |items| ==> ValidItem(items[j])
    ensures r.Ok? ==> |r.value| == |items| - i
    ensures r.Ok? ==> forall j :: i <= j < |items| ==> r.value[j - i] == WithDefaultK(items[j].fields)
    decreases |items| - i
  {
    if i == |items| then Ok([])
    else
      var it := items[i];
      var hq := HasKey(it, "q");
      var hg := HasKey(it, "gold_regex");
      if hq.Err? then Err(hq.error)
      else if !hq.value then Err(BenchError(i))
      else if hg.Err? then Err(hg.error)
      else if !hg.value then Err(BenchError(i))
      else if !it.VObj? then Err("AttributeError: object has no attribute 'setdefault'")
      else
        var rest := LoadBenchFrom(items, i + 1);
        if rest.Err? then rest else Ok([WithDefaultK(it.fields)] + rest.value)
  }

  function LoadBench(items: seq<Value>): (r: Result<seq<map<string, Value>>>)
    ensures r.Ok? <==> forall j :: 0 <= j < |items| ==> ValidItem(items[j])
    ensures r.Ok? ==> |r.value| == |items|
    ensures r.Ok? ==> forall j :: 0 <= j < |items| ==> r.value[j] == WithDefaultK(items[j].fields)
  {
    LoadBenchFrom(items, 0)
  }

  /** A dict item lacking "q" is reported with its own position, provided
      every earlier item is valid. */
  lemma {:induction false} MissingKeyReported(items: seq<Value>, i: nat, j: nat)
    requires i <= j < |items|
    requires forall p :: i <= p < j ==> ValidItem(items[p])
    requires items[j].VObj? && !ValidItem(items[j])
    ensures LoadBenchFrom(items, i) == Err(BenchError(j))
    decreases j - i
  {
    if i < j {
      MissingKeyReported(items, i + 1, j);
    }
  }

  // ---------------------------------------------------------------------------
  // The indicators
  // ---------------------------------------------------------------------------

  /** `texts_by_id.get(id, "")`. */
  function SegmentText(textsById: map<string, string>, id: string): string {
    if id in textsById then textsById[id] else ""
  }

  /** A hit matches when its id maps to a non-empty indexed text in which the
      pattern is found. */
  predicate HitMatches(search: (string, string) -> bool, pattern: string, textsById: map<string, string>, id: string) {
    var seg := SegmentText(textsById, id);
    seg != "" && search(pattern, seg)
  }

  /** `hit_at_k`: 1 at the first matching hit, 0 when none matches. */
  function HitAtK(hitIds: seq<string>, search: (string, string) -> bool, pattern: string, textsById: map<string, string>): (r: nat)
    ensures r <= 1
    ensures r == 1 <==> exists h :: 0 <= h < |hitIds| && HitMatches(search, pattern, textsById, hitIds[h])
    decreases |hitIds|
  {
    if hitIds == [] then 0
    else if HitMatches(search, pattern, textsById, hitIds[0]) then 1
    else
      var r := HitAtK(hitIds[1..], search, pattern, textsById);
      assert forall h :: 1 <= h < |hitIds| ==> hitIds[h] == hitIds[1..][h - 1];
      r
  }

  /** `p_at_1`: only the first hit counts. */
  function PAt1(hitIds: seq<string>, search: (string, string) -> bool, pattern: string, textsById: map<string, string>): (r: nat)
    ensures r <= 1
    ensures r == 1 <==> hitIds != [] && HitMatches(search, pattern, textsById, hitIds[0])
  {
    if hitIds == [] then 0
    else if HitMatches(search, pattern, textsById, hitIds[0]) then 1 else 0
  }

  /** P@1 never exceeds Hit@k for the same hits. */
  lemma PAt1AtMostHitAtK(hitIds: seq<string>, search: (string, string) -> bool, pattern: string, textsById: map<string, string>)
    ensures PAt1(hitIds, search, pattern, textsById) <= HitAtK(hitIds, search, pattern, textsById)
  {
    if PAt1(hitIds, search, pattern, textsById) == 1 {
      assert HitMatches(search, pattern, textsById, hitIds[0]);
    }
  }

  /** Hits whose ids are not in the index never count. */
  lemma UnknownIdsNeverMatch(hitIds: seq<string>, search: (string, string) -> bool, pattern: string, textsById: map<string, string>)
    requires forall h :: 0 <= h < |hitIds| ==> hitIds[h] !in textsById
    ensures HitAtK(hitIds, search, pattern, textsById) == 0
    ensures PAt1(hitIds, search, pattern, textsById) == 0
  {
  }

  /** `exact_match`: 0 for a non-string answer, else whether the pattern is
      found in it. */
  function ExactMatch(answer: Value, search: (string, string) -> bool, pattern: string): (r: nat)
    ensures r <= 1
    ensures r == 1 <==> answer.VStr? && search(pattern, answer.s)
  {
    if !answer.VStr? then 0
    else if search(pattern, answer.s) then 1 else 0
  }

  // ---------------------------------------------------------------------------
  // Rows and summary
  // ---------------------------------------------------------------------------

  /** One `ask` run: the answer value, the hit ids and the total latency when
      it reads as a number; or the error text of a failed run. */
  datatype Run = RunOk(answer: Value, hitIds: seq<string>, latency: Option<real>) | RunErr(error: string)

  /** A result row; the metric fields are None where the source writes "". */
  datatype Row = Row(
    q: Value,
    ok: bool,
    latency: Option<real>,
    hitAtK: Option<nat>,
    p1: Option<nat>,
    em: Option<nat>,
    err: string)

  /** The pattern of a bench item: its "gold_regex", which `re.compile`
      refuses with a TypeError unless it is a string. */
  function Pattern(item: map<string, Value>): (r: Result<string>)
    ensures r.Ok? <==> "gold_regex" in item && item["gold_regex"].VStr?
    ensures r.Ok? ==> r.value == item["gold_regex"].s
  {
    match Get(item, "gold_regex", VNull)
    case VStr(p) => Ok(p)
    case _ => Err("TypeError: first argument must be string or compiled pattern")
  }

  /** The row of one bench item. A failed run gives an ERR row without
      touching the pattern. For a run that answered, `hit_at_k` compiles the
      pattern first, so a pattern that is not a string, or that `re.compile`
      rejects (`compiles` says which it accepts), raises and ends the
      script. */
  function RowOf(item: map<string, Value>, run: Run, search: (string, string) -> bool, compiles: string -> bool,
                 textsById: map<string, string>): (r: Result<Row>)
    ensures r.Err? <==> run.RunOk? && (Pattern(item).Err? || !compiles(Pattern(item).value))
    ensures r.Ok? ==> r.value.q == Get(item, "q", VNull) && (r.value.ok <==> run.RunOk?)
    ensures r.Ok? && !r.value.ok ==> var row := r.value;
      row.latency.None? && row.hitAtK.None? && row.p1.None? && row.em.None? && row.err == run.error
    ensures r.Ok? && r.value.ok ==> var row, pat := r.value, Pattern(item).value;
      && row.latency == run.latency && row.err == ""
      && row.hitAtK == Some(HitAtK(run.hitIds, search, pat, textsById))
      && row.p1 == Some(PAt1(run.hitIds, search, pat, textsById))
      && row.em == Some(ExactMatch(run.answer, search, pat))
  {
    var q := Get(item, "q", VNull);
    match run
    case RunErr(e) => Ok(Row(q, false, None, None, None, None, e))
    case RunOk(ans, ids, lat) =>
      match Pattern(item)
      case Err(e) => Err(e)
      case Ok(pat) =>
        if !compiles(pat) then Err("re.error: invalid pattern")
        else
          Ok(Row(q, true, lat,
                 Some(HitAtK(ids, search, pat, textsById)),
                 Some(PAt1(ids, search, pat, textsById)),
                 Some(ExactMatch(ans, search, pat)),
                 ""))
  }

  /** Every row the script writes is well formed: an OK row has its three
      indicators, each 0 or 1, with P@1 at most Hit@k. */
  lemma RowOrdered(item: map<string, Value>, run: Run, search: (string, string) -> bool, compiles: string -> bool,
                   textsById: map<string, string>)
    requires RowOf(item, run, search, compiles, textsById).Ok?
    ensures var row := RowOf(item, run, search, compiles, textsById).value;
      GoodRow(row) && (row.ok ==> Ordered(row))
  {
    if run.RunOk? {
      PAt1AtMostHitAtK(run.hitIds, search, Pattern(item).value, textsById);
    }
  }

  /** The rows of the bench items in order; the first item whose pattern
      raises ends the script with that error. */
  function Rows(bench: seq<map<string, Value>>, runs: seq<Run>, search: (string, string) -> bool, compiles: string -> bool,
                textsById: map<string, string>): (r: Result<seq<Row>>)
    requires |runs| == |bench|
    ensures r.Ok? <==> forall i :: 0 <= i < |bench| ==> RowOf(bench[i], runs[i], search, compiles, textsById).Ok?
    ensures r.Ok? ==> |r.value| == |bench|
    ensures r.Ok? ==> forall i :: 0 <= i < |bench| ==> r.value[i] == RowOf(bench[i], runs[i], search, compiles, textsById).value
    ensures r.Err? ==> exists i :: 0 <= i < |bench| && RowOf(bench[i], runs[i], search, compiles, textsById) == Err(r.error)
  {
    RowsFrom(bench, runs, search, compiles, textsById, 0)
  }

  /** The rows of the bench items from item n on. */
  function RowsFrom(bench: seq<map<string, Value>>, runs: seq<Run>, search: (string, string) -> bool, compiles: string -> bool,
                    textsById: map<string, string>, n: nat): (r: Result<seq<Row>>)
    requires |runs| == |bench| && n <= |bench|
    ensures r.Ok? <==> forall i :: n <= i < |bench| ==> RowOf(bench[i], runs[i], search, compiles, textsById).Ok?
    ensures r.Ok? ==> |r.value| == |bench| - n
    ensures r.Ok? ==> forall i :: n <= i < |bench| ==> r.value[i - n] == RowOf(bench[i], runs[i], search, compiles, textsById).value
    ensures r.Err? ==> exists i :: n <= i < |bench| && RowOf(bench[i], runs[i], search, compiles, textsById) == Err(r.error)
    decreases |bench| - n
  {
    if n == |bench| then Ok([])
    else
      match RowOf(bench[n], runs[n], search, compiles, textsById)
      case Err(e) => Err(e)
      case Ok(row) =>
        match RowsFrom(bench, runs, search, compiles, textsById, n + 1)
        case Err(e) => Err(e)
        case Ok(rest) => Ok([row] + rest)
  }

  /** The summary printed after the run. */
  datatype Summary =
    | Full(queries: nat, ok: nat, avgLatency: Option<real>, hitAtK: real, p1: real, em: real)
    | Brief(queries: nat)

  function OkRows(rows: seq<Row>): (r: seq<Row>)
    ensures |r| <= |rows|
    ensures forall x :: x in r <==> x in rows && x.ok
    ensures (forall i :: 0 <= i < |rows| ==> GoodRow(rows[i])) ==> forall i :: 0 <= i < |r| ==> OkRow(r[i])
    decreases |rows|
  {
    if rows == [] then []
    else if rows[0].ok then [rows[0]] + OkRows(rows[1..])
    else OkRows(rows[1..])
  }

  /** An OK row with its three indicators present, each 0 or 1. */
  predicate OkRow(r: Row) {
    && r.ok && r.hitAtK.Some? && r.p1.Some? && r.em.Some?
    && r.hitAtK.value <= 1 && r.p1.value <= 1 && r.em.value <= 1
  }

  /** A well-formed row: an OK row has its indicators. */
  predicate GoodRow(r: Row) {
    r.ok ==> OkRow(r)
  }

  function SumHit(rows: seq<Row>): (s: nat)
    requires forall i :: 0 <= i < |rows| ==> OkRow(rows[i])
    ensures s <= |rows|
    decreases |rows|
  {
    if rows == [] then 0
    else
      assert OkRow(rows[0]);
      rows[0].hitAtK.value + SumHit(rows[1..])
  }

  function SumP1(rows: seq<Row>): (s: nat)
    requires forall i :: 0 <= i < |rows| ==> OkRow(rows[i])
    ensures s <= |rows|
    decreases |rows|
  {
    if rows == [] then 0
    else
      assert OkRow(rows[0]);
      rows[0].p1.value + SumP1(rows[1..])
  }

  function SumEm(rows: seq<Row>): (s: nat)
    requires forall i :: 0 <= i < |rows| ==> OkRow(rows[i])
    ensures s <= |rows|
    decreases |rows|
  {
    if rows == [] then 0
    else
      assert OkRow(rows[0]);
      rows[0].em.value + SumEm(rows[1..])
  }

  /** The latencies that read as numbers: one for each row that has one. */
  function Latencies(rows: seq<Row>): (r: seq<real>)
    ensures |r| <= |rows|
    ensures forall x :: x in r <==> exists row :: row in rows && row.latency == Some(x)
    decreases |rows|
  {
    if rows == [] then []
    else
      assert forall row :: row in rows <==> row == rows[0] || row in rows[1..];
      if rows[0].latency.Some? then [rows[0].latency.value] + Latencies(rows[1..])
      else Latencies(rows[1..])
  }

  /** The latencies are collected row by row, so they keep the row order. */
  lemma {:induction false} LatenciesConcat(a: seq<Row>, b: seq<Row>)
    ensures Latencies(a + b) == Latencies(a) + Latencies(b)
    decreases |a|
  {
    if a == [] {
      assert a + b == b;
    } else {
      assert (a + b)[0] == a[0];
      assert (a + b)[1..] == a[1..] + b;
      LatenciesConcat(a[1..], b);
    }
  }

  /** A count over n rows, each contributing at most one, has a mean in
      [0, 1]. */
  lemma MeanInUnit(a: nat, n: nat)
    requires 0 < n && a <= n
    ensures 0.0 <= a as real / n as real <= 1.0
  {
  }

  /** The summary: counts of all and of OK rows, and means over the OK rows
      only; with no OK row only the counts. */
  function Summarise(rows: seq<Row>): (s: Summary)
    requires forall i :: 0 <= i < |rows| ==> GoodRow(rows[i])
    ensures s.Brief? <==> OkRows(rows) == []
    ensures s.queries == |rows|
    ensures s.Full? ==> s.ok == |OkRows(rows)| > 0
    ensures s.Full? ==> s.hitAtK == SumHit(OkRows(rows)) as real / |OkRows(rows)| as real
    ensures s.Full? ==> s.p1 == SumP1(OkRows(rows)) as real / |OkRows(rows)| as real
    ensures s.Full? ==> s.em == SumEm(OkRows(rows)) as real / |OkRows(rows)| as real
    ensures s.Full? ==> (s.avgLatency.Some? <==> Latencies(OkRows(rows)) != [])
    ensures s.Full? && s.avgLatency.Some? ==>
      Latencies(OkRows(rows)) != [] && s.avgLatency.value == AnalysisMetrics.Mean(Latencies(OkRows(rows)))
  {
    var oks := OkRows(rows);
    if oks == [] then Brief(|rows|)
    else
      var n := |oks| as real;
      var lat := Latencies(oks);
      var avg := if lat == [] then None else Some(AnalysisMetrics.Mean(lat));
      Full(|rows|, |oks|, avg, SumHit(oks) as real / n, SumP1(oks) as real / n, SumEm(oks) as real / n)
  }

  /** Every mean of the summary is a rate in [0, 1]. */
  lemma SummaryRates(rows: seq<Row>)
    requires forall i :: 0 <= i < |rows| ==> GoodRow(rows[i])
    ensures var s := Summarise(rows);
      s.Full? ==> 0.0 <= s.hitAtK <= 1.0 && 0.0 <= s.p1 <= 1.0 && 0.0 <= s.em <= 1.0
  {
    var oks := OkRows(rows);
    if oks != [] {
      MeanInUnit(SumHit(oks), |oks|);
      MeanInUnit(SumP1(oks), |oks|);
      MeanInUnit(SumEm(oks), |oks|);
    }
  }

  /** With every latency within bounds, so is the reported average. */
  lemma AverageLatencyBounds(rows: seq<Row>, lo: real, hi: real)
    requires forall i :: 0 <= i < |rows| ==> GoodRow(rows[i])
    requires forall i :: 0 <= i < |rows| ==> rows[i].latency.Some? ==> lo <= rows[i].latency.value <= hi
    ensures var s := Summarise(rows); s.Full? && s.avgLatency.Some? ==> lo <= s.avgLatency.value <= hi
  {
    var lat := Latencies(OkRows(rows));
    if lat != [] {
      forall i | 0 <= i < |lat|
        ensures lo <= lat[i] <= hi
      {
        assert lat[i] in lat;
        var row :| row in OkRows(rows) && row.latency == Some(lat[i]);
        assert row in rows;
      }
      AnalysisMetrics.MeanBounds(lat, lo, hi);
    }
  }

  /** An OK row whose P@1 does not exceed its Hit@k. */
  predicate Ordered(r: Row) {
    OkRow(r) && r.p1.value <= r.hitAtK.value
  }

  /** Summed over rows whose P@1 never exceeds their Hit@k, P@1 stays at
      most Hit@k. */
  lemma {:induction false} P1SumAtMostHit(rows: seq<Row>)
    requires forall i :: 0 <= i < |rows| ==> OkRow(rows[i]) && rows[i].p1.value <= rows[i].hitAtK.value
    ensures SumP1(rows) <= SumHit(rows)
    decreases |rows|
  {
    if rows != [] {
      assert OkRow(rows[0]);
      P1SumAtMostHit(rows[1..]);
    }
  }

  /** The OK rows built by the metrics script all have P@1 at most Hit@k. */
  lemma {:induction false} OkRowsOrdered(rows: seq<Row>)
    requires forall i :: 0 <= i < |rows| ==> GoodRow(rows[i]) && (rows[i].ok ==> Ordered(rows[i]))
    ensures forall i :: 0 <= i < |OkRows(rows)| ==> Ordered(OkRows(rows)[i])
    decreases |rows|
  {
    if rows != [] {
      assert GoodRow(rows[0]) && (rows[0].ok ==> Ordered(rows[0]));
      OkRowsOrdered(rows[1..]);
    }
  }

  /** Rows built by the metrics script are well formed, and the mean P@1 over the
      OK rows never exceeds the mean Hit@k. */
  lemma MeanP1AtMostHit(bench: seq<map<string, Value>>, runs: seq<Run>, search: (string, string) -> bool,
                        compiles: string -> bool, textsById: map<string, string>)
    requires |runs| == |bench|
    ensures var r := Rows(bench, runs, search, compiles, textsById);
      r.Ok? ==>
      && (forall i :: 0 <= i < |r.value| ==> GoodRow(r.value[i]))
      && (Summarise(r.value).Full? ==> Summarise(r.value).p1 <= Summarise(r.value).hitAtK)
  {
    var r := Rows(bench, runs, search, compiles, textsById);
    if r.Ok? {
      var rows := r.value;
      assert forall i :: 0 <= i < |rows| ==> GoodRow(rows[i]) && (rows[i].ok ==> Ordered(rows[i])) by {
        forall i | 0 <= i < |rows| ensures GoodRow(rows[i]) && (rows[i].ok ==> Ordered(rows[i])) {
          RowOrdered(bench[i], runs[i], search, compiles, textsById);
        }
      }
      OkRowsMeans(rows);
    }
  }

  /** Over well-formed rows whose P@1 never exceeds their Hit@k, the mean
      P@1 of the summary never exceeds its mean Hit@k. */
  lemma OkRowsMeans(rows: seq<Row>)
    requires forall i :: 0 <= i < |rows| ==> GoodRow(rows[i]) && (rows[i].ok ==> Ordered(rows[i]))
    ensures Summarise(rows).Full? ==> Summarise(rows).p1 <= Summarise(rows).hitAtK
  {
    var oks := OkRows(rows);
    OkRowsOrdered(rows);
    if oks != [] {
      assert forall i :: 0 <= i < |oks| ==> OkRow(oks[i]) && oks[i].p1.value <= oks[i].hitAtK.value by {
        forall i | 0 <= i < |oks| ensures OkRow(oks[i]) && oks[i].p1.value <= oks[i].hitAtK.value {
          assert Ordered(oks[i]);
        }
      }
      P1SumAtMostHit(oks);
      DivMono(SumP1(oks), SumHit(oks), |oks|);
    }
  }

  lemma DivMono(a: nat, b: nat, n: nat)
    requires a <= b && n > 0
    ensures a as real / n as real <= b as real / n as real
  {
  }

  /** `load_texts_from_index`: the id-to-text mapping of the index, each id
      mapped to the text paired with its last occurrence. */
  lemma TextsByIdLastWins(ids: seq<string>, texts: seq<string>, i: nat)
    requires i < |ids| == |texts|
    requires forall j :: i < j < |ids| ==> ids[j] != ids[i]
    ensures SegmentText(ZipMap(ids, texts), ids[i]) == texts[i]
  {
    ZipMapLast(ids, texts, i);
  }
}
