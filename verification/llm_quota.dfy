/** The quota bookkeeping of the language-model handler (src/llm_handler.py):
    a 60-second sliding window of request times, a daily token budget that
    resets a day after it was last reset, the quota report and the token
    estimate. The clock is a parameter and waiting advances it. */
module LlmQuota {

  const RequestsPerMinute: nat := 30
  const TokensPerDay: int := 10000000
  const Window: real := 60.0
  const Day: real := 86400.0

  /** `len(text) // 4`. */
  function EstimateTokens(text: string): (r: nat)
    ensures 4 * r <= |text| < 4 * r + 4
  {
    |text| / 4
  }

  /** The handler's rate-limiting fields. */
  datatype Quota = Quota(times: seq<real>, daily: int, resetAt: real, last: real)

  /** The state of a fresh handler created at time `now`. */
  function Initial(now: real): (q: Quota)
    ensures q.times == [] && q.daily == 0 && q.resetAt == now + Day
  {
    Quota([], 0, now + Day, 0.0)
  }

  /** The request times of the last minute, in their order. */
  function Prune(times: seq<real>, now: real): (r: seq<real>)
    ensures |r| <= |times|
    ensures forall t :: t in r <==> t in times && now - t < Window
    decreases |times|
  {
    if times == [] then []
    else (if now - times[0] < Window then [times[0]] else []) + Prune(times[1..], now)
  }

  /** Pruning works request by request, so it keeps the order of the times
      it keeps. */
  lemma {:induction false} PruneConcat(a: seq<real>, b: seq<real>, now: real)
    ensures Prune(a + b, now) == Prune(a, now) + Prune(b, now)
    decreases |a|
  {
    if a == [] {
      assert a + b == b;
    } else {
      assert (a + b)[0] == a[0];
      assert (a + b)[1..] == a[1..] + b;
      PruneConcat(a[1..], b, now);
    }
  }

  /** Pruning at a later moment after pruning at an earlier one is the same
      as pruning only at the later moment. */
  lemma {:induction false} PruneTwice(times: seq<real>, earlier: real, later: real)
    requires earlier <= later
    ensures Prune(Prune(times, earlier), later) == Prune(times, later)
    decreases |times|
  {
    if times != [] {
      var head := if earlier - times[0] < Window then [times[0]] else [];
      PruneConcat(head, Prune(times[1..], earlier), later);
      PruneTwice(times[1..], earlier, later);
      if head != [] {
        assert head[1..] == [];
      }
    }
  }

  /** A minute after the oldest request, that request leaves the window. */
  lemma PruneDrops(w: seq<real>, later: real)
    requires w != [] && later - w[0] >= Window
    ensures |Prune(w, later)| < |w|
  {
  }

  /** A just-recorded request is the newest in the window. */
  lemma {:induction false} PruneAppendNow(times: seq<real>, now: real)
    ensures Prune(times + [now], now) == Prune(times, now) + [now]
    decreases |times|
  {
    if times == [] {
      assert Prune([now], now) == [now] + Prune([], now);
    } else {
      assert (times + [now])[1..] == times[1..] + [now];
      PruneAppendNow(times[1..], now);
    }
  }

  /** The daily counter after the reset check at time `now`. */
  function AfterReset(q: Quota, now: real): (r: Quota)
    ensures now > q.resetAt ==> r.daily == 0 && r.resetAt == now + Day
    ensures now <= q.resetAt ==> r.daily == q.daily && r.resetAt == q.resetAt
    ensures r.times == q.times && r.last == q.last
  {
    if now > q.resetAt then q.(daily := 0, resetAt := now + Day) else q
  }

  /** The outcome of the rate check: whether the call may go ahead, the
      updated fields and the clock after any waiting. */
  datatype Check = Check(allowed: bool, state: Quota, clock: real)

  /** `_check_rate_limits`: prune the window; while it is full, wait until
      the oldest request leaves it and check again; then reset the daily
      counter if due and refuse when the estimate would exceed the daily
      budget. */
  function CheckRateLimits(q: Quota, now: real, estimated: int): (r: Check)
    ensures r.clock >= now
    ensures |r.state.times| < RequestsPerMinute
    ensures forall t :: t in r.state.times ==> t in q.times && r.clock - t < Window
    ensures r.allowed <==> r.state.daily + estimated <= TokensPerDay
    ensures r.state.last == q.last
    ensures r.state == AfterReset(q.(times := Prune(q.times, r.clock)), r.clock)
    decreases |Prune(q.times, now)|
  {
    var w := Prune(q.times, now);
    assert forall i :: 0 <= i < |w| ==> w[i] in w;
    if |w| >= RequestsPerMinute && Window - (now - w[0]) > 0.0 then
      var later := now + (Window - (now - w[0]));
      PruneDrops(w, later);
      var r := CheckRateLimits(q.(times := w), later, estimated);
      PruneTwice(q.times, now, r.clock);
      r
    else
      var s := AfterReset(q.(times := w), now);
      Check(s.daily + estimated <= TokensPerDay, s, now)
  }

  /** With fewer than the allowed requests in the last minute there is no
      waiting, and the call is refused exactly when the daily budget would
      be exceeded. */
  lemma UnderCapNoWait(q: Quota, now: real, estimated: int)
    requires |Prune(q.times, now)| < RequestsPerMinute
    ensures var r := CheckRateLimits(q, now, estimated);
      && r.clock == now
      && r.state.times == Prune(q.times, now)
      && (!r.allowed <==> AfterReset(q, now).daily + estimated > TokensPerDay)
  {
  }

  /** `_record_request`. */
  function RecordRequest(q: Quota, now: real, tokens: int): (r: Quota)
    ensures r.times == q.times + [now] && r.daily == q.daily + tokens && r.last == now
    ensures r.resetAt == q.resetAt
  {
    q.(times := q.times + [now], daily := q.daily + tokens, last := now)
  }

  /** `get_quota_status`, without the constant limits it repeats. */
  datatype Status = Status(
    inLastMinute: nat,
    requestsRemaining: nat,
    dailyUsed: int,
    dailyRemaining: nat,
    resetIn: int,
    rateOk: bool,
    dailyOk: bool)

  function Max0(x: int): (r: nat)
    ensures r >= x && (r == 0 || r == x)
  {
    if x > 0 then x else 0
  }

  /** `get_quota_status`: prunes and resets like the rate check and reports
      the counts; the rate is "NEAR_LIMIT" from 30 requests a minute on, the
      daily quota "HIGH_USAGE" from 80% of the budget on. */
  function QuotaStatus(q: Quota, now: real): (r: (Quota, Status))
    ensures r.0 == AfterReset(q.(times := Prune(q.times, now)), now)
    ensures r.1.inLastMinute == |r.0.times| && r.1.dailyUsed == r.0.daily
    ensures r.1.rateOk <==> r.1.requestsRemaining > 0
    ensures r.1.dailyOk <==> r.1.dailyUsed < 8000000
    ensures r.1.dailyUsed <= TokensPerDay ==> r.1.dailyUsed + r.1.dailyRemaining == TokensPerDay
    ensures r.1.resetIn >= 0
    ensures r.1.requestsRemaining == Max0(RequestsPerMinute - r.1.inLastMinute)
    ensures r.1.rateOk <==> r.1.inLastMinute < RequestsPerMinute
    ensures r.1.dailyRemaining == Max0(TokensPerDay - r.1.dailyUsed)
    ensures var untilReset := if r.0.resetAt - now > 0.0 then r.0.resetAt - now else 0.0;
      r.1.resetIn as real <= untilReset < r.1.resetIn as real + 1.0
  {
    var s := AfterReset(q.(times := Prune(q.times, now)), now);
    var n := |s.times|;
    var untilReset := if s.resetAt - now > 0.0 then s.resetAt - now else 0.0;
    (s, Status(
      n,
      Max0(RequestsPerMinute - n),
      s.daily,
      Max0(TokensPerDay - s.daily),
      untilReset.Floor,
      n < RequestsPerMinute,
      (s.daily as real) < (TokensPerDay as real) * 0.8))
  }

  /** A report of spare rate and enough remaining tokens promises that the
      rate check at the same moment lets the call through without waiting. */
  lemma StatusOkAllows(q: Quota, now: real, estimated: int)
    requires QuotaStatus(q, now).1.rateOk && QuotaStatus(q, now).1.dailyUsed <= TokensPerDay
    requires estimated <= QuotaStatus(q, now).1.dailyRemaining
    ensures CheckRateLimits(q, now, estimated).allowed
    ensures CheckRateLimits(q, now, estimated).clock == now
  {
    UnderCapNoWait(q, now, estimated);
  }

  /** A recorded request is counted in the next report at the same moment. */
  lemma RecordedRequestCounted(q: Quota, now: real, tokens: int)
    ensures QuotaStatus(RecordRequest(q, now, tokens), now).1.inLastMinute == |Prune(q.times, now)| + 1
  {
    PruneAppendNow(q.times, now);
  }

  /** The bookkeeping of `analyze_contract_with_metrics`. */
  datatype CallMetrics = CallMetrics(promptTokens: nat, responseTokens: nat, totalTokens: nat, success: bool)

  /** Success is a finish reason of "success" or "1"; the total counts the
      prompt and the response. */
  function Bookkeep(prompt: string, response: string, finishReason: string): (m: CallMetrics)
    ensures m.success <==> finishReason == "success" || finishReason == "1"
    ensures m.totalTokens == m.promptTokens + m.responseTokens
    ensures 4 * m.totalTokens <= |prompt| + |response|
  {
    var p := EstimateTokens(prompt);
    var r := EstimateTokens(response);
    CallMetrics(p, r, p + r, finishReason == "success" || finishReason == "1")
  }
}
