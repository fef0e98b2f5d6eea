/** The request limiter and how often one command is charged (app/app_state.py, app/main.py, app/executor.py). */
module RateLimit {
  import opened Options
  import opened SlidingWindow

  const WINDOW := 60.0

  function Ask(now: real, limit: int): Op
  {
    Try(now, now, limit, true)
  }

  class RateLimiter {
    var cache: map<string, seq<real>>

    function Window(key: string): seq<real>
      reads this
    {
      if key in cache then cache[key] else []
    }

    constructor ()
      ensures forall k :: Window(k) == []
    {
      cache := map[];
    }

    /** `check_rate_limit`: each key has its own window. */
    method Check(key: string, limit: int, now: real) returns (ok: bool)
      modifies this
      ensures ok == Allowed(old(Window(key)), Ask(now, limit), WINDOW)
      ensures Window(key) == Next(old(Window(key)), Ask(now, limit), WINDOW)
      ensures ok <==> limit <= 0 || |Recent(old(Window(key)), now, 60.0)| < limit
      ensures limit > 0 ==> Window(key) == Recent(old(Window(key)), now, 60.0) + if ok then [now] else []
      ensures forall k :: k != key ==> Window(k) == old(Window(k))
      ensures limit <= 0 ==> cache == old(cache)
    {
      if limit <= 0 {
        return true;
      }
      var window := Window(key);
      cache := cache[key := Recent(window, now, WINDOW)];
      if |cache[key]| >= limit {
        return false;
      }
      cache := cache[key := cache[key] + [now]];
      ok := true;
    }
  }

  // ----- what one command costs -----

  /** `rate_limit` of a host; the first check of /api/exec falls back to 10, the pipeline's own to no limit. */
  function FirstLimit(configured: Option<int>): int
  {
    if configured.Some? then configured.value else 10
  }

  function PipelineLimit(configured: Option<int>): int
  {
    if configured.Some? then configured.value else 0
  }

  /** The two checks /api/exec makes on the host's key, on the list the host has. */
  predicate ApiPasses(ts: seq<real>, first: real, second: real, configured: Option<int>)
  {
    && Allowed(ts, Ask(first, FirstLimit(configured)), WINDOW)
    && Allowed(Next(ts, Ask(first, FirstLimit(configured)), WINDOW), Ask(second, PipelineLimit(configured)), WINDOW)
  }

  /**
   * Without a configured limit one check counts; with one, there must be room at the first check, and at the second
   * for one more beside the first, if that is still recent.
   */
  lemma ApiNeedsTwoPlaces(ts: seq<real>, first: real, second: real, configured: Option<int>)
    requires first <= second
    ensures configured.None? ==> (ApiPasses(ts, first, second, configured) <==> |Recent(ts, first, WINDOW)| < 10)
    ensures configured.Some? && configured.value > 0 ==>
              (ApiPasses(ts, first, second, configured) <==>
               && |Recent(ts, first, WINDOW)| < configured.value
               && |Recent(ts, second, WINDOW)| + (if second - first < WINDOW then 1 else 0) < configured.value)
    ensures configured.Some? && configured.value <= 0 ==> ApiPasses(ts, first, second, configured)
  {
    if configured.Some? && configured.value > 0 {
      RecentTwice(ts, first, second, WINDOW);
      RecentOfAppend(Recent(ts, first, WINDOW), [first], second, WINDOW);
      assert Recent([first], second, WINDOW) == if second - first < WINDOW then [first] else [];
    }
  }

  lemma LimitOneAdmitsNothing(ts: seq<real>, first: real, second: real)
    requires first <= second < first + WINDOW
    ensures !ApiPasses(ts, first, second, Some(1))
  {
    RecentOfAppend(Recent(ts, first, WINDOW), [first], second, WINDOW);
    assert Recent([first], second, WINDOW) == [first];
  }

  /**
   * A command for a host: over /api/exec it is charged twice, over MCP once. `Unauthorized` is an /api/exec command that
   * the pipeline refuses between its two checks; over MCP such a command is not charged at all.
   */
  datatype Call = Api(first: real, second: real) | Mcp(at: real) | Unauthorized(first: real)

  /** The uses of the host's window a call makes; a refused first check is not followed by a second. */
  function UsesAfter(before: seq<Op>, call: Call, limit: int): seq<Op>
  {
    if call.Mcp? then before + [Ask(call.at, limit)]
    else if call.Unauthorized? then before + [Ask(call.first, limit)]
    else if Allowed(Stored(before, WINDOW), Ask(call.first, limit), WINDOW)
    then before + [Ask(call.first, limit)] + [Ask(call.second, limit)]
    else before + [Ask(call.first, limit)]
  }

  function UsesOf(calls: seq<Call>, limit: int): seq<Op>
  {
    if calls == [] then [] else UsesAfter(UsesOf(calls[..|calls| - 1], limit), calls[|calls| - 1], limit)
  }

  /** The call gets through, past every check of the limiter. */
  predicate Passes(before: seq<Op>, call: Call, limit: int)
  {
    if call.Unauthorized? then false
    else if call.Mcp? then Allowed(Stored(before, WINDOW), Ask(call.at, limit), WINDOW)
    else
      && Allowed(Stored(before, WINDOW), Ask(call.first, limit), WINDOW)
      && Allowed(Stored(before + [Ask(call.first, limit)], WINDOW), Ask(call.second, limit), WINDOW)
  }

  predicate Inside(call: Call, x: real)
  {
    match call
    case Mcp(at) => x <= at < x + WINDOW
    case Api(first, second) => x <= first < x + WINDOW && x <= second < x + WINDOW
    case Unauthorized(first) => x <= first < x + WINDOW
  }

  /** Twice the /api/exec commands plus the MCP commands that got through inside the minute from `x` on. */
  function Weight(calls: seq<Call>, limit: int, x: real): nat
  {
    if calls == [] then 0
    else
      var before, call := calls[..|calls| - 1], calls[|calls| - 1];
      Weight(before, limit, x)
      + if Passes(UsesOf(before, limit), call, limit) && Inside(call, x) then (if call.Api? then 2 else 1) else 0
  }

  lemma HistoryNext(ops: seq<Op>, op: Op, x: real)
    requires op.Try? && op.takes && op.limit > 0
    ensures CountFrom(History(ops + [op], WINDOW), x, WINDOW) ==
            CountFrom(History(ops, WINDOW), x, WINDOW)
            + if Allowed(Stored(ops, WINDOW), op, WINDOW) && x <= op.stamp < x + WINDOW then 1 else 0
  {
    assert (ops + [op])[..|ops|] == ops;
    assert (History(ops, WINDOW) + [op.stamp])[..|History(ops, WINDOW)|] == History(ops, WINDOW);
  }

  lemma CallIsRecorded(before: seq<Op>, call: Call, limit: int, x: real)
    requires limit > 0
    ensures CountFrom(History(before, WINDOW), x, WINDOW)
            + (if Passes(before, call, limit) && Inside(call, x) then (if call.Api? then 2 else 1) else 0)
            <= CountFrom(History(UsesAfter(before, call, limit), WINDOW), x, WINDOW)
  {
    if call.Mcp? {
      HistoryNext(before, Ask(call.at, limit), x);
    } else if call.Unauthorized? {
      HistoryNext(before, Ask(call.first, limit), x);
    } else {
      HistoryNext(before, Ask(call.first, limit), x);
      HistoryNext(before + [Ask(call.first, limit)], Ask(call.second, limit), x);
    }
  }

  lemma {:induction false} WeightIsRecorded(calls: seq<Call>, limit: int, x: real)
    requires limit > 0
    ensures Weight(calls, limit, x) <= CountFrom(History(UsesOf(calls, limit), WINDOW), x, WINDOW)
  {
    if calls != [] {
      var n := |calls| - 1;
      WeightIsRecorded(calls[..n], limit, x);
      CallIsRecorded(UsesOf(calls[..n], limit), calls[n], limit, x);
    }
  }

  lemma {:induction false} UsesAreLimited(calls: seq<Call>, limit: int)
    ensures LimitedBy(UsesOf(calls, limit), limit)
  {
    if calls != [] {
      UsesAreLimited(calls[..|calls| - 1], limit);
    }
  }

  /** In every minute a host with limit L lets through at most L/2 commands over /api/exec, fewer with MCP traffic. */
  lemma ApiRunsAtHalfTheLimit(calls: seq<Call>, limit: int, x: real)
    requires limit > 0 && InOrder(UsesOf(calls, limit))
    ensures Weight(calls, limit, x) <= limit
  {
    WeightIsRecorded(calls, limit, x);
    UsesAreLimited(calls, limit);
    AtMostLimitPerWindow(UsesOf(calls, limit), WINDOW, limit, x);
  }
}
