/** Login lockout per address (app/auth.py: locked, failed, cleared; app/routes_auth.py: login, stepup). */
module Lockout {
  import opened SlidingWindow

  /** How a login or step-up request ends once it is past the lockout check. */
  datatype Ending = Failed | Cleared | Neither

  /** A request as a use of its address's window: checked at `check`, a failure recorded at `stamp`. */
  function RequestOps(ts: seq<real>, check: real, stamp: real, attempts: nat, win: real, ending: Ending): seq<Op>
  {
    var op := Try(check, stamp, attempts, ending == Failed);
    if Allowed(ts, op, win) && ending == Cleared then [op, Clear] else [op]
  }

  /** The address's failures after the request; a locked address gets nothing but the look at its list. */
  function AfterRequest(ts: seq<real>, check: real, stamp: real, attempts: nat, win: real, ending: Ending): seq<real>
  {
    var recent := Recent(ts, check, win);
    if |recent| >= attempts || ending == Neither then recent
    else if ending == Cleared then []
    else recent + [stamp]
  }

  lemma RequestIsItsOps(ts: seq<real>, check: real, stamp: real, attempts: nat, win: real, ending: Ending)
    requires attempts > 0
    ensures var ops := RequestOps(ts, check, stamp, attempts, win, ending);
            var one := Next(ts, ops[0], win);
            AfterRequest(ts, check, stamp, attempts, win, ending)
            == if |ops| == 1 then one else Next(one, ops[1], win)
  {
  }

  class Lockouts {
    var fails: map<string, seq<real>>

    function Fails(ip: string): seq<real>
      reads this
    {
      if ip in fails then fails[ip] else []
    }

    constructor ()
      ensures forall ip :: Fails(ip) == []
    {
      fails := map[];
    }

    method Locked(ip: string, now: real, attempts: nat, win: real) returns (locked: bool)
      modifies this
      ensures Fails(ip) == Recent(old(Fails(ip)), now, win) && locked == (|Fails(ip)| >= attempts)
      ensures forall k :: k != ip ==> Fails(k) == old(Fails(k))
    {
      fails := fails[ip := Recent(Fails(ip), now, win)];
      locked := |fails[ip]| >= attempts;
    }

    method RecordFailure(ip: string, now: real)
      modifies this
      ensures Fails(ip) == old(Fails(ip)) + [now]
      ensures forall k :: k != ip ==> Fails(k) == old(Fails(k))
    {
      fails := fails[ip := Fails(ip) + [now]];
    }

    method Clear(ip: string)
      modifies this
      ensures Fails(ip) == []
      ensures forall k :: k != ip ==> Fails(k) == old(Fails(k))
    {
      fails := fails - {ip};
    }
  }

  /** The requests of one address, as they change its window. */
  datatype Request = Request(check: real, stamp: real, ending: Ending)

  function OpsOf(requests: seq<Request>, attempts: nat, win: real): seq<Op>
  {
    if requests == [] then []
    else
      var before, r := OpsOf(requests[..|requests| - 1], attempts, win), requests[|requests| - 1];
      before + RequestOps(Stored(before, win), r.check, r.stamp, attempts, win, r.ending)
  }

  /** The address's failures after its requests, each as the routes leave them. */
  function AfterRequests(requests: seq<Request>, attempts: nat, win: real): seq<real>
  {
    if requests == [] then []
    else
      var before, r := AfterRequests(requests[..|requests| - 1], attempts, win), requests[|requests| - 1];
      AfterRequest(before, r.check, r.stamp, attempts, win, r.ending)
  }

  lemma StoredAfter(ops: seq<Op>, more: seq<Op>, win: real)
    requires 1 <= |more| <= 2
    ensures var one := Next(Stored(ops, win), more[0], win);
            Stored(ops + more, win) == if |more| == 1 then one else Next(one, more[1], win)
  {
    var all := ops + more;
    assert all[..|all| - 1] == ops + more[..|more| - 1];
    if |more| == 2 {
      var first := ops + [more[0]];
      assert first[..|first| - 1] == ops;
      assert all[..|all| - 1] == first;
    } else {
      assert all[..|all| - 1] == ops;
    }
  }

  /** What the routes leave, request by request, is what the uses of the window leave. */
  lemma {:induction false} RequestsAreTheirOps(requests: seq<Request>, attempts: nat, win: real)
    requires attempts > 0
    ensures AfterRequests(requests, attempts, win) == Stored(OpsOf(requests, attempts, win), win)
    decreases |requests|
  {
    if requests != [] {
      var init, r := requests[..|requests| - 1], requests[|requests| - 1];
      var ops := OpsOf(init, attempts, win);
      RequestsAreTheirOps(init, attempts, win);
      RequestIsItsOps(Stored(ops, win), r.check, r.stamp, attempts, win, r.ending);
      StoredAfter(ops, RequestOps(Stored(ops, win), r.check, r.stamp, attempts, win, r.ending), win);
    }
  }

  lemma {:induction false} OpsHaveLimit(requests: seq<Request>, attempts: nat, win: real)
    ensures LimitedBy(OpsOf(requests, attempts, win), attempts)
  {
    if requests != [] {
      var before, r := OpsOf(requests[..|requests| - 1], attempts, win), requests[|requests| - 1];
      OpsHaveLimit(requests[..|requests| - 1], attempts, win);
      assert LimitedBy(RequestOps(Stored(before, win), r.check, r.stamp, attempts, win, r.ending), attempts);
    }
  }

  /**
   * Between two clears, an address gets at most `attempts` recorded failures in any half-open stretch of the window's
   * length, and a request is refused exactly when that many failures are recent.
   */
  lemma FailuresAreBounded(requests: seq<Request>, attempts: nat, win: real, x: real, next: Request)
    requires attempts > 0
    requires InOrder(OpsOf(requests, attempts, win) + [Try(next.check, next.stamp, attempts, next.ending == Failed)])
    ensures var ops := OpsOf(requests, attempts, win);
            && CountFrom(History(ops, win), x, win) <= attempts
            && (|Recent(AfterRequests(requests, attempts, win), next.check, win)| < attempts
                <==> |Recent(History(ops, win), next.check, win)| < attempts)
  {
    RequestsAreTheirOps(requests, attempts, win);
    var ops := OpsOf(requests, attempts, win);
    var op := Try(next.check, next.stamp, attempts, next.ending == Failed);
    OpsHaveLimit(requests, attempts, win);
    assert forall i :: 0 <= i < |ops| ==> (ops + [op])[i] == ops[i];
    assert InOrder(ops);
    AtMostLimitPerWindow(ops, win, attempts, x);
    AllowedExactly(ops, op, win);
  }

  /** What a wrong password or code leaves of an address's failures: one more, unless the address is locked already. */
  predicate CountsOne(before: seq<real>, after: seq<real>, now: real, attempts: nat, win: real)
  {
    var recent := Recent(before, now, win);
    after == if |recent| < attempts then recent + [now] else recent
  }

  /** Wrong requests one after the other, each at its time; nothing else touches the address's list. */
  predicate AllWrong(lists: seq<seq<real>>, times: seq<real>, attempts: nat, win: real)
  {
    && |lists| == |times| + 1
    && (forall i :: 0 <= i < |times| ==> CountsOne(lists[i], lists[i + 1], times[i], attempts, win))
    && (forall i, j :: 0 <= i < j < |times| ==> times[i] <= times[j])
  }

  lemma OneMoreCounts(before: seq<real>, after: seq<real>, now: real, t: real, attempts: nat, win: real, n: nat)
    requires CountsOne(before, after, now, attempts, win) && now <= t < now + win
    requires |Recent(before, t, win)| >= n
    ensures |Recent(after, t, win)| >= n
    ensures |Recent(before, now, win)| < attempts ==> |Recent(after, t, win)| >= n + 1
  {
    RecentTwice(before, now, t, win);
    RecentOfAppend(Recent(before, now, win), [now], t, win);
    RecentOne(now, t, win);
  }

  lemma {:induction false} WrongRequestsAddUp(lists: seq<seq<real>>, times: seq<real>, attempts: nat, win: real, t: real)
    requires AllWrong(lists, times, attempts, win)
    requires forall i :: 0 <= i < |times| ==> |Recent(lists[i], times[i], win)| < attempts
    requires forall i :: 0 <= i < |times| ==> times[i] <= t < times[i] + win
    ensures |Recent(lists[|times|], t, win)| >= |times|
    decreases |times|
  {
    if times != [] {
      var n := |times| - 1;
      assert forall i :: 0 <= i < n ==> lists[..n + 1][i] == lists[i] && times[..n][i] == times[i];
      WrongRequestsAddUp(lists[..n + 1], times[..n], attempts, win, t);
      OneMoreCounts(lists[n], lists[n + 1], times[n], t, attempts, win, n);
    }
  }

  /**
   * Guessing locks the address: after as many wrong requests as are allowed, none of them turned away, the next one within
   * the window of the first is.
   */
  lemma GuessingLocks(lists: seq<seq<real>>, times: seq<real>, attempts: nat, win: real, t: real)
    requires AllWrong(lists, times, attempts, win) && |times| >= attempts
    requires forall i :: 0 <= i < |times| ==> |Recent(lists[i], times[i], win)| < attempts
    requires times != [] ==> times[|times| - 1] <= t < times[0] + win
    ensures |Recent(lists[|times|], t, win)| >= attempts
  {
    WrongRequestsAddUp(lists, times, attempts, win, t);
  }
}
