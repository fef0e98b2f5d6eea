/**
 * The sliding window both limiters use: a list of time stamps pruned when it is looked at, extended only when fewer
 * than `limit` recent stamps are left (app/app_state.py: check_rate_limit; app/auth.py: locked, failed, cleared).
 */
module SlidingWindow {
  /** The stamps of the last `w` seconds. */
  function Recent(ts: seq<real>, now: real, w: real): seq<real>
  {
    if ts == [] then []
    else Recent(ts[..|ts| - 1], now, w) + if now - ts[|ts| - 1] < w then [ts[|ts| - 1]] else []
  }

  /** How many stamps lie in the half-open interval of length `w` from `x` on. */
  function CountFrom(ts: seq<real>, x: real, w: real): nat
  {
    if ts == [] then 0
    else CountFrom(ts[..|ts| - 1], x, w) + if x <= ts[|ts| - 1] < x + w then 1 else 0
  }

  /**
   * One use of a window. `Try` looks at the list at `check`; if it lets the caller through and the caller `takes` a
   * place, it records `stamp`. A limit of 0 or less means no limit and no record. `Clear` forgets everything.
   */
  datatype Op = Try(check: real, stamp: real, limit: int, takes: bool) | Clear

  predicate Allowed(ts: seq<real>, op: Op, w: real)
  {
    op.Clear? || op.limit <= 0 || |Recent(ts, op.check, w)| < op.limit
  }

  function Next(ts: seq<real>, op: Op, w: real): seq<real>
  {
    if op.Clear? then []
    else if op.limit <= 0 then ts
    else
      var p := Recent(ts, op.check, w);
      if |p| < op.limit && op.takes then p + [op.stamp] else p
  }

  /** The stored list after a run of uses. */
  function Stored(ops: seq<Op>, w: real): seq<real>
  {
    if ops == [] then [] else Next(Stored(ops[..|ops| - 1], w), ops[|ops| - 1], w)
  }

  /** Everything recorded since the last clear, never pruned. */
  function History(ops: seq<Op>, w: real): seq<real>
  {
    if ops == [] then []
    else
      var before, op := ops[..|ops| - 1], ops[|ops| - 1];
      if op.Clear? then []
      else if op.limit > 0 && op.takes && Allowed(Stored(before, w), op, w) then History(before, w) + [op.stamp]
      else History(before, w)
  }

  predicate NoLaterThan(ops: seq<Op>, t: real)
  {
    forall i :: 0 <= i < |ops| && ops[i].Try? ==> ops[i].stamp <= t
  }

  /** The clock does not run backwards. */
  predicate InOrder(ops: seq<Op>)
  {
    && (forall i :: 0 <= i < |ops| && ops[i].Try? ==> ops[i].check <= ops[i].stamp)
    && (forall i, j :: 0 <= i < j < |ops| && ops[i].Try? && ops[j].Try? ==> ops[i].stamp <= ops[j].check)
  }

  predicate LimitedBy(ops: seq<Op>, limit: int)
  {
    forall i :: 0 <= i < |ops| && ops[i].Try? ==> ops[i].limit <= limit
  }

  lemma {:induction false} RecentOfAppend(ts: seq<real>, us: seq<real>, now: real, w: real)
    ensures Recent(ts + us, now, w) == Recent(ts, now, w) + Recent(us, now, w)
  {
    if us == [] {
      assert ts + us == ts;
    } else {
      var n := |us| - 1;
      RecentOfAppend(ts, us[..n], now, w);
      assert (ts + us)[..|ts + us| - 1] == ts + us[..n];
    }
  }

  /** A stamp counts until the window's length has passed. */
  lemma RecentOne(t: real, now: real, w: real)
    ensures Recent([t], now, w) == if now < t + w then [t] else []
  {
    assert [t][..0] == [];
  }

  /** Pruning early loses nothing that a later look could still see. */
  lemma {:induction false} RecentTwice(ts: seq<real>, early: real, late: real, w: real)
    requires early <= late
    ensures Recent(Recent(ts, early, w), late, w) == Recent(ts, late, w)
  {
    if ts != [] {
      var n := |ts| - 1;
      RecentTwice(ts[..n], early, late, w);
      RecentOfAppend(Recent(ts[..n], early, w), if early - ts[n] < w then [ts[n]] else [], late, w);
      assert Recent([ts[n]], late, w) == if late - ts[n] < w then [ts[n]] else [];
    }
  }

  /** The stored list always shows the recent part of the whole history. */
  lemma {:induction false} StoredShowsHistory(ops: seq<Op>, w: real, t: real)
    requires InOrder(ops) && NoLaterThan(ops, t)
    ensures Recent(Stored(ops, w), t, w) == Recent(History(ops, w), t, w)
  {
    if ops != [] {
      var before, op := ops[..|ops| - 1], ops[|ops| - 1];
      StoredShowsHistory(before, w, t);
      if op.Try? && op.limit > 0 {
        var ts := Stored(before, w);
        RecentTwice(ts, op.check, t, w);
        RecentOfAppend(Recent(ts, op.check, w), [op.stamp], t, w);
        RecentOfAppend(History(before, w), [op.stamp], t, w);
      }
    }
  }

  /** A use is refused exactly when `limit` of the recorded stamps are recent. */
  lemma AllowedExactly(ops: seq<Op>, op: Op, w: real)
    requires InOrder(ops + [op]) && op.Try?
    ensures Allowed(Stored(ops, w), op, w) <==> op.limit <= 0 || |Recent(History(ops, w), op.check, w)| < op.limit
  {
    assert forall i :: 0 <= i < |ops| ==> (ops + [op])[i] == ops[i];
    assert (ops + [op])[|ops|] == op;
    StoredShowsHistory(ops, w, op.check);
  }

  /** What lies in an interval that holds `stamp` is recent at any moment not after `stamp`. */
  lemma {:induction false} CountIsRecent(ts: seq<real>, x: real, w: real, check: real, stamp: real)
    requires check <= stamp < x + w
    ensures CountFrom(ts, x, w) <= |Recent(ts, check, w)|
  {
    if ts != [] {
      CountIsRecent(ts[..|ts| - 1], x, w, check, stamp);
    }
  }

  /** Every half-open interval of length `w` holds at most `limit` of the recorded stamps. */
  lemma {:induction false} AtMostLimitPerWindow(ops: seq<Op>, w: real, limit: nat, x: real)
    requires InOrder(ops) && LimitedBy(ops, limit)
    ensures CountFrom(History(ops, w), x, w) <= limit
  {
    if ops != [] {
      var before, op := ops[..|ops| - 1], ops[|ops| - 1];
      assert InOrder(before) && LimitedBy(before, limit);
      AtMostLimitPerWindow(before, w, limit, x);
      if op.Try? && op.limit > 0 && op.takes && Allowed(Stored(before, w), op, w) {
        assert before + [op] == ops;
        AllowedExactly(before, op, w);
        assert (History(before, w) + [op.stamp])[..|History(before, w)|] == History(before, w);
        if x <= op.stamp < x + w {
          CountIsRecent(History(before, w), x, w, op.check, op.stamp);
        }
      }
    }
  }
}
