/** The delivery of queued events with retry and backoff (app/events.py: _deliver, _mark). */
module Outbox {
  datatype Status = Pending | Sent | Skipped | Fallback | Failed

  datatype Row = Row(id: nat, status: Status, tries: nat, nextAt: real)

  datatype Legacy = OnFallback | InParallel | Off

  /** `gate`: notify-gate is enabled and configured. */
  datatype Config = Config(gate: bool, legacy: Legacy, maxTries: nat)

  /** What the network does with one row: its start, notify-gate's verdict, and that of the legacy channel. */
  datatype Delivery = Delivery(now: real, ok: bool, retryable: bool, legacyOk: bool)

  const LIMIT := 20

  function Pow2(n: nat): nat
  {
    if n == 0 then 1 else 2 * Pow2(n - 1)
  }

  /** The pause after the failed attempt number `tries` (from 0). */
  function Wait(tries: nat): nat
  {
    if 5 * Pow2(tries) < 600 then 5 * Pow2(tries) else 600
  }

  predicate Due(row: Row, now: real)
  {
    row.status == Pending && row.nextAt <= now
  }

  /** What a visit makes of a due row. */
  function Visited(row: Row, cfg: Config, d: Delivery): Row
  {
    if !cfg.gate then row.(status := if cfg.legacy != Off && d.legacyOk then Sent else Skipped)
    else if d.ok then row.(status := Sent)
    else if d.retryable && row.tries + 1 < cfg.maxTries then
      row.(tries := row.tries + 1, nextAt := d.now + Wait(row.tries) as real)
    else row.(status := if cfg.legacy != Off && d.legacyOk then Fallback else Failed, tries := row.tries + 1)
  }

  // ----- one row over a run -----

  /**
   * One pass of the loop as one row sees it: the pass selects at `at` and reaches the row at `d.now`. Passes whose
   * twenty places went to other rows are not listed.
   */
  datatype Pass = Pass(at: real, cfg: Config, d: Delivery)

  function RowAfter(row: Row, passes: seq<Pass>): Row
  {
    if passes == [] then row
    else
      var r, p := RowAfter(row, passes[..|passes| - 1]), passes[|passes| - 1];
      if Due(r, p.at) then Visited(r, p.cfg, p.d) else r
  }

  /** The posts to notify-gate made for the row. */
  function Posts(row: Row, passes: seq<Pass>): seq<Delivery>
  {
    if passes == [] then []
    else
      var r, p := RowAfter(row, passes[..|passes| - 1]), passes[|passes| - 1];
      Posts(row, passes[..|passes| - 1]) + if Due(r, p.at) && p.cfg.gate then [p.d] else []
  }

  predicate Steady(passes: seq<Pass>, maxTries: nat)
  {
    forall i :: 0 <= i < |passes| ==> passes[i].cfg.maxTries == maxTries && passes[i].at <= passes[i].d.now
  }

  predicate NewRow(row: Row)
  {
    row.status == Pending && row.tries == 0
  }

  /** What holds of a row and its posts at any time. */
  predicate RowOk(r: Row, posts: seq<Delivery>, maxTries: nat)
  {
    && |posts| <= maxTries
    && (r.status == Pending ==> |posts| < maxTries)
    && r.tries == (if posts != [] && posts[|posts| - 1].ok then |posts| - 1 else |posts|)
    && (r.status == Pending && posts != [] ==>
          r.nextAt == posts[|posts| - 1].now + Wait(|posts| - 1) as real)
    && (r.status == Pending ==> forall i :: 0 <= i < |posts| ==> !posts[i].ok && posts[i].retryable)
    && (r.status == Failed || r.status == Fallback ==>
          posts != [] && !posts[|posts| - 1].ok && (!posts[|posts| - 1].retryable || |posts| == maxTries))
    && (forall i :: 0 <= i < |posts| - 1 ==> !posts[i].ok && posts[i].retryable
                                             && posts[i + 1].now >= posts[i].now + Wait(i) as real)
  }

  /**
   * A row gets at most `maxTries` posts, each after the pause its number asks for; it counts those that failed, and it is
   * given up only after an error that is not retryable or after all of them.
   */
  lemma {:induction false} PostsAreBounded(row: Row, passes: seq<Pass>, maxTries: nat)
    requires NewRow(row) && maxTries > 0 && Steady(passes, maxTries)
    ensures RowOk(RowAfter(row, passes), Posts(row, passes), maxTries)
  {
    if passes != [] {
      var n := |passes| - 1;
      assert passes[n] in passes && Steady(passes[..n], maxTries);
      PostsAreBounded(row, passes[..n], maxTries);
      OnePass(RowAfter(row, passes[..n]), Posts(row, passes[..n]), passes[n], maxTries);
    }
  }

  lemma OnePass(r: Row, posts: seq<Delivery>, p: Pass, maxTries: nat)
    requires RowOk(r, posts, maxTries) && p.cfg.maxTries == maxTries > 0 && p.at <= p.d.now
    ensures RowOk(if Due(r, p.at) then Visited(r, p.cfg, p.d) else r,
                  posts + if Due(r, p.at) && p.cfg.gate then [p.d] else [], maxTries)
  {
    if Due(r, p.at) && p.cfg.gate {
      var posts' := posts + [p.d];
      assert posts'[|posts|] == p.d;
      forall i | 0 <= i < |posts'| - 1
        ensures !posts'[i].ok && posts'[i].retryable && posts'[i + 1].now >= posts'[i].now + Wait(i) as real {
        assert posts'[i] == posts[i];
      }
    } else {
      assert posts + [] == posts;
    }
  }

  /**
   * A row is posted again exactly when it is still pending, the gate is there, and the pause after its last post is over;
   * for the first post, when its time has come.
   */
  lemma PostedExactly(row: Row, passes: seq<Pass>, p: Pass, maxTries: nat)
    requires NewRow(row) && maxTries > 0 && Steady(passes, maxTries)
    ensures var posts := Posts(row, passes);
            Posts(row, passes + [p]) == posts +
              if && RowAfter(row, passes).status == Pending && p.cfg.gate
                 && p.at >= (if posts == [] then row.nextAt else posts[|posts| - 1].now + Wait(|posts| - 1) as real)
              then [p.d] else []
  {
    assert (passes + [p])[..|passes|] == passes;
    PostsAreBounded(row, passes, maxTries);
    FirstTimeStays(row, passes);
  }

  lemma {:induction false} FirstTimeStays(row: Row, passes: seq<Pass>)
    ensures Posts(row, passes) == [] && RowAfter(row, passes).status == Pending ==> RowAfter(row, passes) == row
  {
    if passes != [] {
      FirstTimeStays(row, passes[..|passes| - 1]);
    }
  }

  /** A row leaves `pending` at most once: whatever it has become, it stays, and nothing more is posted for it. */
  lemma {:induction false} DecidedIsFinal(row: Row, passes: seq<Pass>, more: seq<Pass>)
    requires RowAfter(row, passes).status != Pending
    ensures RowAfter(row, passes + more) == RowAfter(row, passes)
    ensures Posts(row, passes + more) == Posts(row, passes)
  {
    if more == [] {
      assert passes + more == passes;
    } else {
      var n := |more| - 1;
      DecidedIsFinal(row, passes, more[..n]);
      assert (passes + more)[..|passes + more| - 1] == passes + more[..n];
    }
  }

  predicate LegacyDelivers(p: Pass)
  {
    p.cfg.legacy != Off && p.d.legacyOk
  }

  /** A decided row tells what happened in the pass that decided it. */
  lemma {:induction false} StatusTellsWhatHappened(row: Row, passes: seq<Pass>) returns (k: nat)
    requires row.status == Pending && RowAfter(row, passes).status != Pending
    ensures k < |passes| && Due(RowAfter(row, passes[..k]), passes[k].at)
    ensures var status, p := RowAfter(row, passes).status, passes[k];
            && (status == Sent <==> if p.cfg.gate then p.d.ok else LegacyDelivers(p))
            && (status == Skipped <==> !p.cfg.gate && !LegacyDelivers(p))
            && (status == Fallback <==> p.cfg.gate && !p.d.ok && LegacyDelivers(p))
            && (status == Failed <==> p.cfg.gate && !p.d.ok && !LegacyDelivers(p))
  {
    var n := |passes| - 1;
    if RowAfter(row, passes[..n]).status != Pending {
      k := StatusTellsWhatHappened(row, passes[..n]);
      assert passes[..n][..k] == passes[..k];
    } else {
      k := n;
    }
  }

  // ----- the pauses -----

  function TotalWait(n: nat): nat
  {
    if n == 0 then 0 else TotalWait(n - 1) + Wait(n - 1)
  }

  lemma {:induction false} Pow2Large(n: nat)
    requires n >= 7
    ensures Pow2(n) >= 128
  {
    if n == 7 {
      assert Pow2(4) == 16;
      assert Pow2(7) == 128;
    } else {
      Pow2Large(n - 1);
    }
  }

  lemma {:induction false} Pow2Small(n: nat)
    requires n <= 6
    ensures Pow2(n) <= 64
    decreases 6 - n
  {
    if n < 6 {
      assert Pow2(n) <= Pow2(n + 1);
      Pow2Small(n + 1);
    } else {
      assert Pow2(3) == 8;
    }
  }

  /** The pauses double up to ten minutes: the first `n` sum to 5(2^n - 1), from the eighth on to 600 s each. */
  lemma {:induction false} WaitsSum(n: nat)
    ensures n <= 7 ==> TotalWait(n) == 5 * (Pow2(n) - 1)
    ensures n >= 7 ==> TotalWait(n) == 635 + 600 * (n - 7)
  {
    if n > 0 {
      WaitsSum(n - 1);
      if n <= 7 {
        Pow2Small(n - 1);
        if n == 7 {
          assert Pow2(4) == 16 && Pow2(7) == 128;
        }
      } else {
        Pow2Large(n - 1);
      }
    }
  }

  lemma WaitsNeverShrink(n: nat)
    ensures Wait(n) <= Wait(n + 1) <= 600
  {
  }

  /** No post of a row comes earlier than the sum of the pauses after its first. */
  lemma {:induction false} PostsAreApart(row: Row, passes: seq<Pass>, maxTries: nat, i: nat)
    requires NewRow(row) && maxTries > 0 && Steady(passes, maxTries) && i < |Posts(row, passes)|
    ensures Posts(row, passes)[i].now >= Posts(row, passes)[0].now + TotalWait(i) as real
  {
    PostsAreBounded(row, passes, maxTries);
    if i > 0 {
      PostsAreApart(row, passes, maxTries, i - 1);
    }
  }

  // ----- the table -----

  /** How many due rows stand before row `i`. */
  function DueBefore(rows: seq<Row>, now: real, i: nat): nat
    requires i <= |rows|
  {
    if i == 0 then 0 else DueBefore(rows, now, i - 1) + if Due(rows[i - 1], now) then 1 else 0
  }

  /** The pass takes the first twenty due rows in id order. */
  predicate Selected(rows: seq<Row>, now: real, i: nat)
    requires i < |rows|
  {
    Due(rows[i], now) && DueBefore(rows, now, i) < LIMIT
  }

  class Table {
    var rows: seq<Row>

    predicate Valid()
      reads this
    {
      forall i, j :: 0 <= i < j < |rows| ==> rows[i].id < rows[j].id
    }

    constructor ()
      ensures Valid() && rows == []
    {
      rows := [];
    }

    method Insert(id: nat, now: real)
      requires Valid() && forall i :: 0 <= i < |rows| ==> rows[i].id < id
      modifies this
      ensures Valid() && rows == old(rows) + [Row(id, Pending, 0, now)] && NewRow(rows[|rows| - 1])
    {
      rows := rows + [Row(id, Pending, 0, now)];
    }

    method Select(now: real) returns (picked: seq<nat>)
      ensures forall p :: 0 <= p < |picked| ==> picked[p] < |rows| && Selected(rows, now, picked[p])
      ensures forall p, q :: 0 <= p < q < |picked| ==> picked[p] < picked[q]
      ensures forall i :: 0 <= i < |rows| && Selected(rows, now, i) ==> i in picked
      ensures forall i :: 0 <= i < |rows| ==>
                (i in picked <==> rows[i].status == Pending && rows[i].nextAt <= now && DueBefore(rows, now, i) < 20)
      ensures |picked| <= 20
    {
      picked := [];
      var i := 0;
      while i < |rows| && |picked| < LIMIT
        invariant 0 <= i <= |rows| && |picked| == DueBefore(rows, now, i) <= LIMIT
        invariant forall p :: 0 <= p < |picked| ==> picked[p] < i && Selected(rows, now, picked[p])
        invariant forall p, q :: 0 <= p < q < |picked| ==> picked[p] < picked[q]
        invariant forall k :: 0 <= k < i && Selected(rows, now, k) ==> k in picked
      {
        if Due(rows[i], now) {
          picked := picked + [i];
        }
        i := i + 1;
      }
      forall k | i <= k < |rows| ensures !Selected(rows, now, k) {
        DueBeforeGrows(rows, now, i, k);
      }
    }

    /** One pass of `_deliver`: each selected row is visited once, every other row stays. */
    method Deliver(cfg: Config, now: real, ds: seq<Delivery>)
      requires Valid() && |ds| == |rows|
      modifies this
      ensures Valid() && |rows| == |old(rows)|
      ensures forall i :: 0 <= i < |rows| ==>
                rows[i] == if Selected(old(rows), now, i) then Visited(old(rows)[i], cfg, ds[i]) else old(rows)[i]
    {
      var picked := Select(now);
      var p := 0;
      while p < |picked|
        invariant 0 <= p <= |picked| && |rows| == |old(rows)|
        invariant forall i :: 0 <= i < |rows| ==>
                    rows[i] == if i in picked[..p] then Visited(old(rows)[i], cfg, ds[i]) else old(rows)[i]
      {
        var i := picked[p];
        var r, d := rows[i], ds[i];
        assert i !in picked[..p];
        if !cfg.gate {
          var ok := cfg.legacy != Off && d.legacyOk;
          r := r.(status := if ok then Sent else Skipped);
        } else if d.ok {
          r := r.(status := Sent);
        } else if d.retryable && r.tries + 1 < cfg.maxTries {
          r := r.(tries := r.tries + 1, nextAt := d.now + Wait(r.tries) as real);
        } else {
          var fb := cfg.legacy != Off && d.legacyOk;
          r := r.(status := if fb then Fallback else Failed, tries := r.tries + 1);
        }
        assert r == Visited(old(rows)[i], cfg, d);
        rows := rows[i := r];
        assert picked[..p + 1] == picked[..p] + [i];
        p := p + 1;
      }
      assert picked[..p] == picked;
    }
  }

  lemma {:induction false} DueBeforeGrows(rows: seq<Row>, now: real, i: nat, k: nat)
    requires i <= k <= |rows|
    ensures DueBefore(rows, now, i) <= DueBefore(rows, now, k)
  {
    if i < k {
      DueBeforeGrows(rows, now, i, k - 1);
    }
  }
}
