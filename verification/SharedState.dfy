/**
 * The gate's mutable state and the code that changes it in place: the queue list with its update loops
 * (app/storage.py), the event registry (app/app_state.py), and the coroutine stretches of app/main.py, app/tasks.py
 * and app/mcp_transport.py between two awaits. Every method is proved against the value functions of Approvals.
 */
module SharedState {
  import opened Options
  import opened Registry
  import opened CommandSets
  import opened Executor
  import opened Approvals
  import opened Protocol

  predicate DistinctIds(q: seq<Item>)
  {
    forall i, j :: 0 <= i < j < |q| ==> q[i].aid != q[j].aid
  }

  /** The queue list as a map from approval ids. */
  function ById(q: seq<Item>): map<Aid, Item>
  {
    if q == [] then map[] else ById(q[..|q| - 1])[q[|q| - 1].aid := q[|q| - 1]]
  }

  /** The items `cleanup_expired` decides, in queue order and as it leaves them. */
  function LapsedIn(q: seq<Item>, now: real): seq<Item>
  {
    if q == [] then []
    else LapsedIn(q[..|q| - 1], now) + if Expired(q[|q| - 1], now) then [Lapsed(q[|q| - 1])] else []
  }

  function SweptAll(q: seq<Item>, now: real): (r: seq<Item>)
    ensures |r| == |q| && forall i :: 0 <= i < |q| ==> r[i] == Swept(q[i], now)
  {
    seq(|q|, i requires 0 <= i < |q| => Swept(q[i], now))
  }

  lemma {:induction false} ByIdAt(q: seq<Item>, k: nat)
    requires DistinctIds(q) && k < |q|
    ensures q[k].aid in ById(q) && ById(q)[q[k].aid] == q[k]
  {
    if k < |q| - 1 {
      ByIdAt(q[..|q| - 1], k);
    }
  }

  lemma {:induction false} ByIdOnly(q: seq<Item>, aid: Aid)
    requires forall i :: 0 <= i < |q| ==> q[i].aid != aid
    ensures aid !in ById(q)
  {
    if q != [] {
      ByIdOnly(q[..|q| - 1], aid);
    }
  }

  lemma {:induction false} ByIdUpdate(q: seq<Item>, k: nat, it: Item)
    requires DistinctIds(q) && k < |q| && it.aid == q[k].aid
    ensures DistinctIds(q[k := it]) && ById(q[k := it]) == ById(q)[it.aid := it]
  {
    var n := |q| - 1;
    if k < n {
      ByIdUpdate(q[..n], k, it);
      assert q[k := it][..n] == q[..n][k := it];
    } else {
      assert q[k := it][..n] == q[..n];
    }
  }

  lemma {:induction false} ByIdSwept(q: seq<Item>, now: real)
    ensures ById(SweptAll(q, now)) == map a | a in ById(q) :: Swept(ById(q)[a], now)
  {
    if q != [] {
      var n := |q| - 1;
      ByIdSwept(q[..n], now);
      assert SweptAll(q, now)[..n] == SweptAll(q[..n], now);
    }
  }

  lemma LapsedInNext(q: seq<Item>, k: nat, now: real)
    requires k < |q|
    ensures LapsedIn(q[..k + 1], now) == LapsedIn(q[..k], now) + if Expired(q[k], now) then [Lapsed(q[k])] else []
  {
    assert q[..k + 1][..k] == q[..k];
  }

  lemma {:induction false} LapsedInFrom(q: seq<Item>, now: real, i: nat) returns (k: nat)
    requires i < |LapsedIn(q, now)|
    ensures k < |q| && Expired(q[k], now) && LapsedIn(q, now)[i] == Lapsed(q[k])
  {
    var n := |q| - 1;
    if i < |LapsedIn(q[..n], now)| {
      k := LapsedInFrom(q[..n], now, i);
    } else {
      k := n;
    }
  }

  lemma {:induction false} LapsedInHas(q: seq<Item>, now: real, k: nat)
    requires k < |q| && Expired(q[k], now)
    ensures Lapsed(q[k]) in LapsedIn(q, now)
  {
    if k < |q| - 1 {
      LapsedInHas(q[..|q| - 1], now, k);
    }
  }

  lemma {:induction false} LapsedInDistinct(q: seq<Item>, now: real)
    requires DistinctIds(q)
    ensures DistinctIds(LapsedIn(q, now))
  {
    if q != [] {
      var n := |q| - 1;
      var b := LapsedIn(q[..n], now);
      LapsedInDistinct(q[..n], now);
      forall i | 0 <= i < |b| ensures b[i].aid != q[n].aid {
        var k := LapsedInFrom(q[..n], now, i);
      }
    }
  }

  function Ids(q: seq<Item>): seq<Aid>
  {
    seq(|q|, i requires 0 <= i < |q| => q[i].aid)
  }

  lemma {:induction false} ByIdFrom(q: seq<Item>, aid: Aid)
    requires aid in ById(q)
    ensures exists k :: 0 <= k < |q| && q[k].aid == aid && q[k] == ById(q)[aid]
  {
    var n := |q| - 1;
    if q[n].aid != aid {
      ByIdFrom(q[..n], aid);
      var k :| 0 <= k < n && q[..n][k].aid == aid && q[..n][k] == ById(q[..n])[aid];
      assert q[k] == ById(q)[aid];
    } else {
      assert q[n] == ById(q)[aid];
    }
  }

  lemma BatchAt(s: State, q: seq<Item>, i: nat)
    requires DistinctIds(q) && ById(q) == s.sh.queue && i < |LapsedIn(q, s.now)|
    ensures var b := LapsedIn(q, s.now)[i];
            b.aid in s.sh.queue && Expired(s.sh.queue[b.aid], s.now) && Lapsed(s.sh.queue[b.aid]) == b
  {
    var k := LapsedInFrom(q, s.now, i);
    ByIdAt(q, k);
  }

  lemma BatchHas(s: State, q: seq<Item>, a: Aid)
    requires DistinctIds(q) && ById(q) == s.sh.queue && a in s.sh.queue && Expired(s.sh.queue[a], s.now)
    ensures a in Ids(LapsedIn(q, s.now))
  {
    ByIdFrom(q, a);
    var k :| 0 <= k < |q| && q[k].aid == a && q[k] == ById(q)[a];
    LapsedInHas(q, s.now, k);
    var batch := LapsedIn(q, s.now);
    var i :| 0 <= i < |batch| && batch[i] == Lapsed(q[k]);
    assert Ids(batch)[i] == a;
  }

  /** What `CleanupExpired` returns is the batch of the protocol's sweep, and its write is the sweep's first step. */
  lemma CleanupIsSweepBegin(s: State, q: seq<Item>)
    requires DistinctIds(q) && ById(q) == s.sh.queue && s.sweep.Idle?
    ensures var batch := LapsedIn(q, s.now);
            && ListsExpired(s, Ids(batch))
            && DoSweepBegin(s, Ids(batch)).sh == CleanedUp(s.sh, s.now)
            && DoSweepBegin(s, Ids(batch)).sweep == if batch == [] then Idle else Walking(batch, 0, Take)
  {
    var batch := LapsedIn(q, s.now);
    LapsedInDistinct(q, s.now);
    forall i | 0 <= i < |batch|
      ensures batch[i].aid in s.sh.queue && Expired(s.sh.queue[batch[i].aid], s.now)
      ensures CleanedUp(s.sh, s.now).queue[batch[i].aid] == batch[i] {
      BatchAt(s, q, i);
    }
    forall a | a in s.sh.queue && Expired(s.sh.queue[a], s.now) ensures a in Ids(batch) {
      BatchHas(s, q, a);
    }
    if batch != [] {
      assert DoSweepBegin(s, Ids(batch)).sweep.batch == batch;
    }
  }

  lemma {:induction false} NothingLapsed(q: seq<Item>, now: real)
    requires LapsedIn(q, now) == []
    ensures SweptAll(q, now) == q
  {
    if q != [] {
      var n := |q| - 1;
      NothingLapsed(q[..n], now);
      assert forall i :: 0 <= i < n ==> SweptAll(q[..n], now)[i] == q[..n][i];
      assert !Expired(q[n], now);
    }
  }

  /** One pass over the loaded list: expired items are changed where they stand and collected. */
  method DecideExpired(q: seq<Item>, now: real) returns (swept: seq<Item>, expired: seq<Item>)
    ensures swept == SweptAll(q, now) && expired == LapsedIn(q, now)
  {
    swept, expired := q, [];
    var k := 0;
    while k < |q|
      invariant 0 <= k <= |q| == |swept|
      invariant forall i :: 0 <= i < k ==> swept[i] == Swept(q[i], now)
      invariant forall i :: k <= i < |q| ==> swept[i] == q[i]
      invariant expired == LapsedIn(q[..k], now)
    {
      var it := swept[k];
      if it.status == Pending && it.draft.mode != Strict && now - it.createdAt > it.draft.timeout {
        var auto := if it.draft.mode == Optimistic then TimeoutApprove else TimeoutReject;
        it := it.(status := if auto == TimeoutApprove then Approved else Status.Rejected, auto := Some(auto));
        swept := swept[k := it];
        expired := expired + [it];
      }
      LapsedInNext(q, k, now);
      k := k + 1;
    }
    assert q[..k] == q;
  }

  class Gate {
    var queue: seq<Item>
    var events: set<Aid>
    var fired: set<Aid>

    ghost predicate Valid()
      reads this
    {
      DistinctIds(queue)
    }

    ghost function View(): Shared
      reads this
      requires Valid()
    {
      Shared(ById(queue), events, fired)
    }

    constructor ()
      ensures Valid() && View() == Shared(map[], {}, {})
    {
      queue, events, fired := [], {}, {};
    }

    // ----- app/storage.py -----

    /** The first index with the id, or the length of the list. */
    method Position(aid: Aid) returns (k: nat)
      requires Valid()
      ensures k <= |queue|
      ensures k < |queue| ==> queue[k].aid == aid && aid in ById(queue) && ById(queue)[aid] == queue[k]
      ensures k == |queue| <==> aid !in ById(queue)
    {
      k := 0;
      while k < |queue| && queue[k].aid != aid
        invariant k <= |queue| && forall i :: 0 <= i < k ==> queue[i].aid != aid
      {
        k := k + 1;
      }
      if k < |queue| {
        ByIdAt(queue, k);
      } else {
        ByIdOnly(queue, aid);
      }
    }

    method AddToQueue(aid: Aid, draft: Draft, now: real)
      requires Valid() && aid !in View().queue
      modifies this`queue
      ensures Valid() && View() == Added(old(View()), NewItem(aid, draft, now))
      ensures queue == old(queue) + [NewItem(aid, draft, now)]
    {
      var it := NewItem(aid, draft, now);
      forall i | 0 <= i < |queue| ensures queue[i].aid != aid {
        ByIdAt(queue, i);
      }
      assert (queue + [it])[..|queue|] == queue;
      queue := queue + [it];
    }

    method GetQueueItem(aid: Aid) returns (it: Option<Item>)
      requires Valid()
      ensures it == if aid in View().queue then Some(View().queue[aid]) else None
    {
      var k := Position(aid);
      it := if k < |queue| then Some(queue[k]) else None;
    }

    method ResolveApproval(aid: Aid, decision: Status) returns (it: Option<Item>)
      requires Valid()
      modifies this`queue
      ensures Valid() && View() == Resolved(old(View()), aid, decision)
      ensures it == if old(IsPending(View(), aid)) then Some(View().queue[aid]) else None
    {
      it := None;
      var k := Position(aid);
      if k < |queue| && queue[k].status == Pending {
        var changed := queue[k].(status := decision);
        ByIdUpdate(queue, k, changed);
        queue := queue[k := changed];
        it := Some(changed);
      }
    }

    method SetQueueResult(aid: Aid, outcome: Outcome) returns (found: bool)
      requires Valid()
      modifies this`queue
      ensures Valid() && View() == WithResult(old(View()), aid, outcome)
      ensures found <==> aid in old(View()).queue
    {
      var k := Position(aid);
      found := k < |queue|;
      if found {
        ByIdUpdate(queue, k, queue[k].(result := Some(outcome)));
        queue := queue[k := queue[k].(result := Some(outcome))];
      }
    }

    method UpdateQueueStatus(aid: Aid, status: Status) returns (found: bool)
      requires Valid()
      modifies this`queue
      ensures Valid() && View() == WithStatus(old(View()), aid, status)
      ensures found <==> aid in old(View()).queue
    {
      var k := Position(aid);
      found := k < |queue|;
      if found {
        ByIdUpdate(queue, k, queue[k].(status := status));
        queue := queue[k := queue[k].(status := status)];
      }
    }

    /** The expiry sweep's write. */
    method CleanupExpired(now: real) returns (expired: seq<Item>)
      requires Valid()
      modifies this`queue
      ensures Valid() && View() == CleanedUp(old(View()), now)
      ensures expired == LapsedIn(old(queue), now)
    {
      ByIdSwept(queue, now);
      var swept;
      swept, expired := DecideExpired(queue, now);
      if expired != [] {
        queue := swept;
      } else {
        NothingLapsed(queue, now);
      }
    }

    // ----- app/app_state.py -----

    method CreateApprovalEvent(aid: Aid)
      modifies this`events
      ensures events == old(events) + {aid}
    {
      events := events + {aid};
    }

    method PopApprovalEvent(aid: Aid) returns (found: bool)
      modifies this`events
      ensures events == old(events) - {aid} && found == (aid in old(events))
    {
      found := aid in events;
      events := events - {aid};
    }

    method SignalApproval(aid: Aid)
      requires Valid()
      modifies this`events, this`fired
      ensures Valid() && View() == Signalled(old(View()), aid)
    {
      var found := PopApprovalEvent(aid);
      if found {
        fired := fired + {aid};
      }
    }

    // ----- app/main.py -----

    /** `api_approve` up to its first await. */
    method Approve(env: Env, now: real, aid: Aid) returns (next: ApproveNext)
      requires Valid()
      modifies this
      ensures Valid() && (View(), next) == ApproveStretch(old(View()), env, now, aid)
    {
      var q := GetQueueItem(aid);
      if q.Some? && q.value.status == Pending && !AgentMayAct(env, now, q.value.draft.agentId) {
        var _ := ResolveApproval(aid, Status.Rejected);
        SignalApproval(aid);
        return Refused;
      }
      var it := ResolveApproval(aid, Approved);
      next := if it.Some? then ApproveNext.Run(it.value) else NotFound;
    }

    /** `api_approve` after the thread has returned. */
    method StoreAndWake(aid: Aid, outcome: Outcome)
      requires Valid()
      modifies this
      ensures Valid() && View() == StoreStretch(old(View()), aid, outcome)
    {
      var _ := SetQueueResult(aid, outcome);
      SignalApproval(aid);
    }

    method Reject(aid: Aid) returns (found: bool)
      requires Valid()
      modifies this
      ensures Valid() && View() == RejectStretch(old(View()), aid)
      ensures found == old(IsPending(View(), aid))
    {
      var it := ResolveApproval(aid, Status.Rejected);
      found := it.Some?;
      if found {
        SignalApproval(aid);
      }
    }

    // ----- app/tasks.py -----

    /** The body of `approval_loop` for one item, up to its next await. */
    method TakeExpired(env: Env, now: real, it: Item) returns (next: TakeNext)
      requires Valid()
      modifies this`queue
      ensures Valid() && (View(), next) == TakeStretch(old(View()), env, now, it)
    {
      next := SignalOnly;
      if it.auto == Some(TimeoutApprove) {
        if it.draft.hostId in env.hosts {
          var agent := Acting(env, it.draft.agentId);
          var verdict := CheckCommandAuthorized(env.sets, env.hosts[it.draft.hostId], agent, it.draft.command);
          var ok := verdict.Allowed?;
          if ok && it.draft.agentId != "" && it.draft.agentId != GLOBAL
             && !(agent.Some? && ActiveAt(agent.value, now)) {
            ok := false;
          }
          if ok {
            next := TakeNext.Execute;
          } else {
            var _ := UpdateQueueStatus(it.aid, Status.Rejected);
          }
        }
      } else if it.auto == Some(TimeoutReject) {
        var _ := UpdateQueueStatus(it.aid, Status.Rejected);
      }
    }

    /** `approval_loop` after the thread has returned. */
    method StoreExpired(aid: Aid, outcome: Outcome)
      requires Valid()
      modifies this`queue
      ensures Valid() && View() == SweepStoreStretch(old(View()), aid, outcome)
    {
      var _ := UpdateQueueStatus(aid, Approved);
      var _ := SetQueueResult(aid, outcome);
    }

    // ----- app/mcp_transport.py -----

    /** `_wait_result` up to its await; no answer yet means it goes to sleep. */
    method StartWaiting(aid: Aid) returns (answer: Option<Answer>)
      requires Valid()
      modifies this`events
      ensures Valid() && (View(), answer) == WaitStretch(old(View()), aid)
    {
      CreateApprovalEvent(aid);
      var item := GetQueueItem(aid);
      if item.Some? && item.value.status == Pending {
        return None;
      }
      var a := StopWaiting(aid);
      answer := Some(a);
    }

    /** `_wait_result` after its await. */
    method StopWaiting(aid: Aid) returns (answer: Answer)
      requires Valid()
      modifies this`events
      ensures Valid() && (View(), answer) == WakeStretch(old(View()), aid)
    {
      var _ := PopApprovalEvent(aid);
      var item := GetQueueItem(aid);
      if item.None? {
        return Unknown;
      }
      var it := item.value;
      match it.status
      case Approved =>
        answer := if it.result.Some? then Answer.Result(it.result.value, it.auto == Some(TimeoutApprove))
                  else StillExecuting;
      case Rejected =>
        answer := if it.auto == Some(TimeoutReject) then RejectedByTimeout else RejectedByOperator;
      case Pending =>
        answer := StillPending;
    }
  }
}
