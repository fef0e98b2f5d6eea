/**
 * The approval queue and its events as values (app/storage.py, app/app_state.py), and the synchronous stretches of
 * the coroutines that use them (app/main.py, app/tasks.py, app/mcp_transport.py).
 */
module Approvals {
  import opened Options
  import opened Registry
  import opened CommandSets
  import opened Executor

  /** An approval id. */
  type Aid = nat

  datatype Status = Pending | Approved | Rejected

  /** The `auto_resolved` mark the expiry sweep leaves. */
  datatype Auto = TimeoutApprove | TimeoutReject

  /** The stored result of an execution. */
  datatype Outcome = Outcome(status: string, output: string, error: string)

  datatype Item = Item(aid: Aid, draft: Draft, createdAt: real, status: Status, auto: Option<Auto>,
                       result: Option<Outcome>)

  /** The shared state: the queue, the registered events and the events already set. */
  datatype Shared = Shared(queue: map<Aid, Item>, events: set<Aid>, fired: set<Aid>)

  // ----- storage functions -----

  predicate IsPending(sh: Shared, aid: Aid)
  {
    aid in sh.queue && sh.queue[aid].status == Pending
  }

  function NewItem(aid: Aid, draft: Draft, now: real): Item
  {
    Item(aid, draft, now, Pending, None, None)
  }

  function Added(sh: Shared, it: Item): Shared
  {
    sh.(queue := sh.queue[it.aid := it])
  }

  /** `update_queue_status`: the status is written whatever it was. */
  function WithStatus(sh: Shared, aid: Aid, status: Status): Shared
  {
    if aid in sh.queue then sh.(queue := sh.queue[aid := sh.queue[aid].(status := status)]) else sh
  }

  /** `resolve_approval`: only a pending item is decided. */
  function Resolved(sh: Shared, aid: Aid, decision: Status): Shared
  {
    if IsPending(sh, aid) then WithStatus(sh, aid, decision) else sh
  }

  function WithResult(sh: Shared, aid: Aid, outcome: Outcome): Shared
  {
    if aid in sh.queue then sh.(queue := sh.queue[aid := sh.queue[aid].(result := Some(outcome))]) else sh
  }

  predicate Expired(it: Item, now: real)
  {
    it.status == Pending && it.draft.mode != Strict && now - it.createdAt > it.draft.timeout
  }

  /** What `cleanup_expired` turns an expired item into. */
  function Lapsed(it: Item): Item
  {
    if it.draft.mode == Optimistic
    then it.(status := Approved, auto := Some(TimeoutApprove))
    else it.(status := Rejected, auto := Some(TimeoutReject))
  }

  function Swept(it: Item, now: real): Item
  {
    if Expired(it, now) then Lapsed(it) else it
  }

  function CleanedUp(sh: Shared, now: real): Shared
  {
    sh.(queue := map a | a in sh.queue :: Swept(sh.queue[a], now))
  }

  // ----- events -----

  function Registered(sh: Shared, aid: Aid): Shared
  {
    sh.(events := sh.events + {aid})
  }

  function Unregistered(sh: Shared, aid: Aid): Shared
  {
    sh.(events := sh.events - {aid})
  }

  /** `signal_approval`: a registered event is taken out and set; without one nothing happens. */
  function Signalled(sh: Shared, aid: Aid): Shared
  {
    if aid in sh.events then sh.(events := sh.events - {aid}, fired := sh.fired + {aid}) else sh
  }

  // ----- coroutine stretches -----

  /** What `api_approve` goes on to do after its first stretch. */
  datatype ApproveNext = Refused | Run(it: Item) | NotFound

  /** `api_approve` up to its first await: an inactive agent's request is rejected instead. */
  function ApproveStretch(sh: Shared, env: Env, now: real, aid: Aid): (Shared, ApproveNext)
  {
    if IsPending(sh, aid) && !AgentMayAct(env, now, sh.queue[aid].draft.agentId) then
      (Signalled(Resolved(sh, aid, Rejected), aid), Refused)
    else if IsPending(sh, aid) then
      (Resolved(sh, aid, Approved), Run(Resolved(sh, aid, Approved).queue[aid]))
    else
      (sh, NotFound)
  }

  /** `api_approve` after the execution: store the result, wake the waiter. */
  function StoreStretch(sh: Shared, aid: Aid, outcome: Outcome): Shared
  {
    Signalled(WithResult(sh, aid, outcome), aid)
  }

  function RejectStretch(sh: Shared, aid: Aid): Shared
  {
    if IsPending(sh, aid) then Signalled(Resolved(sh, aid, Rejected), aid) else sh
  }

  /** The sweep's re-check of an auto-approved item before it runs. */
  predicate RecheckOk(env: Env, now: real, it: Item)
  {
    && it.draft.hostId in env.hosts
    && Authorized(env.sets, env.hosts[it.draft.hostId], Acting(env, it.draft.agentId), it.draft.command)
    && AgentMayAct(env, now, it.draft.agentId)
  }

  /** What the sweep does next with an item. */
  datatype TakeNext = Execute | SignalOnly

  /** The sweep on one item, from taking it to its next await. */
  function TakeStretch(sh: Shared, env: Env, now: real, it: Item): (Shared, TakeNext)
  {
    if it.auto == Some(TimeoutApprove) then
      if it.draft.hostId !in env.hosts then (sh, SignalOnly)
      else if RecheckOk(env, now, it) then (sh, TakeNext.Execute)
      else (WithStatus(sh, it.aid, Rejected), SignalOnly)
    else if it.auto == Some(TimeoutReject) then (WithStatus(sh, it.aid, Rejected), SignalOnly)
    else (sh, SignalOnly)
  }

  function SweepStoreStretch(sh: Shared, aid: Aid, outcome: Outcome): Shared
  {
    WithResult(WithStatus(sh, aid, Approved), aid, outcome)
  }

  /** What the waiter tells its client. */
  datatype Answer =
    | Result(outcome: Outcome, automatic: bool)
    | StillExecuting
    | RejectedByTimeout
    | RejectedByOperator
    | StillPending
    | Unknown

  function AnswerFor(sh: Shared, aid: Aid): Answer
  {
    if aid !in sh.queue then Unknown
    else
      var it := sh.queue[aid];
      match it.status
      case Approved =>
        if it.result.Some? then Answer.Result(it.result.value, it.auto == Some(TimeoutApprove)) else StillExecuting
      case Rejected => if it.auto == Some(TimeoutReject) then RejectedByTimeout else RejectedByOperator
      case Pending => StillPending
  }

  /** `_wait_result` up to its await: register, and go to sleep only on a pending item. */
  function WaitStretch(sh: Shared, aid: Aid): (Shared, Option<Answer>)
  {
    var registered := Registered(sh, aid);
    if IsPending(sh, aid) then (registered, None) else (Unregistered(registered, aid), Some(AnswerFor(sh, aid)))
  }

  /** `_wait_result` after its await, woken or timed out. */
  function WakeStretch(sh: Shared, aid: Aid): (Shared, Answer)
  {
    (Unregistered(sh, aid), AnswerFor(sh, aid))
  }
}
