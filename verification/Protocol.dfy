/**
 * The approval protocol as an interleaved step system: submitters, waiters, operators, the expiry sweep and the
 * threads that execute, each advancing by the stretch between two real awaits. Between the awaits of the sweep no other
 * coroutine gets the event loop; only the clock and the threads go on.
 */
module Protocol {
  import opened Options
  import opened Executor
  import opened Approvals

  /** What a decision was based on: the registries and the clock it read, and the item as it was just before. */
  datatype Why = Why(env: Env, now: real, before: Item)

  datatype Waiter = Starting | Asleep | Answered(answer: Answer, woken: bool) | Cancelled

  datatype Approver = Running(it: Item, why: Why) | Returned(outcome: Outcome)

  datatype SweepPoint = Take | Executing(why: Why) | Ran(outcome: Outcome) | ToSignal

  datatype Sweep = Idle | Walking(batch: seq<Item>, pos: nat, point: SweepPoint)

  datatype Decider = Operator | Timeout

  /** One call of `run_queued`, with the registries it read. */
  datatype Run = Run(it: Item, decider: Decider, why: Why, env: Env, action: Action, outcome: Outcome)

  /** A submission with the pipeline's verdict on it. */
  datatype Submission = Submission(env: Env, now: real, req: Request, verdict: Admission)

  /**
   * The shared state, every coroutine's own state, and ghost history: who submitted what, the log of executions,
   * the items an aborted sweep dropped and those it skipped because their host was gone.
   */
  datatype State = State(now: real, env: Env, sh: Shared, waiters: map<Aid, Waiter>,
                         approvers: map<Aid, Approver>, sweep: Sweep,
                         submissions: map<Aid, Submission>, log: seq<Run>, dropped: set<Aid>, skipped: set<Aid>)

  function Start(env: Env, now: real): State
  {
    State(now, env, Shared(map[], {}, {}), map[], map[], Idle, map[], [], {}, {})
  }

  datatype Step =
    | Tick(t: real)
    | Configure(env: Env)
    | Submit(aid: Aid, req: Request, waited: bool)
    | WaiterStart(aid: Aid)
    | WaiterEnd(aid: Aid)
    | WaiterCancel(aid: Aid)
    | Approve(aid: Aid)
    | ApproverRun(aid: Aid, outcome: Outcome)
    | ApproverStore(aid: Aid)
    | Reject(aid: Aid)
    | SweepBegin(order: seq<Aid>)
    | SweepTake
    | SweepRun(outcome: Outcome)
    | SweepStore
    | SweepSignal
    | SweepAbort

  /** The list `cleanup_expired` walks: every expired item once, in some queue order. */
  predicate ListsExpired(s: State, order: seq<Aid>)
  {
    && Distinct(order)
    && (forall i :: 0 <= i < |order| ==> order[i] in s.sh.queue && Expired(s.sh.queue[order[i]], s.now))
    && (forall a :: a in s.sh.queue && Expired(s.sh.queue[a], s.now) ==> a in order)
  }

  predicate At(s: State)
  {
    s.sweep.Walking? && s.sweep.pos < |s.sweep.batch|
  }

  /**
   * The sweep has the event loop: it is about to take its next item, or it has just passed over one whose host is gone.
   * There is no await from the write of `cleanup_expired` or from a signal to the end of the next re-check.
   */
  predicate Underway(s: State)
  {
    At(s) && (s.sweep.point.Take? || (s.sweep.point.ToSignal? && s.sweep.batch[s.sweep.pos].aid in s.skipped))
  }

  /** What can happen while the sweep has the event loop: its own next stretch, an exception, the clock, a thread. */
  predicate GoesOnMeanwhile(st: Step)
  {
    st.SweepTake? || st.SweepSignal? || st.SweepAbort? || st.Tick? || st.ApproverRun?
  }

  ghost predicate Enabled(s: State, st: Step)
  {
    (Underway(s) ==> GoesOnMeanwhile(st)) &&
    match st
    case Tick(t) => s.now <= t
    case Configure(_) => true
    case Submit(aid, req, _) => aid !in s.sh.queue && Admit(s.env, s.now, req).Enqueue?
    case WaiterStart(aid) => aid in s.waiters && s.waiters[aid].Starting?
    case WaiterEnd(aid) => aid in s.waiters && s.waiters[aid].Asleep?
    case WaiterCancel(aid) => aid in s.waiters && (s.waiters[aid].Starting? || s.waiters[aid].Asleep?)
    case Approve(_) => true
    case ApproverRun(aid, _) => aid in s.approvers && s.approvers[aid].Running?
    case ApproverStore(aid) => aid in s.approvers && s.approvers[aid].Returned?
    case Reject(_) => true
    case SweepBegin(order) => s.sweep.Idle? && ListsExpired(s, order)
    case SweepTake => At(s) && s.sweep.point.Take?
    case SweepRun(_) => At(s) && s.sweep.point.Executing?
    case SweepStore => At(s) && s.sweep.point.Ran?
    case SweepSignal => At(s) && s.sweep.point.ToSignal?
    case SweepAbort => At(s)
  }

  function Current(s: State): Item
    requires At(s)
  {
    s.sweep.batch[s.sweep.pos]
  }

  function RunOf(s: State, it: Item, decider: Decider, why: Why, outcome: Outcome): Run
  {
    Run.Run(it, decider, why, s.env, QueuedAction(s.env, it.draft.hostId, it.draft.resolved, it.draft.task), outcome)
  }

  function Rest(s: State): set<Aid>
    requires s.sweep.Walking?
  {
    set k | s.sweep.pos <= k < |s.sweep.batch| :: s.sweep.batch[k].aid
  }

  ghost function DoSubmit(s: State, aid: Aid, req: Request, waited: bool): State
    requires Enabled(s, Submit(aid, req, waited))
  {
    s.(sh := Added(s.sh, NewItem(aid, Admit(s.env, s.now, req).draft, s.now)),
       waiters := if waited then s.waiters[aid := Starting] else s.waiters,
       submissions := s.submissions[aid := Submission(s.env, s.now, req, Admit(s.env, s.now, req))])
  }

  function DoWaiterStart(s: State, aid: Aid): State
  {
    var (sh, answer) := WaitStretch(s.sh, aid);
    s.(sh := sh, waiters := s.waiters[aid := if answer.Some? then Answered(answer.value, false) else Asleep])
  }

  function DoWaiterEnd(s: State, aid: Aid): State
  {
    var (sh, answer) := WakeStretch(s.sh, aid);
    s.(sh := sh, waiters := s.waiters[aid := Answered(answer, aid in s.sh.fired)])
  }

  function DoApprove(s: State, aid: Aid): State
  {
    var (sh, next) := ApproveStretch(s.sh, s.env, s.now, aid);
    if next.Run? then
      s.(sh := sh, approvers := s.approvers[aid := Running(next.it, Why(s.env, s.now,
           if aid in s.sh.queue then s.sh.queue[aid] else next.it))])
    else s.(sh := sh)
  }

  function DoApproverRun(s: State, aid: Aid, outcome: Outcome): State
    requires aid in s.approvers && s.approvers[aid].Running?
  {
    var Running(it, why) := s.approvers[aid];
    s.(log := s.log + [RunOf(s, it, Operator, why, outcome)], approvers := s.approvers[aid := Returned(outcome)])
  }

  function DoApproverStore(s: State, aid: Aid): State
    requires aid in s.approvers && s.approvers[aid].Returned?
  {
    s.(sh := StoreStretch(s.sh, aid, s.approvers[aid].outcome), approvers := s.approvers - {aid})
  }

  function DoSweepBegin(s: State, order: seq<Aid>): State
    requires ListsExpired(s, order)
  {
    var sh := CleanedUp(s.sh, s.now);
    var batch := seq(|order|, i requires 0 <= i < |order| => sh.queue[order[i]]);
    s.(sh := sh, sweep := if batch == [] then Idle else Walking(batch, 0, Take))
  }

  function DoSweepTake(s: State): State
    requires At(s)
  {
    var it := Current(s);
    var (sh, next) := TakeStretch(s.sh, s.env, s.now, it);
    s.(sh := sh,
       sweep := s.sweep.(point := if next.Execute? then Executing(Why(s.env, s.now, it)) else ToSignal),
       skipped := if it.auto == Some(TimeoutApprove) && it.draft.hostId !in s.env.hosts
                  then s.skipped + {it.aid} else s.skipped)
  }

  function DoSweepRun(s: State, outcome: Outcome): State
    requires At(s) && s.sweep.point.Executing?
  {
    s.(log := s.log + [RunOf(s, Current(s), Timeout, s.sweep.point.why, outcome)],
       sweep := s.sweep.(point := Ran(outcome)))
  }

  function DoSweepStore(s: State): State
    requires At(s) && s.sweep.point.Ran?
  {
    s.(sh := SweepStoreStretch(s.sh, Current(s).aid, s.sweep.point.outcome), sweep := s.sweep.(point := ToSignal))
  }

  function DoSweepSignal(s: State): State
    requires At(s)
  {
    s.(sh := Signalled(s.sh, Current(s).aid),
       sweep := if s.sweep.pos + 1 == |s.sweep.batch| then Idle else Walking(s.sweep.batch, s.sweep.pos + 1, Take))
  }

  function DoSweepAbort(s: State): State
    requires At(s)
  {
    s.(sweep := Idle, dropped := s.dropped + Rest(s))
  }

  ghost function Apply(s: State, st: Step): State
    requires Enabled(s, st)
  {
    match st
    case Tick(t) => s.(now := t)
    case Configure(env) => s.(env := env)
    case Submit(aid, req, waited) => DoSubmit(s, aid, req, waited)
    case WaiterStart(aid) => DoWaiterStart(s, aid)
    case WaiterEnd(aid) => DoWaiterEnd(s, aid)
    case WaiterCancel(aid) => s.(waiters := s.waiters[aid := Cancelled])
    case Approve(aid) => DoApprove(s, aid)
    case ApproverRun(aid, outcome) => DoApproverRun(s, aid, outcome)
    case ApproverStore(aid) => DoApproverStore(s, aid)
    case Reject(aid) => s.(sh := RejectStretch(s.sh, aid))
    case SweepBegin(order) => DoSweepBegin(s, order)
    case SweepTake => DoSweepTake(s)
    case SweepRun(outcome) => DoSweepRun(s, outcome)
    case SweepStore => DoSweepStore(s)
    case SweepSignal => DoSweepSignal(s)
    case SweepAbort => DoSweepAbort(s)
  }

  ghost predicate Feasible(s: State, steps: seq<Step>)
    decreases |steps|
  {
    steps == [] || (Enabled(s, steps[0]) && Feasible(Apply(s, steps[0]), steps[1..]))
  }

  ghost function After(s: State, steps: seq<Step>): State
    requires Feasible(s, steps)
    decreases |steps|
  {
    if steps == [] then s else After(Apply(s, steps[0]), steps[1..])
  }
}
