/**
 * The history in the log is the history of the run: each execution goes back to a step that submitted the item, a later
 * one that decided on it, and a later one that executed it, each taken in a state with the registries and the clock the
 * log names.
 */
module Traces {
  import opened Options
  import opened Executor
  import opened Approvals
  import opened Protocol
  import opened Invariant
  import opened Safety
  import opened Grounds
  import opened Theorems

  /** `s` is the state in which the run takes its step number `i`. */
  ghost predicate Before(start: State, steps: seq<Step>, i: nat, s: State)
  {
    i < |steps| && Feasible(start, steps[..i]) && s == After(start, steps[..i]) && Enabled(s, steps[i])
  }

  ghost predicate SubmittedAt(start: State, steps: seq<Step>, i: nat, s: State, a: Aid, sub: Submission)
  {
    && Before(start, steps, i, s) && steps[i].Submit? && steps[i].aid == a && steps[i].req == sub.req
    && a !in s.sh.queue && s.env == sub.env && s.now == sub.now
  }

  /** The operator's approval of the pending item, or the sweep's re-check at the item's turn. */
  ghost predicate DecidedAt(start: State, steps: seq<Step>, i: nat, s: State, it: Item, decider: Decider, why: Why)
  {
    && Before(start, steps, i, s) && s.env == why.env && s.now == why.now
    && if decider == Operator
       then steps[i] == Approve(it.aid) && IsPending(s.sh, it.aid) && s.sh.queue[it.aid] == why.before
       else steps[i] == SweepTake && Protocol.At(s) && Current(s) == it && it.aid in s.sh.queue
  }

  ghost predicate ExecutedAt(start: State, steps: seq<Step>, i: nat, s: State, r: Run)
  {
    && Before(start, steps, i, s) && s.env == r.env
    && steps[i] == (if r.decider == Operator then ApproverRun(r.it.aid, r.outcome) else SweepRun(r.outcome))
    && Apply(s, steps[i]).log == s.log + [r]
  }

  // ----- taking the last step off -----

  lemma {:induction false} TakeLast(start: State, steps: seq<Step>)
    requires Feasible(start, steps) && steps != []
    ensures var n := |steps| - 1;
            && Feasible(start, steps[..n]) && Enabled(After(start, steps[..n]), steps[n])
            && After(start, steps) == Apply(After(start, steps[..n]), steps[n])
    decreases |steps|
  {
    var n := |steps| - 1;
    if n > 0 {
      TakeLast(Apply(start, steps[0]), steps[1..]);
      assert steps[1..][..n - 1] == steps[..n][1..];
    }
  }

  lemma BeforeInLonger(start: State, steps: seq<Step>, n: nat, i: nat, s: State)
    requires n <= |steps| && Before(start, steps[..n], i, s)
    ensures Before(start, steps, i, s)
  {
    assert steps[..n][..i] == steps[..i];
  }

  lemma RunInLonger(start: State, steps: seq<Step>, n: nat, i: nat, si: State, j: nat, sj: State, r: Run)
    requires n <= |steps|
    requires DecidedAt(start, steps[..n], i, si, r.it, r.decider, r.why) && ExecutedAt(start, steps[..n], j, sj, r)
    ensures DecidedAt(start, steps, i, si, r.it, r.decider, r.why) && ExecutedAt(start, steps, j, sj, r)
  {
    BeforeInLonger(start, steps, n, i, si);
    BeforeInLonger(start, steps, n, j, sj);
  }

  // ----- which step made an entry -----

  lemma SubmissionComesFrom(s: State, st: Step, a: Aid)
    requires Enabled(s, st) && a in Apply(s, st).submissions
    ensures || (a in s.submissions && s.submissions[a] == Apply(s, st).submissions[a])
            || (st.Submit? && st.aid == a && a !in s.sh.queue && st.req == Apply(s, st).submissions[a].req
                && Apply(s, st).submissions[a].env == s.env && Apply(s, st).submissions[a].now == s.now)
  {
  }

  ghost predicate IsRunning(s: State, a: Aid, it: Item, why: Why)
  {
    a in s.approvers && s.approvers[a] == Running(it, why)
  }

  lemma ApproverComesFrom(s: State, st: Step, a: Aid, it: Item, why: Why)
    requires Inv(s) && Enabled(s, st) && IsRunning(Apply(s, st), a, it, why)
    ensures || IsRunning(s, a, it, why)
            || (st == Approve(a) && IsPending(s.sh, a) && it.aid == a
                && why == Why(s.env, s.now, s.sh.queue[a]))
  {
    assert LocalOk(a, Of(s, a), s.now);
  }

  ghost predicate IsExecuting(s: State, it: Item, why: Why)
  {
    Protocol.At(s) && s.sweep.point == Executing(why) && Current(s) == it
  }

  lemma ExecutingComesFrom(s: State, st: Step, it: Item, why: Why)
    requires Enabled(s, st) && IsExecuting(Apply(s, st), it, why)
    ensures || IsExecuting(s, it, why)
            || (st == SweepTake && Protocol.At(s) && Current(s) == it && why == Why(s.env, s.now, it))
  {
  }

  lemma RunComesFrom(s: State, st: Step)
    requires Inv(s) && Enabled(s, st)
    ensures var s' := Apply(s, st);
            || s'.log == s.log
            || (st.ApproverRun? && st.aid in s.approvers && s.approvers[st.aid].Running?
                && var p := s.approvers[st.aid];
                   p.it.aid == st.aid && s'.log == s.log + [RunOf(s, p.it, Operator, p.why, st.outcome)])
            || (st.SweepRun? && Protocol.At(s) && s.sweep.point.Executing?
                && s'.log == s.log + [RunOf(s, Current(s), Timeout, s.sweep.point.why, st.outcome)])
  {
    if st.ApproverRun? {
      assert LocalOk(st.aid, Of(s, st.aid), s.now);
    }
  }

  // ----- tracing back -----

  /** A gate in which nothing has happened yet. */
  ghost predicate Fresh(s: State)
  {
    Good(s) && s.submissions == map[] && s.approvers == map[] && s.sweep.Idle? && s.log == []
  }

  lemma {:induction false} TraceSubmission(start: State, steps: seq<Step>, a: Aid) returns (i: nat, s: State)
    requires Fresh(start) && Feasible(start, steps) && a in After(start, steps).submissions
    ensures SubmittedAt(start, steps, i, s, a, After(start, steps).submissions[a])
    decreases |steps|
  {
    var n := |steps| - 1;
    TakeLast(start, steps);
    var before := After(start, steps[..n]);
    SubmissionComesFrom(before, steps[n], a);
    if a in before.submissions && before.submissions[a] == After(start, steps).submissions[a] {
      i, s := TraceSubmission(start, steps[..n], a);
      BeforeInLonger(start, steps, n, i, s);
    } else {
      i, s := n, before;
    }
  }

  lemma {:induction false} TraceApprover(start: State, steps: seq<Step>, a: Aid, it: Item, why: Why)
    returns (i: nat, s: State)
    requires Fresh(start) && Feasible(start, steps) && IsRunning(After(start, steps), a, it, why)
    ensures it.aid == a && DecidedAt(start, steps, i, s, it, Operator, why)
    decreases |steps|
  {
    var n := |steps| - 1;
    TakeLast(start, steps);
    var before := After(start, steps[..n]);
    RunKeeps(start, steps[..n]);
    ApproverComesFrom(before, steps[n], a, it, why);
    if IsRunning(before, a, it, why) {
      i, s := TraceApprover(start, steps[..n], a, it, why);
      BeforeInLonger(start, steps, n, i, s);
    } else {
      i, s := n, before;
    }
  }

  lemma {:induction false} TraceExecuting(start: State, steps: seq<Step>, it: Item, why: Why)
    returns (i: nat, s: State)
    requires Fresh(start) && Feasible(start, steps) && IsExecuting(After(start, steps), it, why)
    ensures DecidedAt(start, steps, i, s, it, Timeout, why)
    decreases |steps|
  {
    var n := |steps| - 1;
    TakeLast(start, steps);
    var before := After(start, steps[..n]);
    RunKeeps(start, steps[..n]);
    ExecutingComesFrom(before, steps[n], it, why);
    if IsExecuting(before, it, why) {
      i, s := TraceExecuting(start, steps[..n], it, why);
      BeforeInLonger(start, steps, n, i, s);
    } else {
      CurrentHeld(before);
      i, s := n, before;
    }
  }

  /** The decision behind an execution that the run's last step makes. */
  lemma TraceDecision(start: State, steps: seq<Step>, st: Step) returns (i: nat, s: State)
    requires Fresh(start) && Feasible(start, steps) && Enabled(After(start, steps), st)
    requires Apply(After(start, steps), st).log != After(start, steps).log
    ensures var log := Apply(After(start, steps), st).log;
            log != [] && var r := log[|log| - 1]; DecidedAt(start, steps, i, s, r.it, r.decider, r.why)
  {
    var before := After(start, steps);
    RunKeeps(start, steps);
    RunComesFrom(before, st);
    if st.ApproverRun? {
      var p := before.approvers[st.aid];
      i, s := TraceApprover(start, steps, st.aid, p.it, p.why);
    } else {
      i, s := TraceExecuting(start, steps, Current(before), before.sweep.point.why);
    }
  }

  lemma {:induction false} TraceRun(start: State, steps: seq<Step>, k: nat)
    returns (i: nat, si: State, j: nat, sj: State)
    requires Fresh(start) && Feasible(start, steps) && k < |After(start, steps).log|
    ensures var r := After(start, steps).log[k];
            i < j && DecidedAt(start, steps, i, si, r.it, r.decider, r.why) && ExecutedAt(start, steps, j, sj, r)
    decreases |steps|
  {
    var n := |steps| - 1;
    TakeLast(start, steps);
    var before := After(start, steps[..n]);
    RunKeeps(start, steps[..n]);
    RunComesFrom(before, steps[n]);
    if k < |before.log| {
      i, si, j, sj := TraceRun(start, steps[..n], k);
      RunInLonger(start, steps, n, i, si, j, sj, before.log[k]);
    } else {
      i, si := TraceDecision(start, steps[..n], steps[n]);
      BeforeInLonger(start, steps, n, i, si);
      j, sj := n, before;
    }
  }

  /** What is queued stays queued. */
  lemma QueuedStays(start: State, steps: seq<Step>, i: nat, si: State, j: nat, sj: State, a: Aid)
    requires Good(start) && Before(start, steps, i, si) && Before(start, steps, j, sj) && i <= j
    requires a in si.sh.queue
    ensures a in sj.sh.queue
  {
    var middle := steps[i..j];
    assert steps[..j] == steps[..i] + middle;
    SplitRun(start, steps[..i], middle);
    RunKeeps(start, steps[..i]);
    RunKeeps(si, middle);
    assert Later(Of(si, a), Of(sj, a));
  }

  lemma {:induction false} SplitRun(s: State, f: seq<Step>, g: seq<Step>)
    requires Feasible(s, f + g)
    ensures Feasible(s, f) && Feasible(After(s, f), g) && After(s, f + g) == After(After(s, f), g)
    decreases |f|
  {
    if f == [] {
      assert f + g == g;
    } else {
      assert (f + g)[1..] == f[1..] + g;
      SplitRun(Apply(s, f[0]), f[1..], g);
    }
  }

  /**
   * Behind every execution stand three steps of the run, in this order: the submission of the item, the decision on it,
   * and the execution; and the registries and times in the log are those of the states in which they were taken.
   */
  lemma EveryRunIsTraced(env: Env, now: real, steps: seq<Step>, k: nat)
    returns (h: nat, sh: State, i: nat, si: State, j: nat, sj: State)
    requires Feasible(Start(env, now), steps) && k < |Reached(env, now, steps).log|
    ensures var start, s := Start(env, now), Reached(env, now, steps);
            var r := s.log[k];
            && h < i < j < |steps| && r.it.aid in s.submissions
            && SubmittedAt(start, steps, h, sh, r.it.aid, s.submissions[r.it.aid])
            && DecidedAt(start, steps, i, si, r.it, r.decider, r.why)
            && ExecutedAt(start, steps, j, sj, r)
  {
    var start, s := Start(env, now), Reached(env, now, steps);
    StartInv(env, now);
    ReachedIsGood(env, now, steps);
    i, si, j, sj := TraceRun(start, steps, k);
    var a := s.log[k].it.aid;
    ExecutedItem(s, k);
    GroundsOf(s, k);
    h, sh := TraceSubmission(start, steps, a);
    if h >= i {
      QueuedStays(start, steps, i, si, h, sh, a);
    }
  }
}
