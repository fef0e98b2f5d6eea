/**
 * The second factor (app/auth.py): TOTP codes with replay protection and one-time recovery codes. The code generator
 * and the hash verifier are foreign functions of their inputs.
 */
module TwoFactor {
  import opened Options
  import opened Text

  /** `codeAt(secret, step)` is the code of a 30-second step; `verifies(hash, code)` the password hasher's verdict. */
  datatype Foreign = Foreign(codeAt: (string, int) -> string, verifies: (string, string) -> bool,
                             clean: string -> string)

  datatype Pending = Pending(secret: string, at: real)

  /** `last` is the last accepted step, kept in memory; the rest is configuration. */
  datatype Factor = Factor(last: int, secret: Option<string>, pending: Option<Pending>, recovery: seq<string>)

  const STEP := 30.0
  const ENROLL_WINDOW := 900.0
  const RECOVERY_LENGTH := 12

  function StepAt(now: real, off: int): int
  {
    ((now + off as real * STEP) / STEP).Floor
  }

  /** The step of the first of the three offsets whose code matches. */
  function FirstMatch(f: Foreign, secret: string, digits: string, now: real, off: int): Option<int>
    decreases 1 - off
  {
    if off > 1 then None
    else if f.codeAt(secret, StepAt(now, off)) == digits then Some(StepAt(now, off))
    else FirstMatch(f, secret, digits, now, off + 1)
  }

  /** The step `_check_code` accepts, if any. */
  function AcceptedStep(f: Foreign, last: int, secret: string, code: string, now: real): Option<int>
  {
    var digits := Replace(code, " ", "");
    if secret == "" || !AllDigits(digits) then None
    else
      var step := FirstMatch(f, secret, digits, now, -1);
      if step.Some? && step.value > last then step else None
  }

  /** The first hash in the list that verifies. */
  function FirstVerifying(f: Foreign, hashes: seq<string>, code: string): Option<string>
  {
    if hashes == [] then None
    else if f.verifies(hashes[0], code) then Some(hashes[0])
    else FirstVerifying(f, hashes[1..], code)
  }

  function Without(hashes: seq<string>, h: string): seq<string>
  {
    if hashes == [] then []
    else (if hashes[0] == h then [] else [hashes[0]]) + Without(hashes[1..], h)
  }

  function AcceptedHash(f: Foreign, hashes: seq<string>, code: string): Option<string>
  {
    if |f.clean(code)| < RECOVERY_LENGTH then None else FirstVerifying(f, hashes, f.clean(code))
  }

  // ----- runs -----

  datatype Op =
    | Check(code: string, now: real)
    | Begin(secret: string, now: real)
    | Confirm(code: string, now: real, codes: seq<string>)
    | Disable
    | Regenerate(codes: seq<string>)

  datatype Acceptance = ByTotp(step: int, now: real) | ByRecovery(hash: string)

  /** `check_second_factor`, `totp_begin`, `totp_confirm`, `totp_disable`, `recovery_regenerate`. */
  function Do(f: Foreign, s: Factor, op: Op): (Factor, Option<Acceptance>)
  {
    match op
    case Check(code, now) =>
      var step := if s.secret.Some? then AcceptedStep(f, s.last, s.secret.value, code, now) else None;
      if step.Some? then (s.(last := step.value), Some(ByTotp(step.value, now)))
      else
        var h := AcceptedHash(f, s.recovery, code);
        if h.Some? then (s.(recovery := Without(s.recovery, h.value)), Some(ByRecovery(h.value))) else (s, None)
    case Begin(secret, now) => (s.(pending := Some(Pending(secret, now))), None)
    case Confirm(code, now, codes) =>
      if s.pending.None? || now - s.pending.value.at > ENROLL_WINDOW then (s, None)
      else
        var step := AcceptedStep(f, s.last, s.pending.value.secret, code, now);
        if step.None? then (s, None)
        else (Factor(step.value, Some(s.pending.value.secret), None, codes), Some(ByTotp(step.value, now)))
    case Disable => (s.(secret := None, recovery := []), None)
    case Regenerate(codes) => (s.(recovery := codes), None)
  }

  function After(f: Foreign, start: Factor, ops: seq<Op>): Factor
  {
    if ops == [] then start else Do(f, After(f, start, ops[..|ops| - 1]), ops[|ops| - 1]).0
  }

  function Log(f: Foreign, start: Factor, ops: seq<Op>): seq<Acceptance>
  {
    if ops == [] then []
    else
      var before := ops[..|ops| - 1];
      var a := Do(f, After(f, start, before), ops[|ops| - 1]).1;
      Log(f, start, before) + if a.Some? then [a.value] else []
  }

  lemma StepAtOffset(now: real, off: int)
    ensures StepAt(now, off) == (now / STEP).Floor + off
  {
    assert (now + off as real * STEP) / STEP == now / STEP + off as real;
  }

  lemma {:induction false} MatchIsNear(f: Foreign, secret: string, digits: string, now: real, off: int)
    requires off >= -1
    ensures var step := FirstMatch(f, secret, digits, now, off);
            step.Some? ==> f.codeAt(secret, step.value) == digits
                           && (now / STEP).Floor - 1 <= step.value <= (now / STEP).Floor + 1
    decreases 1 - off
  {
    StepAtOffset(now, off);
    if off <= 1 {
      MatchIsNear(f, secret, digits, now, off + 1);
    }
  }

  lemma {:induction false} FirstMatchIsFirst(f: Foreign, secret: string, digits: string, now: real, from: int)
    requires from >= -1
    ensures var step := FirstMatch(f, secret, digits, now, from);
            && (step.None? ==> forall off :: from <= off <= 1 ==> f.codeAt(secret, StepAt(now, off)) != digits)
            && (step.Some? ==> exists off :: from <= off <= 1 && step.value == StepAt(now, off)
                                 && f.codeAt(secret, step.value) == digits
                                 && forall o :: from <= o < off ==> f.codeAt(secret, StepAt(now, o)) != digits)
    decreases 1 - from
  {
    if from <= 1 && f.codeAt(secret, StepAt(now, from)) != digits {
      FirstMatchIsFirst(f, secret, digits, now, from + 1);
    }
  }

  /** A code is accepted exactly when the first of the three steps it fits is newer than the last accepted one. */
  lemma CodeAcceptedExactly(f: Foreign, last: int, secret: string, code: string, now: real)
    ensures var digits := Replace(code, " ", "");
            AcceptedStep(f, last, secret, code, now).Some? <==>
            && secret != "" && AllDigits(digits)
            && exists off :: -1 <= off <= 1 && f.codeAt(secret, StepAt(now, off)) == digits && StepAt(now, off) > last
                 && forall o :: -1 <= o < off ==> f.codeAt(secret, StepAt(now, o)) != digits
    ensures AcceptedStep(f, last, secret, code, now).Some? ==>
              var step, digits := AcceptedStep(f, last, secret, code, now).value, Replace(code, " ", "");
              && step > last && f.codeAt(secret, step) == digits
              && (exists off :: -1 <= off <= 1 && step == StepAt(now, off)
                                && forall o :: -1 <= o < off ==> f.codeAt(secret, StepAt(now, o)) != digits)
  {
    var digits := Replace(code, " ", "");
    FirstMatchIsFirst(f, secret, digits, now, -1);
    MatchIsNear(f, secret, digits, now, -1);
  }

  /** The steps are the half minutes since the epoch; the three offsets are the last one, this one and the next. */
  lemma StepsAreHalfMinutes(now: real, off: int)
    ensures StepAt(now, off) == StepAt(now, 0) + off
    ensures StepAt(now, 0) as real * 30.0 <= now < (StepAt(now, 0) + 1) as real * 30.0
  {
    StepAtOffset(now, off);
    StepAtOffset(now, 0);
    assert now / STEP - 1.0 < (now / STEP).Floor as real <= now / STEP;
  }

  /** The first of the listed hashes that verifies the code. */
  predicate FirstFits(f: Foreign, hashes: seq<string>, code: string, k: nat)
  {
    k < |hashes| && f.verifies(hashes[k], code) && forall j :: 0 <= j < k ==> !f.verifies(hashes[j], code)
  }

  lemma {:induction false} FirstVerifyingFits(f: Foreign, hashes: seq<string>, code: string) returns (k: nat)
    ensures var h := FirstVerifying(f, hashes, code);
            if h.Some? then FirstFits(f, hashes, code, k) && h.value == hashes[k]
            else forall j :: 0 <= j < |hashes| ==> !f.verifies(hashes[j], code)
  {
    k := 0;
    if hashes != [] && !f.verifies(hashes[0], code) {
      var m := FirstVerifyingFits(f, hashes[1..], code);
      k := m + 1;
      assert forall j :: 0 < j < |hashes| ==> hashes[j] == hashes[1..][j - 1];
    }
  }

  /**
   * A code is taken as the factor's code if it is one; else as a recovery code, exactly if it is long enough and verifies
   * one of the hashes; the first such hash is gone afterwards, and only that. Otherwise it is refused without effect.
   */
  lemma CheckedExactly(f: Foreign, s: Factor, code: string, now: real) returns (k: nat)
    ensures var (s', a) := Do(f, s, Check(code, now));
            var step := if s.secret.Some? then AcceptedStep(f, s.last, s.secret.value, code, now) else None;
            var recovers := |f.clean(code)| >= 12 && exists h :: h in s.recovery && f.verifies(h, f.clean(code));
            if step.Some? then s' == s.(last := step.value) && a == Some(ByTotp(step.value, now))
            else if recovers then
              && FirstFits(f, s.recovery, f.clean(code), k) && a == Some(ByRecovery(s.recovery[k]))
              && s' == s.(recovery := s'.recovery)
              && forall x :: x in s'.recovery <==> x in s.recovery && x != s.recovery[k]
            else s' == s && a == None
  {
    k := FirstVerifyingFits(f, s.recovery, f.clean(code));
    if k < |s.recovery| {
      WithoutExact(s.recovery, s.recovery[k]);
    }
    assert forall j :: 0 <= j < |s.recovery| ==> s.recovery[j] in s.recovery;
  }

  /**
   * A pending enrollment is confirmed exactly within a quarter of an hour and with a code of its own secret, which becomes
   * the factor's; the recovery codes are the new ones. Otherwise nothing changes.
   */
  lemma ConfirmedExactly(f: Foreign, s: Factor, code: string, now: real, codes: seq<string>)
    ensures var (s', a) := Do(f, s, Confirm(code, now, codes));
            if s.pending.Some? && now <= s.pending.value.at + 900.0
               && AcceptedStep(f, s.last, s.pending.value.secret, code, now).Some?
            then && s'.secret == Some(s.pending.value.secret) && s'.pending == None && s'.recovery == codes && a.Some?
                 && Some(s'.last) == AcceptedStep(f, s.last, s.pending.value.secret, code, now)
            else s' == s && a == None
  {
  }

  /** Beginning an enrollment touches nothing but what is pending; disabling takes secret and recovery codes away. */
  lemma OthersExactly(f: Foreign, s: Factor, secret: string, now: real, codes: seq<string>)
    ensures Do(f, s, Begin(secret, now)) == (s.(pending := Some(Pending(secret, now))), None)
    ensures Do(f, s, Disable) == (s.(secret := None, recovery := []), None)
    ensures Do(f, s, Regenerate(codes)) == (s.(recovery := codes), None)
  {
  }

  predicate StepsIncrease(log: seq<Acceptance>, last: int)
  {
    && (forall i, j :: 0 <= i < j < |log| && log[i].ByTotp? && log[j].ByTotp? ==> log[i].step < log[j].step)
    && (forall i :: 0 <= i < |log| && log[i].ByTotp? ==> log[i].step <= last)
  }

  lemma AcceptanceRaises(f: Foreign, s: Factor, op: Op)
    ensures var (s', a) := Do(f, s, op);
            if a.Some? && a.value.ByTotp? then s.last < a.value.step == s'.last else s'.last == s.last
  {
  }

  /** No code is accepted twice: over any run, enrollments included, the accepted steps strictly increase. */
  lemma {:induction false} AcceptedStepsIncrease(f: Foreign, start: Factor, ops: seq<Op>)
    ensures StepsIncrease(Log(f, start, ops), After(f, start, ops).last)
    ensures start.last <= After(f, start, ops).last
  {
    if ops != [] {
      AcceptedStepsIncrease(f, start, ops[..|ops| - 1]);
      AcceptanceRaises(f, After(f, start, ops[..|ops| - 1]), ops[|ops| - 1]);
    }
  }

  predicate NearTheirTime(log: seq<Acceptance>)
  {
    forall i :: 0 <= i < |log| && log[i].ByTotp? ==>
      (log[i].now / STEP).Floor - 1 <= log[i].step <= (log[i].now / STEP).Floor + 1
  }

  lemma {:induction false} AcceptedStepsAreNear(f: Foreign, start: Factor, ops: seq<Op>)
    ensures NearTheirTime(Log(f, start, ops))
  {
    if ops != [] {
      var before, op := ops[..|ops| - 1], ops[|ops| - 1];
      AcceptedStepsAreNear(f, start, before);
      var s := After(f, start, before);
      if op.Check? && s.secret.Some? {
        MatchIsNear(f, s.secret.value, Replace(op.code, " ", ""), op.now, -1);
      } else if op.Confirm? && s.pending.Some? {
        MatchIsNear(f, s.pending.value.secret, Replace(op.code, " ", ""), op.now, -1);
      }
    }
  }

  /** The steps of the codes accepted between `t0` and `t1`. */
  function StepsIn(log: seq<Acceptance>, t0: real, t1: real): seq<int>
  {
    if log == [] then []
    else
      var a := log[|log| - 1];
      StepsIn(log[..|log| - 1], t0, t1) + if a.ByTotp? && t0 <= a.now <= t1 then [a.step] else []
  }

  lemma FloorMonotone(a: real, b: real)
    requires a <= b
    ensures (a / STEP).Floor <= (b / STEP).Floor
  {
    assert a / STEP <= b / STEP;
  }

  predicate Sorted(steps: seq<int>)
  {
    forall i, j :: 0 <= i < j < |steps| ==> steps[i] < steps[j]
  }

  predicate Between(steps: seq<int>, lo: int, hi: int)
  {
    forall i :: 0 <= i < |steps| ==> lo <= steps[i] <= hi
  }

  lemma {:induction false} StepsInSorted(log: seq<Acceptance>, last: int, t0: real, t1: real)
    requires StepsIncrease(log, last) && NearTheirTime(log)
    ensures var steps := StepsIn(log, t0, t1);
            && Sorted(steps) && Between(steps, (t0 / STEP).Floor - 1, (t1 / STEP).Floor + 1)
            && forall i :: 0 <= i < |steps| ==> steps[i] <= last
  {
    if log != [] {
      var n := |log| - 1;
      var a := log[n];
      if a.ByTotp? && t0 <= a.now <= t1 {
        StepsInSorted(log[..n], a.step - 1, t0, t1);
        FloorMonotone(t0, a.now);
        FloorMonotone(a.now, t1);
        assert NearTheirTime(log);
      } else {
        StepsInSorted(log[..n], last, t0, t1);
      }
    }
  }

  lemma {:induction false} SortedFits(steps: seq<int>, lo: int, hi: int)
    requires Sorted(steps) && Between(steps, lo, hi)
    ensures steps != [] ==> |steps| <= hi - lo + 1
  {
    assert steps != [] ==> lo <= steps[0] <= hi;
    if |steps| > 1 {
      var n := |steps| - 1;
      assert steps[..n][n - 1] == steps[n - 1];
      SortedFits(steps[..n], lo, steps[n] - 1);
    }
  }

  /** In any stretch of time the accepted codes number at most its 30-second steps plus two. */
  lemma FewCodesPerStretch(f: Foreign, start: Factor, ops: seq<Op>, t0: real, t1: real)
    requires t0 <= t1
    ensures |StepsIn(Log(f, start, ops), t0, t1)| <= (t1 / STEP).Floor - (t0 / STEP).Floor + 3
  {
    AcceptedStepsIncrease(f, start, ops);
    AcceptedStepsAreNear(f, start, ops);
    StepsInSorted(Log(f, start, ops), After(f, start, ops).last, t0, t1);
    SortedFits(StepsIn(Log(f, start, ops), t0, t1), (t0 / STEP).Floor - 1, (t1 / STEP).Floor + 1);
    FloorMonotone(t0, t1);
  }

  // ----- recovery codes -----

  function FreshOf(op: Op): seq<string>
  {
    match op
    case Confirm(_, _, codes) => codes
    case Regenerate(codes) => codes
    case _ => []
  }

  function Elements(hashes: seq<string>): set<string>
  {
    set h | h in hashes
  }

  /** Every hash a run has ever stored. */
  function Seen(start: Factor, ops: seq<Op>): set<string>
  {
    if ops == [] then Elements(start.recovery)
    else Seen(start, ops[..|ops| - 1]) + Elements(FreshOf(ops[|ops| - 1]))
  }

  /** New recovery codes get new hashes (the hasher salts them). */
  predicate Salted(start: Factor, ops: seq<Op>)
  {
    forall i, h :: 0 <= i < |ops| && h in FreshOf(ops[i]) ==> h !in Seen(start, ops[..i])
  }

  lemma {:induction false} WithoutExact(hashes: seq<string>, h: string)
    ensures forall x :: x in Without(hashes, h) <==> x in hashes && x != h
  {
    if hashes != [] {
      WithoutExact(hashes[1..], h);
      assert forall x :: x in hashes <==> x == hashes[0] || x in hashes[1..];
    }
  }

  lemma {:induction false} VerifyingIsListed(f: Foreign, hashes: seq<string>, code: string)
    ensures var h := FirstVerifying(f, hashes, code);
            && (h.Some? ==> h.value in hashes && f.verifies(h.value, code))
            && (h.None? ==> forall x :: x in hashes ==> !f.verifies(x, code))
  {
    if hashes != [] {
      VerifyingIsListed(f, hashes[1..], code);
    }
  }

  predicate Spent(s: Factor, log: seq<Acceptance>, seen: set<string>)
  {
    && (forall h :: h in s.recovery ==> h in seen)
    && (forall i :: 0 <= i < |log| && log[i].ByRecovery? ==> log[i].hash in seen && log[i].hash !in s.recovery)
    && (forall i, j :: 0 <= i < j < |log| && log[i].ByRecovery? && log[j].ByRecovery? ==> log[i].hash != log[j].hash)
  }

  lemma {:induction false} RecoveryCodesAreSpent(f: Foreign, start: Factor, ops: seq<Op>)
    requires Salted(start, ops)
    ensures Spent(After(f, start, ops), Log(f, start, ops), Seen(start, ops))
  {
    if ops != [] {
      var before, op := ops[..|ops| - 1], ops[|ops| - 1];
      assert forall i :: 0 <= i < |before| ==> before[..i] == ops[..i];
      RecoveryCodesAreSpent(f, start, before);
      var s := After(f, start, before);
      if op.Check? {
        VerifyingIsListed(f, s.recovery, f.clean(op.code));
        forall h {
          WithoutExact(s.recovery, h);
        }
      } else if op.Confirm? || op.Regenerate? {
        assert forall h :: h in FreshOf(ops[|before|]) ==> h !in Seen(start, ops[..|before|]);
      }
    }
  }

  /** Each recovery code is accepted at most once, over any run. */
  lemma RecoveryOnce(f: Foreign, start: Factor, ops: seq<Op>, i: nat, j: nat)
    requires Salted(start, ops) && i < j < |Log(f, start, ops)|
    requires Log(f, start, ops)[i].ByRecovery? && Log(f, start, ops)[j].ByRecovery?
    ensures Log(f, start, ops)[i].hash != Log(f, start, ops)[j].hash
  {
    RecoveryCodesAreSpent(f, start, ops);
  }

  // ----- the stored factor -----

  class SecondFactor {
    var last: int
    var secret: Option<string>
    var pending: Option<Pending>
    var recovery: seq<string>

    function View(): Factor
      reads this
    {
      Factor(last, secret, pending, recovery)
    }

    constructor ()
      ensures View() == Factor(0, None, None, [])
    {
      last, secret, pending, recovery := 0, None, None, [];
    }

    /** `_check_code`: the first matching offset decides, and a replayed step is refused. */
    method CheckCode(f: Foreign, key: string, code: string, now: real) returns (ok: bool)
      modifies this`last
      ensures var step := AcceptedStep(f, old(last), key, code, now);
              ok == step.Some? && last == if ok then step.value else old(last)
    {
      var digits := Replace(code, " ", "");
      if key == "" || !AllDigits(digits) {
        return false;
      }
      var off := -1;
      while off <= 1
        invariant -1 <= off <= 2 && last == old(last)
        invariant FirstMatch(f, key, digits, now, -1) == FirstMatch(f, key, digits, now, off)
      {
        var step := StepAt(now, off);
        if f.codeAt(key, step) == digits {
          if step <= last {
            return false;
          }
          last := step;
          return true;
        }
        off := off + 1;
      }
      ok := false;
    }

    /** `check_second_factor`. */
    method CheckSecondFactor(f: Foreign, code: string, now: real) returns (ok: bool)
      modifies this
      ensures View() == Do(f, old(View()), Check(code, now)).0
      ensures ok == Do(f, old(View()), Check(code, now)).1.Some?
    {
      if secret.Some? {
        ok := CheckCode(f, secret.value, code, now);
        if ok {
          return;
        }
      }
      var cleaned := f.clean(code);
      ok := false;
      if |cleaned| >= RECOVERY_LENGTH {
        var k := 0;
        while k < |recovery|
          invariant 0 <= k <= |recovery| && View() == old(View())
          invariant FirstVerifying(f, recovery, cleaned) == FirstVerifying(f, recovery[k..], cleaned)
        {
          if f.verifies(recovery[k], cleaned) {
            recovery := Without(recovery, recovery[k]);
            return true;
          }
          k := k + 1;
        }
      }
    }

    /** `totp_confirm`: a pending enrollment becomes the factor, with new recovery codes. */
    method ConfirmEnrollment(f: Foreign, code: string, now: real, codes: seq<string>) returns (ok: bool)
      modifies this
      ensures View() == Do(f, old(View()), Confirm(code, now, codes)).0
      ensures ok == Do(f, old(View()), Confirm(code, now, codes)).1.Some?
    {
      if pending.None? || now - pending.value.at > ENROLL_WINDOW {
        return false;
      }
      ok := CheckCode(f, pending.value.secret, code, now);
      if ok {
        secret, pending, recovery := Some(pending.value.secret), None, codes;
      }
    }
  }
}
