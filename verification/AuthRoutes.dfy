/**
 * The admin authentication routes (app/routes_auth.py) over the state they change in turn: lockouts, second factor,
 * password, epoch and issued sessions. A request reads the clock once; whether a password verifies is an input.
 */
module AuthRoutes {
  import opened Options
  import opened SlidingWindow
  import opened Lockout
  import S = Sessions
  import T = TwoFactor

  /** `trusted`: the remembered-device cookie was accepted. */
  datatype LoginForm = LoginForm(ip: string, passwordLength: nat, passwordOk: bool, code: string, trusted: bool)

  datatype Reply =
    | PasswordTooShort | TooManyAttempts | BadCredentials | AskForCode | BadCode | NotLoggedIn | StepUpNeeded
    | Granted(session: nat, enrolling: bool)
    | Done

  const MIN_PASSWORD := 8

  /** What a reply means to the lockout. */
  function EndingOf(reply: Reply): Ending
  {
    match reply
    case BadCredentials => Failed
    case BadCode => Failed
    case Granted(_, _) => Cleared
    case _ => Neither
  }

  class AuthRoutes {
    var sessions: S.State
    var hasPassword: bool
    var totpRequired: bool
    const lockouts: Lockouts
    const factor: T.SecondFactor
    const attempts: nat
    const window: real

    constructor (now: real, limits: S.Limits, attempts: nat, window: real)
      ensures sessions == S.Start(now, limits) && !hasPassword && fresh(lockouts) && fresh(factor)
      ensures this.attempts == attempts && this.window == window
    {
      sessions, hasPassword, totpRequired := S.Start(now, limits), false, true;
      this.attempts, this.window := attempts, window;
      lockouts := new Lockouts();
      factor := new T.SecondFactor();
    }

    predicate TotpActive()
      reads this, factor
    {
      totpRequired && factor.secret.Some?
    }

    predicate IsLocked(ip: string)
      reads this, lockouts
    {
      |Recent(lockouts.Fails(ip), sessions.now, window)| >= attempts
    }

    function CheckedFactor(f: T.Foreign, code: string): (T.Factor, Option<T.Acceptance>)
      reads this, factor
    {
      T.Do(f, factor.View(), T.Check(code, sessions.now))
    }

    /** The two things a login proves: the password, and with 2FA on a fresh code or a remembered device. */
    predicate Proves(f: T.Foreign, b: LoginForm)
      reads this, factor
    {
      b.passwordOk && (TotpActive() ==> if b.code != "" then CheckedFactor(f, b.code).1.Some? else b.trusted)
    }

    /** The code given is one the second factor refuses. */
    predicate WrongCode(f: T.Foreign, b: LoginForm)
      reads this, factor
    {
      TotpActive() && b.code != "" && CheckedFactor(f, b.code).1.None?
    }

    /**
     * Each reply has its one cause. A wrong password or a wrong code leaves one more failure of the address, a login none,
     * and a question for the code as many as there were.
     */
    method LogIn(f: T.Foreign, b: LoginForm) returns (reply: Reply)
      requires attempts > 0
      modifies this, lockouts, factor
      ensures reply.PasswordTooShort? <==> old(!hasPassword) && b.passwordLength < 8
      ensures reply.TooManyAttempts? <==> old(hasPassword && IsLocked(b.ip))
      ensures reply.BadCredentials? <==> old(hasPassword && !IsLocked(b.ip)) && !b.passwordOk
      ensures reply.BadCode? <==> old(hasPassword && !IsLocked(b.ip) && WrongCode(f, b)) && b.passwordOk
      ensures reply.AskForCode? <==>
                old(hasPassword && !IsLocked(b.ip) && totpRequired && factor.secret.Some?)
                && b.passwordOk && b.code == "" && !b.trusted
      ensures reply.Granted? <==> if old(hasPassword) then old(!IsLocked(b.ip) && Proves(f, b)) else b.passwordLength >= 8
      ensures reply.Granted? ==>
                && reply.session == |old(sessions.issued)|
                && reply.enrolling == old(totpRequired && !(hasPassword && TotpActive()))
                && sessions == S.Apply(old(sessions), (if old(hasPassword) then S.DoLogIn(reply.enrolling)
                                                       else S.DoSetUp(reply.enrolling)))
      ensures !reply.Granted? ==> sessions == old(sessions)
      ensures old(!hasPassword) ==> lockouts.Fails(b.ip) == old(lockouts.Fails(b.ip))
      ensures old(hasPassword) ==>
                var recent := Recent(old(lockouts.Fails(b.ip)), old(sessions.now), window);
                lockouts.Fails(b.ip) ==
                  if old(!IsLocked(b.ip)) && (!b.passwordOk || old(WrongCode(f, b))) then recent + [old(sessions.now)]
                  else if old(!IsLocked(b.ip) && Proves(f, b)) then []
                  else recent
      ensures old(hasPassword) && (!b.passwordOk || old(WrongCode(f, b))) ==>
                CountsOne(old(lockouts.Fails(b.ip)), lockouts.Fails(b.ip), old(sessions.now), attempts, window)
      ensures old(hasPassword) ==>
                lockouts.Fails(b.ip) == AfterRequest(old(lockouts.Fails(b.ip)), old(sessions.now), old(sessions.now),
                                                     attempts, window, EndingOf(reply))
      ensures factor.View() == if old(hasPassword && !IsLocked(b.ip) && b.passwordOk && TotpActive() && b.code != "")
                               then old(CheckedFactor(f, b.code).0) else old(factor.View())
      ensures forall ip :: ip != b.ip ==> lockouts.Fails(ip) == old(lockouts.Fails(ip))
      ensures totpRequired == old(totpRequired) && (hasPassword <==> old(hasPassword) || reply.Granted?)
    {
      if !hasPassword {
        if b.passwordLength < MIN_PASSWORD {
          return PasswordTooShort;
        }
        hasPassword := true;
        sessions := S.Apply(sessions, S.DoSetUp(totpRequired));
        return Granted(|sessions.issued| - 1, totpRequired);
      }
      var locked := lockouts.Locked(b.ip, sessions.now, attempts, window);
      if locked {
        return TooManyAttempts;
      }
      if !b.passwordOk {
        lockouts.RecordFailure(b.ip, sessions.now);
        return BadCredentials;
      }
      var enrolling := totpRequired;
      if TotpActive() {
        if b.code == "" && !b.trusted {
          return AskForCode;
        }
        if b.code != "" {
          var ok := factor.CheckSecondFactor(f, b.code, sessions.now);
          if !ok {
            lockouts.RecordFailure(b.ip, sessions.now);
            return BadCode;
          }
        }
        enrolling := false;
      }
      lockouts.Clear(b.ip);
      sessions := S.Apply(sessions, S.DoLogIn(enrolling));
      reply := Granted(|sessions.issued| - 1, enrolling);
    }

    /** The step-up route: password and code again, counted by the same lockout. */
    method StepUp(f: T.Foreign, k: nat, ip: string, passwordOk: bool, code: string, seconds: real)
      returns (reply: Reply)
      requires seconds > 0.0 && attempts > 0
      modifies this`sessions, lockouts, factor
      ensures reply.Granted? <==>
                old(!IsLocked(ip) && S.Full(sessions, k) && passwordOk
                    && (TotpActive() ==> CheckedFactor(f, code).1.Some?))
      ensures reply.Granted? ==>
                reply.session == |old(sessions.issued)| && sessions == S.Apply(old(sessions), S.StepUp(k, seconds))
      ensures !reply.Granted? ==> sessions == old(sessions)
      ensures reply.TooManyAttempts? <==> old(IsLocked(ip))
      ensures reply.Granted? || reply.BadCredentials? || reply.TooManyAttempts?
      ensures var recent := Recent(old(lockouts.Fails(ip)), old(sessions.now), window);
              lockouts.Fails(ip) ==
                if old(IsLocked(ip)) then recent
                else if old(S.Full(sessions, k)) && passwordOk && old(TotpActive() ==> CheckedFactor(f, code).1.Some?)
                then [] else recent + [old(sessions.now)]
      ensures !(old(S.Full(sessions, k)) && passwordOk && old(TotpActive() ==> CheckedFactor(f, code).1.Some?)) ==>
                CountsOne(old(lockouts.Fails(ip)), lockouts.Fails(ip), old(sessions.now), attempts, window)
      ensures lockouts.Fails(ip) == AfterRequest(old(lockouts.Fails(ip)), old(sessions.now), old(sessions.now),
                                                 attempts, window, EndingOf(reply))
      ensures factor.View() == if old(!IsLocked(ip) && S.Full(sessions, k) && passwordOk && TotpActive())
                               then old(CheckedFactor(f, code).0) else old(factor.View())
      ensures forall other :: other != ip ==> lockouts.Fails(other) == old(lockouts.Fails(other))
    {
      var locked := lockouts.Locked(ip, sessions.now, attempts, window);
      if locked {
        return TooManyAttempts;
      }
      var ok := S.Full(sessions, k) && passwordOk;
      if ok && TotpActive() {
        ok := factor.CheckSecondFactor(f, code, sessions.now);
      }
      if !ok {
        lockouts.RecordFailure(ip, sessions.now);
        return BadCredentials;
      }
      lockouts.Clear(ip);
      sessions := S.Apply(sessions, S.StepUp(k, seconds));
      reply := Granted(|sessions.issued| - 1, false);
    }

    /** Enrollment starts from an enrollment session, or from a full one after a step-up. */
    method BeginTotp(k: nat, secret: string) returns (reply: Reply)
      modifies factor
      ensures reply.Done? <==> S.Accepted(sessions, k) && (sessions.issued[k].token.enrolling || S.Stepped(sessions, k))
      ensures factor.View() == if reply.Done? then old(factor.View()).(pending := Some(T.Pending(secret, sessions.now)))
                               else old(factor.View())
    {
      if !S.Accepted(sessions, k) {
        return NotLoggedIn;
      }
      if !sessions.issued[k].token.enrolling && !S.Stepped(sessions, k) {
        return StepUpNeeded;
      }
      factor.pending := Some(T.Pending(secret, sessions.now));
      reply := Done;
    }

    method ConfirmTotp(f: T.Foreign, k: nat, code: string, codes: seq<string>) returns (reply: Reply)
      modifies this, factor
      ensures reply.Granted? <==>
                old(S.Accepted(sessions, k)
                    && T.Do(f, factor.View(), T.Confirm(code, sessions.now, codes)).1.Some?)
      ensures reply.Granted? ==>
                && sessions == S.Apply(old(sessions), S.Confirm(k)) && reply.session == |old(sessions.issued)|
                && TotpActive() && factor.recovery == codes
      ensures !reply.Granted? ==> sessions == old(sessions) && totpRequired == old(totpRequired)
      ensures factor.View() == if old(S.Accepted(sessions, k))
                               then old(T.Do(f, factor.View(), T.Confirm(code, sessions.now, codes)).0)
                               else old(factor.View())
      ensures hasPassword == old(hasPassword)
    {
      if !S.Accepted(sessions, k) {
        return NotLoggedIn;
      }
      var ok := factor.ConfirmEnrollment(f, code, sessions.now, codes);
      if !ok {
        return BadCode;
      }
      totpRequired := true;
      sessions := S.Apply(sessions, S.Confirm(k));
      reply := Granted(|sessions.issued| - 1, false);
    }

    method ChangePassword(k: nat, currentOk: bool, newLength: nat) returns (reply: Reply)
      modifies this`sessions
      ensures reply.Granted? <==> old(S.Stepped(sessions, k)) && currentOk && newLength >= 8
      ensures sessions == if reply.Granted? then S.Apply(old(sessions), S.ChangePassword(k)) else old(sessions)
      ensures reply.Granted? ==> S.Enabled(old(sessions), S.ChangePassword(k))
                                 && forall j :: 0 <= j < |old(sessions.issued)| ==>
                                      sessions.issued[j] == old(sessions.issued)[j]
    {
      if !S.Full(sessions, k) {
        return NotLoggedIn;
      }
      if !S.Stepped(sessions, k) {
        return StepUpNeeded;
      }
      if !currentOk {
        return BadCredentials;
      }
      if newLength < MIN_PASSWORD {
        return PasswordTooShort;
      }
      sessions := S.Apply(sessions, S.ChangePassword(k));
      reply := Granted(|sessions.issued| - 1, false);
    }

    method RevokeSessions(k: nat) returns (reply: Reply)
      modifies this`sessions
      ensures reply.Done? <==> old(S.Full(sessions, k))
      ensures sessions == if reply.Done? then S.Apply(old(sessions), S.Revoke(k)) else old(sessions)
    {
      if !S.Full(sessions, k) {
        return NotLoggedIn;
      }
      sessions := S.Apply(sessions, S.Revoke(k));
      reply := Done;
    }
  }
}
