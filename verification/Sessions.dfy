/**
 * Admin sessions (app/auth.py: new_session, session, refresh, stepup, bump_epoch; app/routes_auth.py). A signed token
 * cannot be forged, so the tokens a client can present are exactly those that have been issued, old ones included.
 */
module Sessions {
  import opened Options

  datatype Token = Token(epoch: int, iat: real, last: real, stepUp: real, enrolling: bool)

  /** The event that issued a token; `seconds` is how long the step-up was granted for. */
  datatype Via = SetUp | LogIn | Refreshed | SteppedUp(seconds: real) | Confirmed | PasswordChanged

  /** One issued token, the presented token it was issued for, and the time. */
  datatype Issue = Issue(token: Token, via: Via, parent: Option<nat>, at: real)

  /** The two lifetimes, in seconds. */
  datatype Limits = Limits(absolute: real, idle: real)

  datatype State = State(now: real, epoch: int, limits: Limits, issued: seq<Issue>)

  /** `new_session`: without an inherited start the session starts now. */
  function NewSession(s: State, stepUp: real, iat: Option<real>, enrolling: bool): Token
  {
    Token(s.epoch, if iat.Some? && iat.value != 0.0 then iat.value else s.now, s.now, stepUp, enrolling)
  }

  /** `session`: current epoch, inside both lifetimes. */
  predicate Accepted(s: State, k: nat)
  {
    && k < |s.issued|
    && var t := s.issued[k].token;
       t.epoch == s.epoch && s.now - t.iat <= s.limits.absolute && s.now - t.last <= s.limits.idle
  }

  predicate Full(s: State, k: nat)
  {
    Accepted(s, k) && !s.issued[k].token.enrolling
  }

  predicate Stepped(s: State, k: nat)
  {
    Full(s, k) && s.now <= s.issued[k].token.stepUp
  }

  datatype Step =
    | Tick(t: real)
    | Configure(limits: Limits)
    | DoSetUp(enrolling: bool)
    | DoLogIn(enrolling: bool)
    | Refresh(k: nat)
    | StepUp(k: nat, seconds: real)
    | Confirm(k: nat)
    | ChangePassword(k: nat)
    | Revoke(k: nat)
    | Cli

  predicate Enabled(s: State, st: Step)
  {
    match st
    case Tick(t) => s.now <= t
    case Refresh(k) => Full(s, k)
    case StepUp(k, seconds) => Full(s, k) && seconds > 0.0
    case Confirm(k) => Accepted(s, k)
    case ChangePassword(k) => Stepped(s, k)
    case Revoke(k) => Full(s, k)
    case _ => true
  }

  function Mint(s: State, token: Token, via: Via, parent: Option<nat>): State
  {
    s.(issued := s.issued + [Issue(token, via, parent, s.now)])
  }

  function Bumped(s: State): State
  {
    s.(epoch := s.epoch + 1)
  }

  function Apply(s: State, st: Step): State
    requires Enabled(s, st)
  {
    match st
    case Tick(t) => s.(now := t)
    case Configure(limits) => s.(limits := limits)
    case DoSetUp(enrolling) => Mint(Bumped(s), NewSession(Bumped(s), 0.0, None, enrolling), SetUp, None)
    case DoLogIn(enrolling) => Mint(s, NewSession(s, 0.0, None, enrolling), LogIn, None)
    case Refresh(k) =>
      var t := s.issued[k].token;
      Mint(s, NewSession(s, t.stepUp, Some(t.iat), false), Refreshed, Some(k))
    case StepUp(k, seconds) =>
      var t := s.issued[k].token;
      Mint(s, NewSession(s, s.now + seconds, Some(t.iat), false), SteppedUp(seconds), Some(k))
    case Confirm(k) => Mint(s, NewSession(s, s.issued[k].token.stepUp, None, false), Confirmed, Some(k))
    case ChangePassword(k) =>
      Mint(Bumped(s), NewSession(Bumped(s), 0.0, None, false), PasswordChanged, Some(k))
    case Revoke(_) => Bumped(s)
    case Cli => Bumped(s)
  }

  predicate Feasible(s: State, steps: seq<Step>)
    decreases |steps|
  {
    steps == [] || (Enabled(s, steps[0]) && Feasible(Apply(s, steps[0]), steps[1..]))
  }

  function After(s: State, steps: seq<Step>): State
    requires Feasible(s, steps)
    decreases |steps|
  {
    if steps == [] then s else After(Apply(s, steps[0]), steps[1..])
  }

  function Start(now: real, limits: Limits): State
  {
    State(now, 0, limits, [])
  }

  // ----- what every issued token satisfies -----

  predicate Inherits(via: Via)
  {
    via.Refreshed? || via.SteppedUp?
  }

  /** How an issued token relates to the one it was issued for. */
  predicate LineOk(issued: seq<Issue>, k: nat)
    requires k < |issued|
  {
    var i := issued[k];
    && 0.0 < i.token.iat <= i.at && i.token.last == i.at
    && (i.parent.Some? ==> i.parent.value < k)
    && (i.parent.None? <==> i.via.SetUp? || i.via.LogIn?)
    && (i.parent.Some? ==> !i.token.enrolling)
    && (!Inherits(i.via) ==> i.token.iat == i.at)
    && (Inherits(i.via) ==>
          var p := issued[i.parent.value].token;
          !p.enrolling && i.token.iat == p.iat && i.token.epoch == p.epoch)
    && (i.via.Refreshed? ==> i.token.stepUp == issued[i.parent.value].token.stepUp)
    && (i.via.Confirmed? ==> i.token.stepUp == issued[i.parent.value].token.stepUp
                             && i.token.epoch == issued[i.parent.value].token.epoch)
    && (i.via.SteppedUp? ==> i.token.stepUp == i.at + i.via.seconds)
    && (i.via.PasswordChanged? ==> !issued[i.parent.value].token.enrolling)
    && (i.via.SetUp? || i.via.LogIn? || i.via.PasswordChanged? ==> i.token.stepUp == 0.0)
  }

  predicate Inv(s: State)
  {
    && s.now > 0.0
    && forall k :: 0 <= k < |s.issued| ==>
         LineOk(s.issued, k) && s.issued[k].token.epoch <= s.epoch && s.issued[k].at <= s.now
  }

  /** What never goes back: the clock, the epoch, and the list of issued tokens. */
  predicate Later(s: State, s': State)
  {
    s.now <= s'.now && s.epoch <= s'.epoch && s.issued <= s'.issued
  }

  lemma LineOkGrows(issued: seq<Issue>, more: seq<Issue>, k: nat)
    requires k < |issued| && LineOk(issued, k)
    ensures LineOk(issued + more, k)
  {
    assert (issued + more)[k] == issued[k];
    if issued[k].parent.Some? {
      assert (issued + more)[issued[k].parent.value] == issued[issued[k].parent.value];
    }
  }

  lemma StepKeeps(s: State, st: Step)
    requires Inv(s) && Enabled(s, st)
    ensures Inv(Apply(s, st)) && Later(s, Apply(s, st))
  {
    var s' := Apply(s, st);
    forall k | 0 <= k < |s'.issued|
      ensures LineOk(s'.issued, k) && s'.issued[k].token.epoch <= s'.epoch && s'.issued[k].at <= s'.now {
      if k < |s.issued| {
        LineOkGrows(s.issued, s'.issued[|s.issued|..], k);
        assert s'.issued == s.issued + s'.issued[|s.issued|..];
      }
    }
  }

  lemma {:induction false} RunKeeps(s: State, steps: seq<Step>)
    requires Inv(s) && Feasible(s, steps)
    ensures Inv(After(s, steps)) && Later(s, After(s, steps))
    decreases |steps|
  {
    if steps != [] {
      StepKeeps(s, steps[0]);
      RunKeeps(Apply(s, steps[0]), steps[1..]);
    }
  }

  // ----- lifetimes -----

  /** While the epoch stands, a new session is accepted exactly until its shorter lifetime is over. */
  lemma NewSessionLives(s: State, enrolling: bool, t: real)
    requires s.now <= t
    ensures var s' := Apply(Apply(s, DoLogIn(enrolling)), Tick(t));
            && (Accepted(s', |s.issued|) <==> t <= s.now + s.limits.absolute && t <= s.now + s.limits.idle)
            && (Full(s', |s.issued|) <==> Accepted(s', |s.issued|) && !enrolling)
            && (t > 0.0 ==> !Stepped(s', |s.issued|))
  {
  }

  /** A refresh starts the idle time anew and leaves the absolute one alone. */
  lemma RefreshLives(s: State, k: nat, t: real)
    requires Inv(s) && Full(s, k) && s.now <= t
    ensures Enabled(s, Refresh(k))
    ensures var s' := Apply(Apply(s, Refresh(k)), Tick(t));
            && (Accepted(s', |s.issued|) <==>
                  t <= s.issued[k].token.iat + s.limits.absolute && t <= s.now + s.limits.idle)
            && (Full(s', |s.issued|) <==> Accepted(s', |s.issued|))
            && (Stepped(s', |s.issued|) <==> Accepted(s', |s.issued|) && t <= s.issued[k].token.stepUp)
  {
    assert LineOk(s.issued, k);
  }

  /** A step-up permits sensitive actions for exactly the time it was granted for, within the session's lifetimes. */
  lemma StepUpLives(s: State, k: nat, seconds: real, t: real)
    requires Inv(s) && Full(s, k) && seconds > 0.0 && s.now <= t
    ensures Enabled(s, StepUp(k, seconds))
    ensures var s' := Apply(Apply(s, StepUp(k, seconds)), Tick(t));
            && (Accepted(s', |s.issued|) <==>
                  t <= s.issued[k].token.iat + s.limits.absolute && t <= s.now + s.limits.idle)
            && (Stepped(s', |s.issued|) <==> Accepted(s', |s.issued|) && t <= s.now + seconds)
  {
    assert LineOk(s.issued, k);
  }

  // ----- lineage -----

  /** The token a chain of refreshes and step-ups started from. */
  function Origin(issued: seq<Issue>, k: nat): (o: nat)
    requires k < |issued|
    ensures o <= k
    decreases k
  {
    var i := issued[k];
    if Inherits(i.via) && i.parent.Some? && i.parent.value < k then Origin(issued, i.parent.value) else k
  }

  lemma {:induction false} OriginKeepsStart(issued: seq<Issue>, k: nat)
    requires k < |issued| && forall j :: 0 <= j < |issued| ==> LineOk(issued, j)
    ensures var o := Origin(issued, k);
            && !Inherits(issued[o].via)
            && issued[k].token.iat == issued[o].token.iat == issued[o].at
            && issued[k].token.epoch == issued[o].token.epoch
    decreases k
  {
    assert LineOk(issued, k);
    if Inherits(issued[k].via) {
      OriginKeepsStart(issued, issued[k].parent.value);
    }
  }

  /**
   * Refreshing and stepping up never prolong a session: whatever chain of them produced a token, it is not accepted
   * later than the absolute lifetime after the login (or enrollment, or password change) the chain began with.
   */
  lemma LifetimeIsAbsolute(now: real, limits: Limits, steps: seq<Step>, k: nat)
    requires now > 0.0 && Feasible(Start(now, limits), steps)
    requires Accepted(After(Start(now, limits), steps), k)
    ensures var s := After(Start(now, limits), steps);
            var o := Origin(s.issued, k);
            && !Inherits(s.issued[o].via) && s.issued[k].token.iat == s.issued[o].at
            && s.now <= s.issued[o].at + s.limits.absolute
  {
    RunKeeps(Start(now, limits), steps);
    OriginKeepsStart(After(Start(now, limits), steps).issued, k);
  }

  // ----- what does prolong a session -----

  /** Events that start the absolute lifetime anew for a client that is already logged in. */
  predicate Restarts(via: Via)
  {
    via.Confirmed? || via.PasswordChanged?
  }

  /** The login, or the setup, a token goes back to. */
  function Root(issued: seq<Issue>, k: nat): (o: nat)
    requires k < |issued|
    ensures o <= k
    decreases k
  {
    var i := issued[k];
    if i.parent.Some? && i.parent.value < k then Root(issued, i.parent.value) else k
  }

  /** A restart lies on the way from the login to the token. */
  predicate RestartedSince(issued: seq<Issue>, k: nat)
    requires k < |issued|
    decreases k
  {
    var i := issued[k];
    Restarts(i.via) || (i.parent.Some? && i.parent.value < k && RestartedSince(issued, i.parent.value))
  }

  lemma {:induction false} LifetimeBeginsExactly(issued: seq<Issue>, k: nat)
    requires k < |issued| && forall j :: 0 <= j < |issued| ==> LineOk(issued, j)
    ensures Origin(issued, k) == Root(issued, k) <==> !RestartedSince(issued, k)
    ensures Origin(issued, k) != Root(issued, k) ==> Restarts(issued[Origin(issued, k)].via)
    ensures Root(issued, k) <= Origin(issued, k)
    decreases k
  {
    assert LineOk(issued, k);
    if issued[k].parent.Some? {
      LifetimeBeginsExactly(issued, issued[k].parent.value);
    }
  }

  /**
   * A token's absolute lifetime counts from its login exactly if no confirmed enrollment and no password change lies
   * on its lineage; so a token accepted later than its login allows goes back to such a restart, and its lifetime
   * counts from there.
   */
  lemma OutlivesLoginOnlyByRestart(now: real, limits: Limits, steps: seq<Step>, k: nat)
    requires now > 0.0 && Feasible(Start(now, limits), steps)
    requires Accepted(After(Start(now, limits), steps), k)
    ensures var s := After(Start(now, limits), steps);
            var root, origin := Root(s.issued, k), Origin(s.issued, k);
            && (s.issued[root].via.LogIn? || s.issued[root].via.SetUp?)
            && (origin == root <==> !RestartedSince(s.issued, k))
            && (s.now > s.issued[root].at + s.limits.absolute ==>
                  Restarts(s.issued[origin].via) && s.now <= s.issued[origin].at + s.limits.absolute)
  {
    var s := After(Start(now, limits), steps);
    RunKeeps(Start(now, limits), steps);
    LifetimeBeginsExactly(s.issued, k);
    LifetimeIsAbsolute(now, limits, steps, k);
    RootIsLogin(s.issued, k);
  }

  lemma {:induction false} RootIsLogin(issued: seq<Issue>, k: nat)
    requires k < |issued| && forall j :: 0 <= j < |issued| ==> LineOk(issued, j)
    ensures issued[Root(issued, k)].via.LogIn? || issued[Root(issued, k)].via.SetUp?
    decreases k
  {
    assert LineOk(issued, k);
    if issued[k].parent.Some? {
      RootIsLogin(issued, issued[k].parent.value);
    }
  }

  /** Each restart does restart it: the token it issues lives as long as that of a new login. */
  lemma RestartLives(s: State, st: Step, t: real)
    requires Enabled(s, st) && (st.Confirm? || st.ChangePassword?) && s.now <= t
    ensures Restarts(Apply(s, st).issued[|s.issued|].via)
    ensures Accepted(Apply(Apply(s, st), Tick(t)), |s.issued|) <==>
            t <= s.now + s.limits.absolute && t <= s.now + s.limits.idle
  {
  }

  /**
   * So a client can stay logged in beyond the absolute lifetime of its login: it logs in, steps up, confirms a new
   * enrollment when its lifetime is about to end, and is still accepted for another one.
   */
  lemma ConfirmationOutlivesLogin(now: real, limits: Limits, seconds: real)
    requires now > 0.0 && 0.0 < limits.absolute <= limits.idle && seconds > 0.0
    ensures var a := limits.absolute;
            var steps := [DoLogIn(false)] + [StepUp(0, seconds), Tick(now + a), Confirm(1), Tick(now + a + a)];
            && Feasible(Start(now, limits), steps)
            && var s := After(Start(now, limits), steps);
            && Full(s, 2) && Root(s.issued, 2) == 0 && s.now == s.issued[0].at + 2.0 * limits.absolute
  {
    var a := limits.absolute;
    var s0 := Start(now, limits);
    var s1 := Apply(s0, DoLogIn(false));
    var s2 := Apply(s1, StepUp(0, seconds));
    var s3 := Apply(s2, Tick(now + a));
    var s4 := Apply(s3, Confirm(1));
    Then(s4, Tick(now + a + a), []);
    Then(s3, Confirm(1), [Tick(now + a + a)]);
    assert [Tick(now + a + a)] + [] == [Tick(now + a + a)];
    assert [Confirm(1)] + [Tick(now + a + a)] == [Confirm(1), Tick(now + a + a)];
    Then(s2, Tick(now + a), [Confirm(1), Tick(now + a + a)]);
    assert [Tick(now + a)] + [Confirm(1), Tick(now + a + a)] == [Tick(now + a), Confirm(1), Tick(now + a + a)];
    Then(s1, StepUp(0, seconds), [Tick(now + a), Confirm(1), Tick(now + a + a)]);
    assert [StepUp(0, seconds)] + [Tick(now + a), Confirm(1), Tick(now + a + a)]
           == [StepUp(0, seconds), Tick(now + a), Confirm(1), Tick(now + a + a)];
    Then(s0, DoLogIn(false), [StepUp(0, seconds), Tick(now + a), Confirm(1), Tick(now + a + a)]);
    assert s4.issued[2].parent == Some(1) && s4.issued[1].parent == Some(0) && s4.issued[0].parent == None;
    assert Root(s4.issued, 1) == Root(s4.issued, 0) == 0;
  }

  lemma Then(s: State, st: Step, rest: seq<Step>)
    requires Enabled(s, st) && Feasible(Apply(s, st), rest)
    ensures Feasible(s, [st] + rest) && After(s, [st] + rest) == After(Apply(s, st), rest)
  {
    assert ([st] + rest)[1..] == rest;
  }

  // ----- step-up -----

  /** The step-up a token's permission goes back to. */
  function StepSource(issued: seq<Issue>, k: nat): (o: nat)
    requires k < |issued|
    ensures o <= k
    decreases k
  {
    var i := issued[k];
    if (i.via.Refreshed? || i.via.Confirmed?) && i.parent.Some? && i.parent.value < k
    then StepSource(issued, i.parent.value) else k
  }

  lemma {:induction false} StepSourceGrants(issued: seq<Issue>, k: nat)
    requires k < |issued| && forall j :: 0 <= j < |issued| ==> LineOk(issued, j)
    ensures var o := StepSource(issued, k);
            && issued[k].token.stepUp == issued[o].token.stepUp
            && (issued[k].token.stepUp != 0.0 ==>
                  issued[o].via.SteppedUp? && issued[k].token.stepUp == issued[o].at + issued[o].via.seconds)
    decreases k
  {
    assert LineOk(issued, k);
    if issued[k].via.Refreshed? || issued[k].via.Confirmed? {
      StepSourceGrants(issued, issued[k].parent.value);
    }
  }

  /**
   * Refreshing never raises a step-up: who may take a sensitive action owes it to one step-up, made with a full
   * session no longer ago than that step-up was granted for.
   */
  lemma StepUpIsRecent(now: real, limits: Limits, steps: seq<Step>, k: nat)
    requires now > 0.0 && Feasible(Start(now, limits), steps)
    requires Stepped(After(Start(now, limits), steps), k)
    ensures var s := After(Start(now, limits), steps);
            var o := StepSource(s.issued, k);
            && s.issued[o].via.SteppedUp? && s.now <= s.issued[o].at + s.issued[o].via.seconds
            && s.issued[o].parent.Some? && s.issued[o].parent.value < |s.issued|
            && !s.issued[s.issued[o].parent.value].token.enrolling
  {
    RunKeeps(Start(now, limits), steps);
    var s := After(Start(now, limits), steps);
    StepSourceGrants(s.issued, k);
    assert LineOk(s.issued, StepSource(s.issued, k));
  }

  // ----- enrollment -----

  /** `k` was obtained, by any number of exchanges, from `p`. */
  predicate Descends(issued: seq<Issue>, k: nat, p: nat)
    requires k < |issued|
    decreases k
  {
    k == p || (issued[k].parent.Some? && issued[k].parent.value < k && Descends(issued, issued[k].parent.value, p))
  }

  /** The enrollment confirmation on the way from `p` to `k`. */
  lemma {:induction false} ConfirmedBetween(issued: seq<Issue>, k: nat, p: nat) returns (c: nat)
    requires k < |issued| && p < |issued| && Descends(issued, k, p)
    requires forall j :: 0 <= j < |issued| ==> LineOk(issued, j)
    requires issued[p].token.enrolling && !issued[k].token.enrolling
    ensures c < |issued| && issued[c].via.Confirmed? && Descends(issued, k, c) && Descends(issued, c, p)
    decreases k
  {
    assert LineOk(issued, k);
    var q := issued[k].parent.value;
    if issued[q].token.enrolling {
      c := k;
    } else {
      c := ConfirmedBetween(issued, q, p);
    }
  }

  /** A session that began as an enrollment becomes a full one only through a confirmed enrollment. */
  lemma EnrollmentNeedsConfirmation(now: real, limits: Limits, steps: seq<Step>, k: nat, p: nat) returns (c: nat)
    requires now > 0.0 && Feasible(Start(now, limits), steps)
    requires var s := After(Start(now, limits), steps);
             Full(s, k) && p < |s.issued| && s.issued[p].token.enrolling && Descends(s.issued, k, p)
    ensures var s := After(Start(now, limits), steps);
            && c < |s.issued| && s.issued[c].via.Confirmed?
            && Descends(s.issued, k, c) && Descends(s.issued, c, p)
  {
    RunKeeps(Start(now, limits), steps);
    c := ConfirmedBetween(After(Start(now, limits), steps).issued, k, p);
  }

  // ----- the epoch -----

  predicate Bumps(st: Step)
  {
    st.DoSetUp? || st.ChangePassword? || st.Revoke? || st.Cli?
  }

  /** After a password change, a revocation or a CLI reset, no token issued before is ever accepted again. */
  lemma BumpEndsSessions(now: real, limits: Limits, steps: seq<Step>, bump: Step, more: seq<Step>, k: nat)
    requires now > 0.0 && Feasible(Start(now, limits), steps)
    requires Bumps(bump) && Enabled(After(Start(now, limits), steps), bump)
    requires Feasible(Apply(After(Start(now, limits), steps), bump), more)
    requires k < |After(Start(now, limits), steps).issued|
    ensures !Accepted(After(Apply(After(Start(now, limits), steps), bump), more), k)
  {
    var s := After(Start(now, limits), steps);
    RunKeeps(Start(now, limits), steps);
    StepKeeps(s, bump);
    RunKeeps(Apply(s, bump), more);
    assert s.issued[k].token.epoch <= s.epoch < Apply(s, bump).epoch;
  }
}
