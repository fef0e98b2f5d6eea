/**
 * Timed agent grants (app/routes_admin.py: cr_agent, up_agent, toggle_agent, dup_agent; app/tasks.py:
 * ops_expiry_loop).
 */
module Grants {
  import opened Options
  import opened Registry

  /** A toggle-on of a timed agent. */
  datatype Grant = Grant(agent: string, at: real, minutes: int)

  /**
   * The agents, and history: every grant given, the grant each agent's `enabledUntil` goes back to, and the agents
   * that were copied from one with an end of grant and have not been toggled since.
   */
  datatype State = State(agents: map<string, Agent>, log: seq<Grant>, origin: map<string, Grant>, borrowed: set<string>)

  /** The fields an administrator sends; `autoOffMin` may be left out of an update. */
  datatype Form = Form(enabled: bool, autoOffMin: Option<int>, sets: seq<string>, allowedHosts: seq<string>)

  datatype Op =
    | Create(id: string, form: Form)
    | Update(id: string, form: Form)
    | Toggle(id: string, now: real)
    | Duplicate(id: string, suffix: string)
    | Delete(id: string)
    | Expire(now: real)

  const START := State(map[], [], map[], {})

  /** The id of a copy; the suffix is random. */
  function CopyId(id: string, suffix: string): string
  {
    id + "-copy-" + suffix
  }

  function Copied(a: Agent, copy: string): Agent
  {
    a.(id := copy, enabled := false)
  }

  function Minutes(form: Form): int
  {
    if form.autoOffMin.Some? then form.autoOffMin.value else 0
  }

  /** A new agent has no grant: a timed one is off until it is toggled on. */
  function Created(id: string, form: Form): Agent
  {
    Agent(id, form.enabled, Minutes(form), 0.0, form.sets, form.allowedHosts)
  }

  function Updated(before: Option<Agent>, id: string, form: Form): Agent
  {
    var minutes := if before.Some? && form.autoOffMin.None? then before.value.autoOffMin else Minutes(form);
    Agent(id, form.enabled, minutes, if minutes > 0 && before.Some? then before.value.enabledUntil else 0.0,
          form.sets, form.allowedHosts)
  }

  function Toggled(a: Agent, now: real): Agent
  {
    a.(enabled := !a.enabled,
       enabledUntil := if !a.enabled && a.autoOffMin > 0 then now + (a.autoOffMin * 60) as real else 0.0)
  }

  /** What the expiry loop does to one agent. */
  function Revoked(a: Agent, now: real): Agent
  {
    if a.enabled && a.autoOffMin > 0 && !(a.enabledUntil != 0.0 && now <= a.enabledUntil)
    then a.(enabled := false, enabledUntil := 0.0) else a
  }

  function RevokedAll(agents: map<string, Agent>, now: real): map<string, Agent>
  {
    map id | id in agents :: Revoked(agents[id], now)
  }

  /** The agents after one operation; what the routes refuse changes nothing. */
  function NextAgents(agents: map<string, Agent>, op: Op): map<string, Agent>
  {
    match op
    case Create(id, form) => if id in agents then agents else agents[id := Created(id, form)]
    case Update(id, form) => agents[id := Updated(Lookup(agents, id), id, form)]
    case Toggle(id, now) => if id in agents then agents[id := Toggled(agents[id], now)] else agents
    case Duplicate(id, suffix) =>
      if id in agents then agents[CopyId(id, suffix) := Copied(agents[id], CopyId(id, suffix))] else agents
    case Delete(id) => agents - {id}
    case Expire(now) => RevokedAll(agents, now)
  }

  /** The operation copies an end of grant to the agent `id`. */
  predicate Lends(agents: map<string, Agent>, op: Op, id: string)
  {
    op.Duplicate? && CopyId(op.id, op.suffix) == id && op.id in agents && agents[op.id].enabledUntil != 0.0
  }

  /** The operation gives the agent `id` a record of its own, or a grant of its own, or takes it away. */
  predicate Settles(agents: map<string, Agent>, op: Op, id: string)
  {
    || (op.Toggle? && op.id == id)
    || (op.Delete? && op.id == id)
    || (op.Duplicate? && CopyId(op.id, op.suffix) == id && op.id in agents && agents[op.id].enabledUntil == 0.0)
  }

  function BorrowedAfter(s: State, op: Op): set<string>
  {
    match op
    case Toggle(id, _) => s.borrowed - {id}
    case Delete(id) => s.borrowed - {id}
    case Duplicate(id, suffix) =>
      if id !in s.agents then s.borrowed
      else if s.agents[id].enabledUntil != 0.0 then s.borrowed + {CopyId(id, suffix)}
      else s.borrowed - {CopyId(id, suffix)}
    case _ => s.borrowed
  }

  function Next(s: State, op: Op): State
  {
    var s' := s.(agents := NextAgents(s.agents, op), borrowed := BorrowedAfter(s, op));
    match op
    case Toggle(id, now) =>
      if id in s.agents && !s.agents[id].enabled && s.agents[id].autoOffMin > 0 then
        var g := Grant(id, now, s.agents[id].autoOffMin);
        s'.(log := s.log + [g], origin := s.origin[id := g])
      else s'
    case Duplicate(id, suffix) =>
      if id in s.agents && id in s.origin then s'.(origin := s.origin[CopyId(id, suffix) := s.origin[id]]) else s'
    case _ => s'
  }

  function After(ops: seq<Op>): State
  {
    if ops == [] then START else Next(After(ops[..|ops| - 1]), ops[|ops| - 1])
  }

  /** An end of grant goes back to a grant: to the agent's own, or, exactly if it is borrowed, to that of another. */
  predicate GrantOk(s: State, id: string)
    requires id in s.agents
  {
    s.agents[id].enabledUntil != 0.0 ==>
      && id in s.origin && s.origin[id] in s.log && s.origin[id].minutes > 0
      && s.agents[id].enabledUntil == s.origin[id].at + (s.origin[id].minutes * 60) as real
      && (if id in s.borrowed then |s.origin[id].agent| < |id| else s.origin[id].agent == id)
  }

  predicate Inv(s: State)
  {
    s.borrowed <= s.agents.Keys && forall id :: id in s.agents ==> GrantOk(s, id)
  }

  lemma NextKeeps(s: State, op: Op)
    requires Inv(s)
    ensures Inv(Next(s, op))
  {
    var s' := Next(s, op);
    forall id | id in s'.agents
      ensures GrantOk(s', id)
    {
      assert id in s.agents ==> GrantOk(s, id);
      if op.Duplicate? && op.id in s.agents {
        assert GrantOk(s, op.id);
      }
    }
  }

  lemma {:induction false} RunKeeps(ops: seq<Op>)
    ensures Inv(After(ops))
  {
    if ops != [] {
      RunKeeps(ops[..|ops| - 1]);
      NextKeeps(After(ops[..|ops| - 1]), ops[|ops| - 1]);
    }
  }

  /** Every recorded grant is a toggle-on of the run, of an agent that was off and timed with those minutes. */
  lemma {:induction false} GrantsAreToggles(ops: seq<Op>, g: Grant) returns (k: nat)
    requires g in After(ops).log
    ensures k < |ops| && ops[k] == Toggle(g.agent, g.at)
    ensures var s := After(ops[..k]);
            g.agent in s.agents && !s.agents[g.agent].enabled && s.agents[g.agent].autoOffMin == g.minutes > 0
  {
    var n := |ops| - 1;
    if g in After(ops[..n]).log {
      k := GrantsAreToggles(ops[..n], g);
      assert ops[..n][..k] == ops[..k];
    } else {
      k := n;
    }
  }

  /** The last operation that decides about `id` copied it from an agent with an end of grant. */
  predicate LentAt(ops: seq<Op>, id: string, i: nat)
    requires i < |ops|
  {
    && Lends(After(ops[..i]).agents, ops[i], id)
    && forall j :: i < j < |ops| ==> !Settles(After(ops[..j]).agents, ops[j], id)
  }

  lemma LentInPrefix(ops: seq<Op>, id: string, i: nat)
    requires i < |ops| - 1
    ensures LentAt(ops, id, i) <==>
            LentAt(ops[..|ops| - 1], id, i) && !Settles(After(ops[..|ops| - 1]).agents, ops[|ops| - 1], id)
  {
    var n := |ops| - 1;
    assert forall j :: 0 <= j < n ==> ops[..n][..j] == ops[..j] && ops[..n][j] == ops[j];
  }

  predicate Lent(ops: seq<Op>, id: string)
  {
    exists i :: 0 <= i < |ops| && LentAt(ops, id, i)
  }

  lemma LentNext(ops: seq<Op>, id: string)
    requires ops != []
    ensures var n := |ops| - 1;
            var agents := After(ops[..n]).agents;
            Lent(ops, id) <==> Lends(agents, ops[n], id) || (Lent(ops[..n], id) && !Settles(agents, ops[n], id))
  {
    var n := |ops| - 1;
    if Lends(After(ops[..n]).agents, ops[n], id) {
      assert LentAt(ops, id, n);
    } else if Lent(ops, id) {
      var i :| 0 <= i < |ops| && LentAt(ops, id, i);
      LentInPrefix(ops, id, i);
    } else if Lent(ops[..n], id) {
      var i :| 0 <= i < n && LentAt(ops[..n], id, i);
      LentInPrefix(ops, id, i);
    }
  }

  /** An agent is borrowing exactly if it was copied from one with an end of grant and has not been toggled since. */
  lemma {:induction false} BorrowedExactly(ops: seq<Op>, id: string)
    ensures id in After(ops).borrowed <==> Lent(ops, id)
  {
    if ops != [] {
      BorrowedExactly(ops[..|ops| - 1], id);
      LentNext(ops, id);
    }
  }

  /**
   * A timed agent is active only inside a grant: some agent was toggled on at a moment t0, and the time is not past t0
   * plus the minutes configured then. It is another agent than itself exactly if it was copied from one with an end of
   * grant and has not been toggled since.
   */
  lemma ActiveOnlyInsideAGrant(ops: seq<Op>, id: string, t: real) returns (k: nat)
    requires id in After(ops).agents && After(ops).agents[id].autoOffMin > 0 && ActiveAt(After(ops).agents[id], t)
    ensures k < |ops| && ops[k].Toggle? && ops[k].id in After(ops[..k]).agents
    ensures var a := After(ops[..k]).agents[ops[k].id];
            && !a.enabled && a.autoOffMin > 0
            && After(ops).agents[id].enabledUntil == ops[k].now + (a.autoOffMin * 60) as real >= t
    ensures ops[k].id != id <==> Lent(ops, id)
  {
    RunKeeps(ops);
    BorrowedExactly(ops, id);
    assert GrantOk(After(ops), id);
    k := GrantsAreToggles(ops, After(ops).origin[id]);
  }

  /**
   * A copy may be active although it was never toggled on itself: an update that enables it revives the grant it
   * copied.
   */
  lemma CopyInheritsTheGrant(id: string, suffix: string, minutes: int, now: real)
    requires minutes > 0 && now > 0.0
    ensures var form, copy := Form(true, Some(minutes), [], []), CopyId(id, suffix);
            var ops := [Create(id, form.(enabled := false)), Toggle(id, now), Duplicate(id, suffix), Update(copy, form)];
            copy in After(ops).agents && ActiveAt(After(ops).agents[copy], now)
  {
    var form, copy := Form(true, Some(minutes), [], []), CopyId(id, suffix);
    var ops := [Create(id, form.(enabled := false)), Toggle(id, now), Duplicate(id, suffix), Update(copy, form)];
    assert |copy| > |id|;
    assert ops[..1] == [Create(id, form.(enabled := false))] && ops[..2][..1] == ops[..1];
    assert ops[..3][..2] == ops[..2] && ops[..4] == ops && ops[..4][..3] == ops[..3];
    assert After(ops[..1][..0]) == START;
    assert After(ops[..1]).agents[id] == Created(id, form.(enabled := false));
    assert After(ops[..2]).agents[id].enabledUntil == now + (minutes * 60) as real;
    assert After(ops[..3]).agents[copy].enabledUntil == now + (minutes * 60) as real;
  }

  /** Toggling a timed agent on makes it active for exactly the configured minutes; toggling off ends its grant. */
  lemma ToggleGrantsExactly(a: Agent, now: real, t: real)
    requires a.autoOffMin > 0 && now >= 0.0
    ensures ActiveAt(Toggled(a, now), t) <==> !a.enabled && t <= now + (a.autoOffMin * 60) as real
    ensures a.enabled ==> Toggled(a, now).enabledUntil == 0.0
  {
    assert (a.autoOffMin * 60) as real > 0.0;
  }

  /** A permanent agent is usable exactly while it is switched on; toggling switches, and touches nothing else. */
  lemma ToggleSwitches(a: Agent, now: real, t: real)
    ensures Toggled(a, now) == a.(enabled := !a.enabled, enabledUntil := Toggled(a, now).enabledUntil)
    ensures a.autoOffMin <= 0 ==> Toggled(a, now).enabledUntil == 0.0 && (ActiveAt(Toggled(a, now), t) <==> !a.enabled)
    ensures ActiveAt(a, t) ==> a.enabled
  {
  }

  /** The expiry loop changes no verdict: who is active at any time from the sweep on was active without it. */
  lemma ExpiryChangesNoVerdict(agents: map<string, Agent>, now: real, id: string, t: real)
    requires id in agents && now <= t
    ensures ActiveAt(RevokedAll(agents, now)[id], t) == ActiveAt(agents[id], t)
    ensures !ActiveAt(agents[id], now) && agents[id].autoOffMin > 0 ==> !RevokedAll(agents, now)[id].enabled
  {
    assert RevokedAll(agents, now)[id] == Revoked(agents[id], now);
  }

  class AgentStore {
    var agents: map<string, Agent>

    constructor ()
      ensures agents == map[]
    {
      agents := map[];
    }

    method CreateAgent(id: string, form: Form) returns (ok: bool)
      modifies this
      ensures ok <==> id !in old(agents)
      ensures agents == NextAgents(old(agents), Create(id, form))
      ensures ok ==> agents == old(agents)[id := Agent(id, form.enabled, agents[id].autoOffMin, 0.0, form.sets,
                                                       form.allowedHosts)]
                     && agents[id].autoOffMin == (if form.autoOffMin == None then 0 else form.autoOffMin.value)
    {
      if id in agents {
        return false;
      }
      agents := agents[id := Agent(id, form.enabled, Minutes(form), 0.0, form.sets, form.allowedHosts)];
      ok := true;
    }

    method UpdateAgent(id: string, form: Form)
      modifies this
      ensures agents == NextAgents(old(agents), Update(id, form))
      ensures id in agents && agents == old(agents)[id := agents[id]]
      ensures var a := agents[id];
              && a == Agent(id, form.enabled, a.autoOffMin, a.enabledUntil, form.sets, form.allowedHosts)
              && (form.autoOffMin.Some? ==> a.autoOffMin == form.autoOffMin.value)
              && (form.autoOffMin.None? ==> a.autoOffMin == if id in old(agents) then old(agents)[id].autoOffMin else 0)
              && a.enabledUntil == if id in old(agents) && a.autoOffMin > 0 then old(agents)[id].enabledUntil else 0.0
    {
      var minutes := Minutes(form);
      if id in agents && form.autoOffMin.None? {
        minutes := agents[id].autoOffMin;
      }
      var until := 0.0;
      if minutes > 0 && id in agents {
        until := agents[id].enabledUntil;
      }
      agents := agents[id := Agent(id, form.enabled, minutes, until, form.sets, form.allowedHosts)];
    }

    method ToggleAgent(id: string, now: real) returns (ok: bool)
      modifies this
      ensures ok <==> id in old(agents)
      ensures agents == NextAgents(old(agents), Toggle(id, now))
    {
      if id !in agents {
        return false;
      }
      var a := agents[id];
      a := a.(enabled := !a.enabled);
      var ttl := a.autoOffMin;
      a := a.(enabledUntil := if a.enabled && ttl > 0 then now + (ttl * 60) as real else 0.0);
      agents := agents[id := a];
      ok := true;
    }

    method DuplicateAgent(id: string, suffix: string) returns (ok: bool)
      modifies this
      ensures ok <==> id in old(agents)
      ensures agents == NextAgents(old(agents), Duplicate(id, suffix))
      ensures ok ==> var copy := id + "-copy-" + suffix;
                     agents == old(agents)[copy := old(agents)[id].(id := copy, enabled := false)]
    {
      if id !in agents {
        return false;
      }
      var a := agents[id];
      a := a.(id := id + "-copy-" + suffix);
      a := a.(enabled := false);
      agents := agents[a.id := a];
      ok := true;
    }

    /** One round of `ops_expiry_loop`: it walks a copy of the list and writes each expired agent back. */
    method ExpireGrants(now: real)
      modifies this
      ensures agents == NextAgents(old(agents), Expire(now))
      ensures agents.Keys == old(agents).Keys
      ensures forall id :: id in agents ==>
                var a := old(agents)[id];
                agents[id] == if a.enabled && a.autoOffMin > 0 && (a.enabledUntil == 0.0 || now > a.enabledUntil)
                              then a.(enabled := false, enabledUntil := 0.0) else a
    {
      var todo := agents.Keys;
      while todo != {}
        invariant todo <= agents.Keys == old(agents).Keys
        invariant forall id :: id in agents ==>
                    agents[id] == if id in todo then old(agents)[id] else Revoked(old(agents)[id], now)
      {
        var id :| id in todo;
        var a := agents[id];
        if a.enabled && a.autoOffMin > 0 && !(a.enabledUntil != 0.0 && now <= a.enabledUntil) {
          a := a.(enabled := false, enabledUntil := 0.0);
          agents := agents[id := a];
        }
        todo := todo - {id};
      }
    }
  }
}
