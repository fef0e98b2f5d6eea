/** The 5-second cache of command sets (app/storage.py: get_command_set, upsert_command_set, delete_command_set). */
module SetCache {
  import opened Options
  import opened Registry

  const TTL := 5.0

  datatype Cached = Cached(found: Option<CommandSet>, expires: real)

  /** The uncached lookup: the first set with the id. */
  function Find(sets: seq<CommandSet>, id: string): Option<CommandSet>
  {
    if sets == [] then None else if sets[0].id == id then Some(sets[0]) else Find(sets[1..], id)
  }

  function Upserted(sets: seq<CommandSet>, cs: CommandSet): seq<CommandSet>
  {
    if sets == [] then [cs]
    else if sets[0].id == cs.id then [cs] + sets[1..]
    else [sets[0]] + Upserted(sets[1..], cs)
  }

  function Removed(sets: seq<CommandSet>, id: string): seq<CommandSet>
  {
    if sets == [] then []
    else if sets[0].id == id then Removed(sets[1..], id)
    else [sets[0]] + Removed(sets[1..], id)
  }

  lemma {:induction false} FindUpserted(sets: seq<CommandSet>, cs: CommandSet, id: string)
    ensures Find(Upserted(sets, cs), id) == if id == cs.id then Some(cs) else Find(sets, id)
  {
    if sets != [] && sets[0].id != cs.id {
      FindUpserted(sets[1..], cs, id);
    }
  }

  lemma {:induction false} FindRemoved(sets: seq<CommandSet>, gone: string, id: string)
    ensures Find(Removed(sets, gone), id) == if id == gone then None else Find(sets, id)
  {
    if sets != [] {
      FindRemoved(sets[1..], gone, id);
    }
  }

  lemma {:induction false} RemovedShrinks(sets: seq<CommandSet>, id: string)
    ensures |Removed(sets, id)| <= |sets|
    ensures |Removed(sets, id)| < |sets| <==> Find(sets, id).Some?
  {
    if sets != [] {
      RemovedShrinks(sets[1..], id);
    }
  }

  /** The lookup finds the first set with the id. */
  lemma {:induction false} FindExactly(sets: seq<CommandSet>, id: string)
    ensures Find(sets, id).None? <==> forall j :: 0 <= j < |sets| ==> sets[j].id != id
    ensures forall k :: 0 <= k < |sets| && sets[k].id == id && (forall j :: 0 <= j < k ==> sets[j].id != id) ==>
              Find(sets, id) == Some(sets[k])
  {
    if sets != [] {
      FindExactly(sets[1..], id);
      forall k | 0 < k < |sets| && sets[k].id == id && (forall j :: 0 <= j < k ==> sets[j].id != id)
        ensures Find(sets, id) == Some(sets[k])
      {
        assert sets[1..][k - 1] == sets[k];
      }
    }
  }

  /** What is left are the sets with other ids, in their order. */
  lemma {:induction false} RemovedExactly(sets: seq<CommandSet>, id: string, cs: CommandSet)
    ensures Removed(sets + [cs], id) == if cs.id == id then Removed(sets, id) else Removed(sets, id) + [cs]
    ensures Removed([], id) == []
    decreases |sets|
  {
    var t := sets + [cs];
    if sets == [] {
      assert t == [cs] && t[1..] == [];
    } else {
      assert t[1..] == sets[1..] + [cs] && t[0] == sets[0];
      RemovedExactly(sets[1..], id, cs);
    }
  }

  // ----- the cache as values -----

  datatype Store = Store(sets: seq<CommandSet>, cache: map<string, Cached>)

  datatype Op =
    | Get(id: string, now: real)
    | Upsert(cs: CommandSet, now: real)
    | Delete(id: string, now: real)
    | Import(sets: seq<CommandSet>, now: real)

  predicate Hit(s: Store, id: string, now: real)
  {
    id in s.cache && s.cache[id].expires > now
  }

  /** What `get_command_set` answers. */
  function Answer(s: Store, id: string, now: real): Option<CommandSet>
  {
    if Hit(s, id, now) then s.cache[id].found else Find(s.sets, id)
  }

  function Next(s: Store, op: Op): Store
  {
    match op
    case Get(id, now) =>
      if Hit(s, id, now) then s else s.(cache := s.cache[id := Cached(Find(s.sets, id), now + TTL)])
    case Upsert(cs, _) => Store(Upserted(s.sets, cs), s.cache - {cs.id})
    case Delete(id, _) =>
      if |Removed(s.sets, id)| == |s.sets| then s else Store(Removed(s.sets, id), s.cache - {id})
    case Import(sets, _) => s.(sets := sets)
  }

  function After(s: Store, ops: seq<Op>): Store
  {
    if ops == [] then s else Next(After(s, ops[..|ops| - 1]), ops[|ops| - 1])
  }

  predicate Ordered(ops: seq<Op>)
  {
    forall i, j :: 0 <= i < j < |ops| ==> ops[i].now <= ops[j].now
  }

  /** Each entry is what a lookup would find now, or older than the last import and so about to expire. */
  ghost predicate EntriesOk(s: Store, until: real)
  {
    forall id :: id in s.cache ==> s.cache[id].found == Find(s.sets, id) || s.cache[id].expires <= until
  }

  lemma NextKeepsEntries(s: Store, op: Op, until: real)
    requires EntriesOk(s, until) && !op.Import?
    ensures EntriesOk(Next(s, op), until)
  {
    if op.Upsert? {
      forall id {
        FindUpserted(s.sets, op.cs, id);
      }
    } else if op.Delete? {
      forall id {
        FindRemoved(s.sets, op.id, id);
      }
    }
  }

  predicate ExpiresBy(s: Store, t: real)
  {
    forall id :: id in s.cache ==> s.cache[id].expires <= t + TTL
  }

  lemma {:induction false} ExpirySoon(ops: seq<Op>, t: real)
    requires forall i :: 0 <= i < |ops| ==> ops[i].now <= t
    ensures ExpiresBy(After(Store([], map[]), ops), t)
  {
    if ops != [] {
      ExpirySoon(ops[..|ops| - 1], t);
    }
  }

  /** The time of the last import of a run, or a time before everything. */
  function LastImport(ops: seq<Op>, before: real): real
  {
    if ops == [] then before
    else if ops[|ops| - 1].Import? then ops[|ops| - 1].now
    else LastImport(ops[..|ops| - 1], before)
  }

  lemma {:induction false} EntriesAreCurrent(ops: seq<Op>, before: real)
    requires Ordered(ops)
    ensures EntriesOk(After(Store([], map[]), ops), LastImport(ops, before) + TTL)
  {
    if ops != [] {
      var n := |ops| - 1;
      EntriesAreCurrent(ops[..n], before);
      if ops[n].Import? {
        ExpirySoon(ops[..n], ops[n].now);
      } else {
        NextKeepsEntries(After(Store([], map[]), ops[..n]), ops[n], LastImport(ops, before) + TTL);
      }
    }
  }

  /**
   * While sets change only by upsert and delete, the cached lookup answers what the uncached one would, absences
   * included; after an import it does so again from five seconds on.
   */
  lemma LookupIsCurrent(ops: seq<Op>, id: string, now: real, before: real)
    requires Ordered(ops)
    requires (forall i :: 0 <= i < |ops| ==> !ops[i].Import?) || LastImport(ops, before) + 5.0 <= now
    ensures var s := After(Store([], map[]), ops);
            Answer(s, id, now) == Find(s.sets, id)
  {
    if forall i :: 0 <= i < |ops| ==> !ops[i].Import? {
      NoImport(ops, now - TTL);
      EntriesAreCurrent(ops, now - TTL);
    } else {
      EntriesAreCurrent(ops, before);
    }
  }

  lemma {:induction false} NoImport(ops: seq<Op>, before: real)
    requires forall i :: 0 <= i < |ops| ==> !ops[i].Import?
    ensures LastImport(ops, before) == before
  {
    if ops != [] {
      NoImport(ops[..|ops| - 1], before);
    }
  }

  /**
   * After an import, until the next change, a lookup differs from the uncached one exactly when a cached answer has
   * not expired and the import changed what it answered.
   */
  lemma ImportLagsExactly(ops: seq<Op>, sets: seq<CommandSet>, at: real, id: string, now: real)
    requires Ordered(ops) && (forall i :: 0 <= i < |ops| ==> ops[i].now <= at) && at <= now
    requires forall i :: 0 <= i < |ops| ==> !ops[i].Import?
    ensures var before := After(Store([], map[]), ops);
            var s := After(Store([], map[]), ops + [Import(sets, at)]);
            Answer(s, id, now) != Find(s.sets, id) <==> Hit(before, id, now) && Find(before.sets, id) != Find(sets, id)
  {
    assert (ops + [Import(sets, at)])[..|ops|] == ops;
    LookupIsCurrent(ops, id, now, now);
  }

  /** The lag is real: a set looked up just before an import that removes it is still answered just before 5 s. */
  lemma ImportMayLag(cs: CommandSet, now: real)
    requires 0.0 < now < 5.0
    ensures var s := After(Store([], map[]), [Upsert(cs, 0.0), Get(cs.id, 0.0), Import([], 0.0)]);
            Answer(s, cs.id, now) == Some(cs) && Find(s.sets, cs.id) == None
  {
    var ops := [Upsert(cs, 0.0), Get(cs.id, 0.0), Import([], 0.0)];
    assert ops[..2][..1] == [Upsert(cs, 0.0)] && ops[..2] == [Upsert(cs, 0.0), Get(cs.id, 0.0)];
    assert After(Store([], map[]), [Upsert(cs, 0.0)]) == Store([cs], map[] - {cs.id});
    assert After(Store([], map[]), ops[..2]).cache[cs.id] == Cached(Some(cs), TTL);
  }

  method Others(sets: seq<CommandSet>, id: string) returns (n: seq<CommandSet>)
    ensures n == Removed(sets, id)
  {
    n := [];
    for k := 0 to |sets|
      invariant Removed(sets, id) == n + Removed(sets[k..], id)
    {
      if sets[k].id != id {
        n := n + [sets[k]];
      }
    }
  }

  /** The first set with the id is replaced where it stands; without one, the set is appended. */
  lemma {:induction false} UpsertedAt(sets: seq<CommandSet>, cs: CommandSet, k: nat)
    requires k <= |sets| && (forall j :: 0 <= j < k ==> sets[j].id != cs.id) && (k < |sets| ==> sets[k].id == cs.id)
    ensures Upserted(sets, cs) == if k < |sets| then sets[k := cs] else sets + [cs]
    decreases |sets|
  {
    if k > 0 {
      assert sets == [sets[0]] + sets[1..];
      UpsertedAt(sets[1..], cs, k - 1);
    }
  }

  method ReplaceOrAppend(sets: seq<CommandSet>, cs: CommandSet) returns (r: seq<CommandSet>)
    ensures r == Upserted(sets, cs)
  {
    var k := 0;
    while k < |sets| && sets[k].id != cs.id
      invariant 0 <= k <= |sets| && forall j :: 0 <= j < k ==> sets[j].id != cs.id
    {
      k := k + 1;
    }
    UpsertedAt(sets, cs, k);
    r := if k < |sets| then sets[k := cs] else sets + [cs];
  }

  // ----- the cache as the process holds it -----

  class CommandSetStore {
    var sets: seq<CommandSet>
    var cache: map<string, Cached>

    function View(): Store
      reads this
    {
      Store(sets, cache)
    }

    constructor ()
      ensures View() == Store([], map[])
    {
      sets, cache := [], map[];
    }

    method GetCommandSet(id: string, now: real) returns (found: Option<CommandSet>)
      modifies this`cache
      ensures found == Answer(old(View()), id, now) && View() == Next(old(View()), Get(id, now))
    {
      if id in cache && cache[id].expires > now {
        return cache[id].found;
      }
      var k := 0;
      while k < |sets| && sets[k].id != id
        invariant 0 <= k <= |sets| && Find(sets, id) == Find(sets[k..], id)
      {
        k := k + 1;
      }
      found := if k < |sets| then Some(sets[k]) else None;
      cache := cache[id := Cached(found, now + TTL)];
    }

    method UpsertCommandSet(cs: CommandSet, ghost now: real)
      modifies this
      ensures View() == Next(old(View()), Upsert(cs, now))
    {
      sets := ReplaceOrAppend(sets, cs);
      cache := cache - {cs.id};
    }

    method DeleteCommandSet(id: string, ghost now: real) returns (found: bool)
      modifies this
      ensures View() == Next(old(View()), Delete(id, now))
      ensures found <==> Find(old(sets), id).Some?
    {
      var n := Others(sets, id);
      RemovedShrinks(sets, id);
      found := |n| != |sets|;
      if found {
        sets := n;
        cache := cache - {id};
      }
    }

    /** `import_backup` saves the sets without touching the cache. */
    method ImportSets(imported: seq<CommandSet>, ghost now: real)
      modifies this`sets
      ensures View() == Next(old(View()), Import(imported, now))
    {
      sets := imported;
    }
  }
}
