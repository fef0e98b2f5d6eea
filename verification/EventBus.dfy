/** The aggregation state as the process holds it (app/events.py): every flood key follows its own window. */
module EventBus {
  import opened Options
  import opened Flood

  type Key = (string, string)

  /** The messages of one key among all that were queued. */
  function For(out: seq<(Key, Message)>, k: Key): seq<Message>
  {
    if out == [] then []
    else For(out[..|out| - 1], k) + if out[|out| - 1].0 == k then [out[|out| - 1].1] else []
  }

  /** What the state says of one key. */
  function Of(agg: map<Key, Window>, outbox: seq<(Key, Message)>, k: Key): KeyState
  {
    KeyState(if k in agg then Some(agg[k]) else None, For(outbox, k))
  }

  class EventBus {
    var agg: map<Key, Window>
    var outbox: seq<(Key, Message)>

    constructor ()
      ensures forall k :: Of(agg, outbox, k) == FRESH
    {
      agg, outbox := map[], [];
    }

    method Enqueue(k: Key, m: Message)
      modifies this`outbox
      ensures outbox == old(outbox) + [(k, m)]
      ensures forall j :: For(outbox, j) == For(old(outbox), j) + if j == k then [m] else []
    {
      assert (outbox + [(k, m)])[..|outbox|] == outbox;
      outbox := outbox + [(k, m)];
    }

    /** `emit` for an event that is switched on and has a flood key. */
    method Emit(k: Key, now: real, w: real)
      modifies this
      ensures Of(agg, outbox, k) == Next(Of(old(agg), old(outbox), k), Op.Emit(now), w)
      ensures forall j :: j != k ==> Of(agg, outbox, j) == Of(old(agg), old(outbox), j)
    {
      if k in agg && now - agg[k].t0 < w {
        agg := agg[k := Window(agg[k].t0, agg[k].n + 1)];
        return;
      }
      agg := agg[k := Window(now, 0)];
      Enqueue(k, First(now));
    }

    /** The body of `_flush_agg` for one key of its copy. */
    method DrainKey(k: Key, now: real, w: real)
      requires k in agg
      modifies this
      ensures Of(agg, outbox, k) == Next(Of(old(agg), old(outbox), k), Flush(now), w)
      ensures forall j :: j != k ==> Of(agg, outbox, j) == Of(old(agg), old(outbox), j)
    {
      if now - agg[k].t0 >= w {
        if agg[k].n > 0 {
          Enqueue(k, Summary(agg[k].n, now));
        }
        agg := agg - {k};
      }
    }

    /** `_flush_agg`: one pass over a copy of the keys. */
    method FlushAgg(now: real, w: real)
      modifies this
      ensures forall k :: Of(agg, outbox, k) == Next(Of(old(agg), old(outbox), k), Flush(now), w)
    {
      var todo := agg.Keys;
      while todo != {}
        invariant todo <= old(agg).Keys
        invariant forall k :: k in todo ==> Of(agg, outbox, k) == Of(old(agg), old(outbox), k)
        invariant forall k :: k !in todo ==> Of(agg, outbox, k) == Next(Of(old(agg), old(outbox), k), Flush(now), w)
      {
        var k :| k in todo;
        assert Of(agg, outbox, k) == Of(old(agg), old(outbox), k);
        DrainKey(k, now, w);
        todo := todo - {k};
      }
    }
  }
}
