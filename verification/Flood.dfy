/**
 * Flood aggregation (app/events.py: emit, _flush_agg): the first event of a key is sent at once, the following ones of
 * its window are only counted, and the count is sent as one summary when the window is drained.
 */
module Flood {
  import opened Options

  datatype Window = Window(t0: real, n: nat)

  datatype Message = First(at: real) | Summary(count: nat, at: real)

  /** One flood key: its open window and the messages queued for it. */
  datatype KeyState = KeyState(window: Option<Window>, out: seq<Message>)

  datatype Op = Emit(now: real) | Flush(now: real)

  const FRESH := KeyState(None, [])

  predicate Open(ks: KeyState, now: real, w: real)
  {
    ks.window.Some? && now - ks.window.value.t0 < w
  }

  function Next(ks: KeyState, op: Op, w: real): KeyState
  {
    match op
    case Emit(now) =>
      if Open(ks, now, w) then ks.(window := Some(Window(ks.window.value.t0, ks.window.value.n + 1)))
      else KeyState(Some(Window(now, 0)), ks.out + [First(now)])
    case Flush(now) =>
      if ks.window.None? || Open(ks, now, w) then ks
      else KeyState(None, if ks.window.value.n > 0 then ks.out + [Summary(ks.window.value.n, now)] else ks.out)
  }

  function After(ops: seq<Op>, w: real): KeyState
  {
    if ops == [] then FRESH else Next(After(ops[..|ops| - 1], w), ops[|ops| - 1], w)
  }

  // ----- counting -----

  function Emits(ops: seq<Op>): nat
  {
    if ops == [] then 0 else Emits(ops[..|ops| - 1]) + if ops[|ops| - 1].Emit? then 1 else 0
  }

  function Firsts(out: seq<Message>): nat
  {
    if out == [] then 0 else Firsts(out[..|out| - 1]) + if out[|out| - 1].First? then 1 else 0
  }

  function Summed(out: seq<Message>): nat
  {
    if out == [] then 0
    else Summed(out[..|out| - 1]) + if out[|out| - 1].Summary? then out[|out| - 1].count else 0
  }

  function Live(ks: KeyState): nat
  {
    if ks.window.Some? then ks.window.value.n else 0
  }

  /** The counts overwritten by events that re-opened an expired window before it was drained. */
  function Dropped(ops: seq<Op>, w: real): nat
  {
    if ops == [] then 0
    else
      var before, op := ops[..|ops| - 1], ops[|ops| - 1];
      Dropped(before, w)
      + if op.Emit? && !Open(After(before, w), op.now, w) then Live(After(before, w)) else 0
  }

  lemma OutNext(out: seq<Message>, m: Message)
    ensures Firsts(out + [m]) == Firsts(out) + if m.First? then 1 else 0
    ensures Summed(out + [m]) == Summed(out) + if m.Summary? then m.count else 0
  {
    assert (out + [m])[..|out|] == out;
  }

  /** Every event is sent, counted in a summary, still counted in the open window, or among the dropped. */
  lemma {:induction false} EveryEventIsAccountedFor(ops: seq<Op>, w: real)
    ensures var ks := After(ops, w);
            Emits(ops) == Firsts(ks.out) + Summed(ks.out) + Live(ks) + Dropped(ops, w)
  {
    if ops != [] {
      var before, op := ops[..|ops| - 1], ops[|ops| - 1];
      EveryEventIsAccountedFor(before, w);
      var ks := After(before, w);
      OutNext(ks.out, First(op.now));
      OutNext(ks.out, Summary(Live(ks), op.now));
    }
  }

  /** The `i`-th use is an event that re-opens an expired window which still holds a count. */
  predicate LosesAt(ops: seq<Op>, i: nat, w: real)
    requires i < |ops|
  {
    ops[i].Emit? && !Open(After(ops[..i], w), ops[i].now, w) && Live(After(ops[..i], w)) > 0
  }

  lemma LosesInPrefix(ops: seq<Op>, n: nat, i: nat, w: real)
    requires i < n <= |ops|
    ensures LosesAt(ops[..n], i, w) <==> LosesAt(ops, i, w)
  {
    assert ops[..n][..i] == ops[..i];
  }

  /** Nothing is dropped exactly when no event ever re-opened an expired window that still held a count. */
  lemma {:induction false} DroppedExactly(ops: seq<Op>, w: real)
    ensures Dropped(ops, w) == 0 <==> forall i :: 0 <= i < |ops| ==> !LosesAt(ops, i, w)
  {
    if ops != [] {
      var n := |ops| - 1;
      DroppedExactly(ops[..n], w);
      forall i | 0 <= i < n ensures LosesAt(ops[..n], i, w) <==> LosesAt(ops, i, w) {
        LosesInPrefix(ops, n, i, w);
      }
      var ks := After(ops[..n], w);
      assert LosesAt(ops, n, w) <==> ops[n].Emit? && !Open(ks, ops[n].now, w) && Live(ks) > 0;
    }
  }

  /** A count can be lost: two events in one window, the next one after its end but before the drain. */
  lemma ACountCanBeLost(w: real)
    requires w > 1.0
    ensures Dropped([Emit(0.0), Emit(1.0), Emit(w)], w) == 1
  {
    var ops := [Emit(0.0), Emit(1.0), Emit(w)];
    assert ops[..2][..1] == [Emit(0.0)] && ops[..2] == [Emit(0.0), Emit(1.0)];
    assert After([Emit(0.0)], w) == KeyState(Some(Window(0.0, 0)), [First(0.0)]);
    assert After(ops[..2], w) == KeyState(Some(Window(0.0, 1)), [First(0.0)]);
    assert Dropped([Emit(0.0)], w) == 0;
    assert Dropped(ops[..2], w) == 0;
  }

  /**
   * Draining closes a window that is over, with a summary of what it counted, and leaves an open one alone; so from then on
   * every event is sent, summarised or dropped, until the next one comes.
   */
  lemma FlushSendsTheCount(ops: seq<Op>, now: real, w: real)
    ensures var ks, ks' := After(ops, w), After(ops + [Flush(now)], w);
            if ks.window.Some? && now >= ks.window.value.t0 + w then
              && ks'.window == None
              && ks'.out == ks.out + (if ks.window.value.n > 0 then [Summary(ks.window.value.n, now)] else [])
              && Emits(ops) == Firsts(ks'.out) + Summed(ks'.out) + Dropped(ops, w)
            else ks' == ks
  {
    var ks := After(ops, w);
    assert (ops + [Flush(now)])[..|ops|] == ops;
    EveryEventIsAccountedFor(ops, w);
    OutNext(ks.out, Summary(Live(ks), now));
  }

  /** An event is sent at once exactly if the key has no open window; else it is counted in it. */
  lemma EmitExactly(ops: seq<Op>, now: real, w: real)
    ensures var ks, ks' := After(ops, w), After(ops + [Emit(now)], w);
            if ks.window.Some? && now < ks.window.value.t0 + w
            then ks' == KeyState(Some(Window(ks.window.value.t0, ks.window.value.n + 1)), ks.out)
            else ks' == KeyState(Some(Window(now, 0)), ks.out + [First(now)])
  {
    assert (ops + [Emit(now)])[..|ops|] == ops;
  }

  // ----- spacing -----

  predicate Ordered(ops: seq<Op>)
  {
    forall i, j :: 0 <= i < j < |ops| ==> ops[i].now <= ops[j].now
  }

  predicate Spaced(out: seq<Message>, w: real)
  {
    forall i, j :: 0 <= i < j < |out| && out[i].First? && out[j].First? ==> out[j].at - out[i].at >= w
  }

  /** No first message so far is later than `t`. */
  predicate FirstsBy(out: seq<Message>, t: real)
  {
    forall i :: 0 <= i < |out| && out[i].First? ==> out[i].at <= t
  }

  /** First messages of one key are at least one window apart, and every open window began with one. */
  lemma {:induction false} FirstsAreSpaced(ops: seq<Op>, w: real)
    requires Ordered(ops) && w > 0.0
    ensures var ks := After(ops, w);
            && Spaced(ks.out, w)
            && (ks.window.Some? ==> First(ks.window.value.t0) in ks.out && FirstsBy(ks.out, ks.window.value.t0))
            && (ks.window.None? ==> ks.out == [] || (ops != [] && FirstsBy(ks.out, ops[|ops| - 1].now - w)))
  {
    if ops != [] {
      var before, op := ops[..|ops| - 1], ops[|ops| - 1];
      FirstsAreSpaced(before, w);
      assert before != [] ==> before[|before| - 1].now <= op.now;
    }
  }
}
