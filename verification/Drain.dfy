/** Draining a command's output while it runs (app/ssh_client.py: _run_channel). */
module Drain {
  import opened Options

  newtype Byte = b: int | 0 <= b < 256

  type Bytes = seq<Byte>

  /** What one turn of the loop finds: the chunks ready on each stream, the channel's state, and the clock. */
  datatype Round = Round(stdout: seq<Bytes>, stderr: seq<Bytes>, exited: bool, eof: bool, now: real)

  datatype Ending = Finished(out: Bytes, err: Bytes, cut: bool) | TimedOut | Running

  function Joined(chunks: seq<Bytes>): Bytes
  {
    if chunks == [] then [] else Joined(chunks[..|chunks| - 1]) + chunks[|chunks| - 1]
  }

  /** Everything a stream delivered in the first rounds. */
  function Stdout(rounds: seq<Round>): Bytes
  {
    if rounds == [] then [] else Stdout(rounds[..|rounds| - 1]) + Joined(rounds[|rounds| - 1].stdout)
  }

  function Stderr(rounds: seq<Round>): Bytes
  {
    if rounds == [] then [] else Stderr(rounds[..|rounds| - 1]) + Joined(rounds[|rounds| - 1].stderr)
  }

  function First(all: Bytes, n: nat): Bytes
  {
    if |all| <= n then all else all[..n]
  }

  /** A round that finds the exit status known and nothing left to read. */
  predicate Quiet(r: Round)
  {
    r.exited && r.stdout == [] && r.stderr == []
  }

  /** When the command was first seen to be over. */
  function ExitAt(rounds: seq<Round>): Option<real>
  {
    if rounds == [] then None
    else
      var before, r := ExitAt(rounds[..|rounds| - 1]), rounds[|rounds| - 1];
      if before.None? && Quiet(r) then Some(r.now) else before
  }

  /** The last round ends the loop: all is quiet, and the streams are closed or half a second of grace is over. */
  predicate Settles(rounds: seq<Round>)
  {
    rounds != [] && var r := rounds[|rounds| - 1];
    Quiet(r) && (r.eof || (ExitAt(rounds).Some? && r.now - ExitAt(rounds).value > 0.5))
  }

  /** The first round that found the command over. */
  predicate FirstQuiet(rounds: seq<Round>, k: nat)
    requires k < |rounds|
  {
    && rounds[k].exited && rounds[k].stdout == [] && rounds[k].stderr == []
    && forall j :: 0 <= j < k ==> !(rounds[j].exited && rounds[j].stdout == [] && rounds[j].stderr == [])
  }

  lemma {:induction false} ExitAtFirstQuiet(rounds: seq<Round>)
    ensures ExitAt(rounds).None? <==> forall j :: 0 <= j < |rounds| ==> !Quiet(rounds[j])
    ensures forall k :: 0 <= k < |rounds| && FirstQuiet(rounds, k) ==> ExitAt(rounds) == Some(rounds[k].now)
  {
    if rounds != [] {
      var n := |rounds| - 1;
      ExitAtFirstQuiet(rounds[..n]);
      forall k | 0 <= k < |rounds| && FirstQuiet(rounds, k)
        ensures ExitAt(rounds) == Some(rounds[k].now)
      {
        if k < n {
          assert FirstQuiet(rounds[..n], k);
        } else {
          assert forall j :: 0 <= j < n ==> rounds[..n][j] == rounds[j];
        }
      }
    }
  }

  /**
   * The loop is done after a round that finds the command over and nothing to read, if the streams are closed or the command
   * was first found so more than half a second ago.
   */
  lemma SettlesExactly(rounds: seq<Round>, k: nat)
    requires k < |rounds| && FirstQuiet(rounds, k)
    ensures var r := rounds[|rounds| - 1];
            Settles(rounds) <==> r.exited && r.stdout == [] && r.stderr == [] && (r.eof || r.now - rounds[k].now > 0.5)
  {
    ExitAtFirstQuiet(rounds);
  }

  lemma {:induction false} JoinedIsConcatenation(a: seq<Bytes>, b: seq<Bytes>)
    ensures Joined(a + b) == Joined(a) + Joined(b)
    ensures forall c :: Joined([c]) == c
  {
    if b == [] {
      assert a + b == a;
    } else {
      var n := |b| - 1;
      JoinedIsConcatenation(a, b[..n]);
      assert (a + b)[..|a + b| - 1] == a + b[..n];
    }
    forall c
      ensures Joined([c]) == c
    {
      assert [c][..0] == [];
    }
  }

  /** The first `n` bytes, or all there are. */
  lemma FirstExactly(all: Bytes, n: nat)
    ensures First(all, n) <= all && |First(all, n)| == if |all| < n then |all| else n
  {
  }

  /** None of the first `n` rounds ended the loop. */
  predicate GoesOn(rounds: seq<Round>, n: int, deadline: real)
    requires n <= |rounds|
  {
    forall i :: 0 < i <= n ==> !Settles(rounds[..i]) && rounds[i - 1].now <= deadline
  }

  lemma GoesOnNext(rounds: seq<Round>, n: nat, deadline: real)
    requires n < |rounds| && GoesOn(rounds, n, deadline) && !Settles(rounds[..n + 1]) && rounds[n].now <= deadline
    ensures GoesOn(rounds, n + 1, deadline)
  {
  }

  lemma NextRound(rounds: seq<Round>, k: nat)
    requires k < |rounds|
    ensures var r, before := rounds[k], rounds[..k];
            && Stdout(rounds[..k + 1]) == Stdout(before) + Joined(r.stdout)
            && Stderr(rounds[..k + 1]) == Stderr(before) + Joined(r.stderr)
            && ExitAt(rounds[..k + 1]) == (if ExitAt(before).None? && Quiet(r) then Some(r.now) else ExitAt(before))
            && (Quiet(r) ==> ExitAt(rounds[..k + 1]).Some?)
            && (Settles(rounds[..k + 1]) <==>
                  Quiet(r) && (r.eof || r.now - ExitAt(rounds[..k + 1]).value > 0.5))
  {
    assert rounds[..k + 1][..k] == rounds[..k];
  }

  /** Room left in a buffer that holds the first bytes of a stream. */
  function Room(maxBytes: nat, used: nat): nat
  {
    if used <= maxBytes then maxBytes - used else 0
  }

  lemma TakeMore(all: Bytes, chunk: Bytes, n: nat)
    ensures First(all + chunk, n) == First(all, n) + First(chunk, Room(n, |First(all, n)|))
    ensures |all + chunk| > n <==> |all| > n || |chunk| > Room(n, |First(all, n)|)
  {
  }

  /** Reading every chunk that is ready into a bounded buffer. */
  method ReadReady(chunks: seq<Bytes>, buffer: Bytes, maxBytes: nat, ghost before: Bytes)
    returns (filled: Bytes, over: bool, busy: bool)
    requires buffer == First(before, maxBytes)
    ensures filled == First(before + Joined(chunks), maxBytes)
    ensures over || |before| > maxBytes <==> |before + Joined(chunks)| > maxBytes
    ensures busy == (chunks != [])
  {
    filled, over, busy := buffer, false, false;
    var i := 0;
    assert before + Joined(chunks[..0]) == before;
    while i < |chunks|
      invariant 0 <= i <= |chunks| && busy == (i > 0)
      invariant filled == First(before + Joined(chunks[..i]), maxBytes)
      invariant over || |before| > maxBytes <==> |before + Joined(chunks[..i])| > maxBytes
    {
      var d := chunks[i];
      var room := Room(maxBytes, |filled|);
      TakeMore(before + Joined(chunks[..i]), d, maxBytes);
      assert chunks[..i + 1][..i] == chunks[..i];
      assert before + Joined(chunks[..i]) + d == before + Joined(chunks[..i + 1]);
      busy := true;
      filled := filled + First(d, room);
      over := over || |d| > room;
      i := i + 1;
    }
    assert chunks[..i] == chunks;
  }

  /** The buffers hold what they should of everything delivered in these rounds. */
  predicate Buffered(rounds: seq<Round>, maxBytes: nat, out: Bytes, err: Bytes, cut: bool)
  {
    && out == First(Stdout(rounds), maxBytes)
    && err == First(Stderr(rounds), maxBytes)
    && (cut <==> |Stdout(rounds)| > maxBytes)
  }

  /** The two reading loops of one round. */
  method ReadRound(rounds: seq<Round>, k: nat, maxBytes: nat, out: Bytes, err: Bytes, cut: bool)
    returns (out': Bytes, err': Bytes, cut': bool, busy: bool)
    requires k < |rounds| && Buffered(rounds[..k], maxBytes, out, err, cut)
    ensures Buffered(rounds[..k + 1], maxBytes, out', err', cut')
    ensures busy <==> rounds[k].stdout != [] || rounds[k].stderr != []
  {
    var over, more, over', more';
    out', over, more := ReadReady(rounds[k].stdout, out, maxBytes, Stdout(rounds[..k]));
    err', over', more' := ReadReady(rounds[k].stderr, err, maxBytes, Stderr(rounds[..k]));
    cut', busy := cut || over, more || more';
    NextRound(rounds, k);
  }

  /**
   * However the chunks of the two streams interleave, a finished command's output is exactly the first bytes of what
   * stdout delivered, its error output likewise, and `cut` says whether stdout delivered more. It finishes in the
   * first round that settles, unless the deadline passed in an earlier one.
   */
  method RunChannel(rounds: seq<Round>, maxBytes: nat, deadline: real) returns (end: Ending, used: nat)
    ensures used <= |rounds|
    ensures end.Finished? ==> Settles(rounds[..used]) && Buffered(rounds[..used], maxBytes, end.out, end.err, end.cut)
    ensures end.TimedOut? ==> used > 0 && rounds[used - 1].now > deadline && !Settles(rounds[..used])
    ensures GoesOn(rounds, if end.Running? then used else used - 1, deadline) && (end.Running? ==> used == |rounds|)
  {
    var out: Bytes, err: Bytes, cut := [], [], false;
    var exitAt: Option<real> := None;
    used := 0;
    while used < |rounds|
      invariant 0 <= used <= |rounds|
      invariant Buffered(rounds[..used], maxBytes, out, err, cut)
      invariant exitAt == ExitAt(rounds[..used])
      invariant GoesOn(rounds, used, deadline)
    {
      var r := rounds[used];
      var busy;
      out, err, cut, busy := ReadRound(rounds, used, maxBytes, out, err, cut);
      NextRound(rounds, used);
      used := used + 1;
      if r.exited && !busy {
        exitAt := Some(if exitAt.Some? then exitAt.value else r.now);
        if r.eof || r.now - exitAt.value > 0.5 {
          return Finished(out, err, cut), used;
        }
      }
      if r.now > deadline {
        return TimedOut, used;
      }
      GoesOnNext(rounds, used - 1, deadline);
    }
    end := Running;
  }
}
