/** The secrets vault: `$SECRET{id}` references and the scrubbing of command output (app/storage.py, app/executor.py). */
module Secrets {
  import opened Options
  import opened Text

  const MARK := "[REDACTED]"

  // ----- scrubbing -----

  function Scrubbed(text: string, vals: seq<string>): string
    decreases |vals|
  {
    if vals == [] then text
    else Scrubbed(if vals[0] != "" && Occurs(vals[0], text) then Replace(text, vals[0], MARK) else text, vals[1..])
  }

  method ScrubOutput(text: string, vals: seq<string>) returns (r: string)
    ensures r == Scrubbed(text, vals)
  {
    r := text;
    for i := 0 to |vals|
      invariant Scrubbed(r, vals[i..]) == Scrubbed(text, vals)
    {
      assert vals[i..][1..] == vals[i + 1..];
      if vals[i] != "" && Occurs(vals[i], r) {
        r := Replace(r, vals[i], MARK);
      }
    }
  }

  predicate BracketFree(v: string)
  {
    '[' !in v && ']' !in v
  }

  /** A value that no replacement mark can contain or help to form. */
  predicate Scrubbable(v: string)
  {
    v != "" && BracketFree(v) && !Occurs(v, MARK)
  }

  lemma {:induction false} PrefixIsOld(text: string, v: string, u: string)
    requires v != "" && BracketFree(u) && u <= Replace(text, v, MARK)
    ensures u <= text
    decreases |text|
  {
    if |text| >= |v| && u != "" {
      var r := Replace(text, v, MARK);
      var first := r[..1];
      assert first == [u[0]] != "[";
      assert text[..|v|] == v ==> first == "[";
      assert r == [text[0]] + Replace(text[1..], v, MARK);
      PrefixIsOld(text[1..], v, u[1..]);
      assert u == [text[0]] + u[1..];
    }
  }

  /** An occurrence that starts inside a mark would have to contain its bracket or lie inside it. */
  lemma NotAtMark(rest: string, u: string, i: nat)
    requires Scrubbable(u) && i < |MARK|
    ensures !At(MARK + rest, u, i)
  {
    var t := MARK + rest;
    if i + |u| <= |t| {
      var window := t[i..i + |u|];
      if i == 0 {
        assert window[0] == '[';
      } else if i + |u| < |MARK| {
        assert window == MARK[i..i + |u|];
        assert !At(MARK, u, i);
      } else {
        assert window[|MARK| - 1 - i] == ']';
      }
    }
  }

  lemma OccursBehind(head: string, rest: string, u: string, i: nat)
    requires At(head + rest, u, i) && i >= |head|
    ensures Occurs(u, rest)
  {
    AtShift(head + rest, u, |head|, i - |head|);
    assert (head + rest)[|head|..] == rest;
    assert At(rest, u, i - |head|);
  }

  lemma OccursBehindMark(rest: string, u: string)
    requires Scrubbable(u) && Occurs(u, MARK + rest)
    ensures Occurs(u, rest)
  {
    var i :| 0 <= i <= |MARK + rest| - |u| && At(MARK + rest, u, i);
    if i < |MARK| {
      NotAtMark(rest, u, i);
    } else {
      OccursBehind(MARK, rest, u, i);
    }
  }

  lemma OccursBehindChar(c: char, rest: string, u: string)
    requires Occurs(u, [c] + rest)
    ensures u <= [c] + rest || Occurs(u, rest)
  {
    var r := [c] + rest;
    var i :| 0 <= i <= |r| - |u| && At(r, u, i);
    if i == 0 {
      assert r[0..|u|] == u;
    } else {
      OccursBehind([c], rest, u, i);
    }
  }

  /** One replacement step: an occurrence in the new text is one in the rest or a prefix of the old text. */
  lemma OccurrenceAfterStep(text: string, v: string, u: string)
    requires v != "" && |v| <= |text| && Scrubbable(u) && Occurs(u, Replace(text, v, MARK))
    ensures text[..|v|] == v ==> Occurs(u, Replace(text[|v|..], v, MARK))
    ensures text[..|v|] != v ==> u <= text || Occurs(u, Replace(text[1..], v, MARK))
  {
    if text[..|v|] == v {
      OccursBehindMark(Replace(text[|v|..], v, MARK), u);
    } else {
      OccursBehindChar(text[0], Replace(text[1..], v, MARK), u);
      if u <= Replace(text, v, MARK) {
        PrefixIsOld(text, v, u);
      }
    }
  }

  /** Replacing one value brings no other value into the text. */
  lemma {:induction false} ReplacementAddsNothing(text: string, v: string, u: string)
    requires v != "" && Scrubbable(u) && Occurs(u, Replace(text, v, MARK))
    ensures Occurs(u, text)
    decreases |text|
  {
    if |text| >= |v| {
      OccurrenceAfterStep(text, v, u);
      if u <= text {
        assert text[0..|u|] == u;
        assert At(text, u, 0);
      } else {
        var k := if text[..|v|] == v then |v| else 1;
        ReplacementAddsNothing(text[k..], v, u);
        OccursInTail(u, text, k);
      }
    }
  }

  /** Replacing a value removes it. */
  lemma {:induction false} ReplacementRemoves(text: string, v: string)
    requires Scrubbable(v)
    ensures !Occurs(v, Replace(text, v, MARK))
    decreases |text|
  {
    if |text| >= |v| {
      ReplacementRemoves(text[if text[..|v|] == v then |v| else 1..], v);
      if Occurs(v, Replace(text, v, MARK)) {
        OccurrenceAfterStep(text, v, v);
      }
    }
  }

  lemma {:induction false} ScrubbingAddsNothing(text: string, vals: seq<string>, u: string)
    requires Scrubbable(u) && Occurs(u, Scrubbed(text, vals))
    ensures Occurs(u, text)
    decreases |vals|
  {
    if vals != [] {
      var next := if vals[0] != "" && Occurs(vals[0], text) then Replace(text, vals[0], MARK) else text;
      ScrubbingAddsNothing(next, vals[1..], u);
      if next != text {
        ReplacementAddsNothing(text, vals[0], u);
      }
    }
  }

  /** No scrubbable listed value survives, whatever the order, overlaps and other values of the list. */
  lemma {:induction false} ScrubbingIsComplete(text: string, vals: seq<string>, u: string)
    requires u in vals && Scrubbable(u)
    ensures !Occurs(u, Scrubbed(text, vals))
    decreases |vals|
  {
    var next := if vals[0] != "" && Occurs(vals[0], text) then Replace(text, vals[0], MARK) else text;
    if Occurs(u, Scrubbed(text, vals)) {
      if vals[0] == u {
        ScrubbingAddsNothing(next, vals[1..], u);
        ReplacementRemoves(text, u);
      } else {
        ScrubbingIsComplete(next, vals[1..], u);
      }
    }
  }

  /** A text without listed values is left as it is. */
  lemma {:induction false} CleanTextIsUnchanged(text: string, vals: seq<string>)
    requires forall v :: v in vals && v != "" ==> !Occurs(v, text)
    ensures Scrubbed(text, vals) == text
    decreases |vals|
  {
    if vals != [] {
      assert vals[0] in vals;
      CleanTextIsUnchanged(text, vals[1..]);
    }
  }

  predicate LeavesNothing(vals: seq<string>, text: string)
  {
    forall v :: v in vals && v != "" ==> !Occurs(v, Scrubbed(text, vals))
  }

  lemma {:induction false} MarkStays(text: string, vals: seq<string>)
    requires Occurs(MARK, text)
    ensures Occurs(MARK, Scrubbed(text, vals))
    decreases |vals|
  {
    if vals != [] {
      if vals[0] != "" && Occurs(vals[0], text) {
        ReplaceLeaves(text, vals[0], MARK);
        MarkStays(Replace(text, vals[0], MARK), vals[1..]);
      } else {
        MarkStays(text, vals[1..]);
      }
    }
  }

  /** Scrubbing the bare value always leaves a mark behind. */
  lemma {:induction false} BareValueLeavesMark(w: string, vals: seq<string>)
    requires w in vals && w != ""
    ensures Occurs(MARK, Scrubbed(w, vals))
    decreases |vals|
  {
    if vals[0] != "" && Occurs(vals[0], w) {
      ReplaceLeaves(w, vals[0], MARK);
      MarkStays(Replace(w, vals[0], MARK), vals[1..]);
    } else {
      assert At(w, w, 0);
      BareValueLeavesMark(w, vals[1..]);
    }
  }

  /**
   * For bracket-free secrets the scrubber leaves nothing on every text exactly when no value is part of the
   * mark it writes.
   */
  lemma ScrubbingCompleteExactly(vals: seq<string>)
    requires forall v :: v in vals ==> BracketFree(v)
    ensures (forall text :: LeavesNothing(vals, text)) <==> (forall v :: v in vals && v != "" ==> !Occurs(v, MARK))
  {
    if forall v :: v in vals && v != "" ==> !Occurs(v, MARK) {
      forall text, v | v in vals && v != ""
        ensures !Occurs(v, Scrubbed(text, vals))
      {
        ScrubbingIsComplete(text, vals, v);
      }
    } else {
      var w :| w in vals && w != "" && Occurs(w, MARK);
      BareValueLeavesMark(w, vals);
      OccursTrans(w, MARK, Scrubbed(w, vals));
      assert !LeavesNothing(vals, w);
    }
  }

  /** Brackets matter: the value `a[` is not part of the mark, and yet scrubbing can leave it. */
  lemma BracketsCanLeak()
    ensures !Occurs("a[", MARK) && !LeavesNothing(["a["], "aa[")
  {
    var v, text := "a[", "aa[";
    forall i | 0 <= i <= |MARK| - |v|
      ensures !At(MARK, v, i)
    {
      assert MARK[i..i + |v|][0] == MARK[i];
    }
    assert At(text, v, 1);
    assert text[..2][1] != v[1];
    assert text[1..] == v + "";
    ReplaceLeading("", v, MARK);
    var after := "a" + MARK;
    assert Replace(text, v, MARK) == after;
    assert Scrubbed(text, [v]) == Scrubbed(after, []) by {
      assert [v][1..] == [];
    }
    assert after[0..2] == v;
    assert At(after, v, 0);
    assert v in [v];
  }

  // ----- references -----

  /** A vault entry; `value` is absent when it cannot be decrypted. */
  datatype Secret = Secret(hosts: set<string>, value: Option<string>)

  datatype SecretError = NotFound(id: string) | NotLinked(id: string) | Undecryptable(id: string)

  const OPEN := "$SECRET{"

  function IndexOf(text: string, c: char): (i: nat)
    ensures i <= |text| && c !in text[..i] && (i < |text| ==> text[i] == c)
  {
    if text == "" then 0
    else if text[0] == c then 0
    else
      var i := 1 + IndexOf(text[1..], c);
      assert text[..i] == [text[0]] + text[1..][..i - 1];
      i
  }

  /** The length of the reference a text starts with, 0 if it starts with none: the mark, a non-empty id, a brace. */
  function RefLength(text: string): (n: nat)
    ensures n <= |text| && (n > 0 ==> n > |OPEN| + 1)
  {
    if OPEN <= text then
      var j := IndexOf(text[|OPEN|..], '}');
      if j > 0 && |OPEN| + j < |text| then |OPEN| + j + 1 else 0
    else 0
  }

  /** The first `n` characters are a reference: the mark, an id of at least one character but no brace, a brace. */
  predicate IsRef(text: string, n: nat)
  {
    && 9 < n <= |text| && text[..8] == "$SECRET{" && text[n - 1] == '}'
    && forall i :: 8 <= i < n - 1 ==> text[i] != '}'
  }

  lemma RefLengthExactly(text: string, n: nat)
    requires n > 0
    ensures RefLength(text) == n <==> IsRef(text, n)
  {
    if OPEN <= text {
      var rest := text[|OPEN|..];
      var j := IndexOf(rest, '}');
      assert forall i :: 0 <= i < |rest| ==> rest[i] == text[i + 8];
      assert forall i :: 0 <= i < j ==> rest[..j][i] == rest[i];
    }
  }

  /** A command as characters and references. */
  datatype Piece = Lit(c: char) | Ref(id: string)

  function Pieces(cmd: string): seq<Piece>
    decreases |cmd|
  {
    if cmd == "" then []
    else if RefLength(cmd) > 0 then [Ref(cmd[|OPEN|..RefLength(cmd) - 1])] + Pieces(cmd[RefLength(cmd)..])
    else [Lit(cmd[0])] + Pieces(cmd[1..])
  }

  function Ids(pieces: seq<Piece>): seq<string>
  {
    if pieces == [] then [] else (if pieces[0].Ref? then [pieces[0].id] else []) + Ids(pieces[1..])
  }

  /** The ids referenced by a command, left to right. */
  function Refs(cmd: string): seq<string>
  {
    Ids(Pieces(cmd))
  }

  function Resolve(id: string, hostId: string, vault: map<string, Secret>): Result<string, SecretError>
  {
    if id !in vault then Err(NotFound(id))
    else if hostId !in vault[id].hosts then Err(NotLinked(id))
    else if vault[id].value.None? then Err(Undecryptable(id))
    else Ok(vault[id].value.value)
  }

  /** The command with every reference replaced, and the values to scrub. */
  function Substituted(cmd: string, hostId: string, vault: map<string, Secret>)
    : Result<(string, seq<string>), SecretError>
    decreases |cmd|
  {
    if cmd == "" then Ok(("", []))
    else if RefLength(cmd) > 0 then
      match Resolve(cmd[|OPEN|..RefLength(cmd) - 1], hostId, vault)
      case Err(e) => Err(e)
      case Ok(v) =>
        (match Substituted(cmd[RefLength(cmd)..], hostId, vault)
         case Err(e) => Err(e)
         case Ok(rest) => Ok((v + rest.0, [v] + rest.1)))
    else
      match Substituted(cmd[1..], hostId, vault)
      case Err(e) => Err(e)
      case Ok(rest) => Ok(([cmd[0]] + rest.0, rest.1))
  }

  lemma RefsStep(cmd: string)
    requires cmd != ""
    ensures var n := RefLength(cmd);
            Refs(cmd) == if n > 0 then [cmd[|OPEN|..n - 1]] + Refs(cmd[n..]) else Refs(cmd[1..])
  {
    var n := RefLength(cmd);
    assert Pieces(cmd)[1..] == Pieces(cmd[if n > 0 then n else 1..]);
  }

  /** The outcome fits the references: it succeeds exactly if each of them resolves, and lists their values in order. */
  predicate Fits(r: Result<(string, seq<string>), SecretError>, refs: seq<string>, hostId: string,
                 vault: map<string, Secret>)
  {
    && (r.Ok? <==> forall id :: id in refs ==> Resolve(id, hostId, vault).Ok?)
    && (r.Ok? ==>
          && |r.value.1| == |refs|
          && forall k :: 0 <= k < |refs| ==> Resolve(refs[k], hostId, vault) == Ok(r.value.1[k]))
  }

  lemma FitsOneMore(r: Result<(string, seq<string>), SecretError>, refs: seq<string>, hostId: string,
                    vault: map<string, Secret>, id: string, text: string)
    requires Fits(r, refs, hostId, vault)
    ensures Resolve(id, hostId, vault).Ok? && r.Ok? ==>
              Fits(Ok((text, [Resolve(id, hostId, vault).value] + r.value.1)), [id] + refs, hostId, vault)
    ensures !(Resolve(id, hostId, vault).Ok? && r.Ok?) ==> forall e :: Fits(Err(e), [id] + refs, hostId, vault)
  {
    assert forall i :: i in [id] + refs <==> i == id || i in refs;
  }

  lemma {:induction false} SubstitutedFits(cmd: string, hostId: string, vault: map<string, Secret>)
    ensures Fits(Substituted(cmd, hostId, vault), Refs(cmd), hostId, vault)
    decreases |cmd|
  {
    if cmd != "" {
      RefsStep(cmd);
      var n := RefLength(cmd);
      SubstitutedFits(cmd[if n > 0 then n else 1..], hostId, vault);
      if n > 0 {
        var r, v := Substituted(cmd[n..], hostId, vault), Resolve(cmd[|OPEN|..n - 1], hostId, vault);
        FitsOneMore(r, Refs(cmd[n..]), hostId, vault, cmd[|OPEN|..n - 1],
                    if v.Ok? && r.Ok? then v.value + r.value.0 else "");
      }
    }
  }

  lemma {:induction false} NoRefsNoChange(cmd: string, hostId: string, vault: map<string, Secret>)
    requires Refs(cmd) == []
    ensures Substituted(cmd, hostId, vault) == Ok((cmd, []))
    decreases |cmd|
  {
    if cmd != "" {
      RefsStep(cmd);
      NoRefsNoChange(cmd[1..], hostId, vault);
      assert cmd == [cmd[0]] + cmd[1..];
    }
  }

  lemma ResolveExactly(id: string, hostId: string, vault: map<string, Secret>)
    ensures var r := Resolve(id, hostId, vault);
            && (r.Ok? <==> id in vault && hostId in vault[id].hosts && vault[id].value.Some?)
            && (r.Ok? ==> vault[id].value == Some(r.value))
  {
  }

  /**
   * Substitution succeeds exactly when every referenced secret exists, is linked to the host and decrypts, and
   * then the scrub list holds exactly the referenced values, in order; a command without references is unchanged.
   */
  lemma SubstitutionExact(cmd: string, hostId: string, vault: map<string, Secret>)
    ensures Substituted(cmd, hostId, vault).Ok? <==>
            forall id :: id in Refs(cmd) ==> id in vault && hostId in vault[id].hosts && vault[id].value.Some?
    ensures Substituted(cmd, hostId, vault).Ok? ==>
              && |Substituted(cmd, hostId, vault).value.1| == |Refs(cmd)|
              && forall k :: 0 <= k < |Refs(cmd)| ==>
                   Refs(cmd)[k] in vault && vault[Refs(cmd)[k]].value == Some(Substituted(cmd, hostId, vault).value.1[k])
    ensures Refs(cmd) == [] ==> Substituted(cmd, hostId, vault) == Ok((cmd, []))
  {
    SubstitutedFits(cmd, hostId, vault);
    forall id | id in Refs(cmd)
      ensures Resolve(id, hostId, vault).Ok? <==> id in vault && hostId in vault[id].hosts && vault[id].value.Some?
    {
      ResolveExactly(id, hostId, vault);
    }
    forall k | 0 <= k < |Refs(cmd)| && Substituted(cmd, hostId, vault).Ok?
      ensures Refs(cmd)[k] in vault && vault[Refs(cmd)[k]].value == Some(Substituted(cmd, hostId, vault).value.1[k])
    {
      ResolveExactly(Refs(cmd)[k], hostId, vault);
    }
    if Refs(cmd) == [] {
      NoRefsNoChange(cmd, hostId, vault);
    }
  }

  /** A refusal names a reference of the command and what is wrong with it. */
  predicate Tells(e: SecretError, refs: seq<string>, hostId: string, vault: map<string, Secret>)
  {
    match e
    case NotFound(id) => id in refs && id !in vault
    case NotLinked(id) => id in refs && id in vault && hostId !in vault[id].hosts
    case Undecryptable(id) => id in refs && id in vault && hostId in vault[id].hosts && vault[id].value == None
  }

  lemma TellsOfMore(e: SecretError, first: seq<string>, refs: seq<string>, hostId: string, vault: map<string, Secret>)
    requires Tells(e, refs, hostId, vault)
    ensures Tells(e, first + refs, hostId, vault)
  {
  }

  lemma UnresolvedTells(id: string, refs: seq<string>, hostId: string, vault: map<string, Secret>)
    requires Resolve(id, hostId, vault).Err?
    ensures Tells(Resolve(id, hostId, vault).error, [id] + refs, hostId, vault)
  {
    assert ([id] + refs)[0] == id;
  }

  lemma {:induction false} RefusalTells(cmd: string, hostId: string, vault: map<string, Secret>)
    requires Substituted(cmd, hostId, vault).Err?
    ensures Tells(Substituted(cmd, hostId, vault).error, Refs(cmd), hostId, vault)
    decreases |cmd|
  {
    RefsStep(cmd);
    var n := RefLength(cmd);
    if n == 0 {
      RefusalTells(cmd[1..], hostId, vault);
    } else {
      var id, rest := cmd[|OPEN|..n - 1], cmd[n..];
      if Resolve(id, hostId, vault).Err? {
        UnresolvedTells(id, Refs(rest), hostId, vault);
      } else {
        RefusalTells(rest, hostId, vault);
        TellsOfMore(Substituted(rest, hostId, vault).error, [id], Refs(rest), hostId, vault);
      }
    }
  }

  /** The pieces written out, each reference by the text given for it. */
  function Written(pieces: seq<Piece>, text: string -> string): string
  {
    if pieces == [] then ""
    else (if pieces[0].Lit? then [pieces[0].c] else text(pieces[0].id)) + Written(pieces[1..], text)
  }

  function Reference(id: string): string
  {
    OPEN + id + "}"
  }

  /** The value a reference stands for; used only when it resolves. */
  function ValueOf(id: string, hostId: string, vault: map<string, Secret>): string
  {
    var v := Resolve(id, hostId, vault);
    if v.Ok? then v.value else ""
  }

  lemma RefIsWritten(cmd: string)
    requires RefLength(cmd) > 0
    ensures cmd[..RefLength(cmd)] == Reference(cmd[|OPEN|..RefLength(cmd) - 1])
    ensures cmd == Reference(cmd[|OPEN|..RefLength(cmd) - 1]) + cmd[RefLength(cmd)..]
  {
    var n := RefLength(cmd);
    assert cmd[..|OPEN|] == OPEN;
    assert cmd[|OPEN|..][n - 1 - |OPEN|] == '}' == cmd[n - 1];
    assert cmd[..n] == cmd[..|OPEN|] + cmd[|OPEN|..n - 1] + [cmd[n - 1]];
  }

  lemma WrittenStep(cmd: string, text: string -> string)
    requires cmd != ""
    ensures var n := RefLength(cmd);
            Written(Pieces(cmd), text)
            == if n > 0 then text(cmd[|OPEN|..n - 1]) + Written(Pieces(cmd[n..]), text)
               else [cmd[0]] + Written(Pieces(cmd[1..]), text)
  {
    var n := RefLength(cmd);
    assert Pieces(cmd)[1..] == Pieces(cmd[if n > 0 then n else 1..]);
  }

  lemma {:induction false} CommandIsWritten(cmd: string)
    ensures Written(Pieces(cmd), Reference) == cmd
    decreases |cmd|
  {
    if cmd != "" {
      WrittenStep(cmd, Reference);
      if RefLength(cmd) > 0 {
        CommandIsWritten(cmd[RefLength(cmd)..]);
        RefIsWritten(cmd);
      } else {
        CommandIsWritten(cmd[1..]);
        assert cmd == [cmd[0]] + cmd[1..];
      }
    }
  }

  lemma {:induction false} SubstitutedIsWritten(cmd: string, hostId: string, vault: map<string, Secret>,
                                                value: string -> string)
    requires forall id :: value(id) == ValueOf(id, hostId, vault)
    requires Substituted(cmd, hostId, vault).Ok?
    ensures Substituted(cmd, hostId, vault).value.0 == Written(Pieces(cmd), value)
    decreases |cmd|
  {
    if cmd != "" {
      WrittenStep(cmd, value);
      SubstitutedIsWritten(cmd[if RefLength(cmd) > 0 then RefLength(cmd) else 1..], hostId, vault, value);
    }
  }

  /** The command is its pieces written out, and the substituted command the same pieces with the values in place. */
  lemma SubstitutionInPlace(cmd: string, hostId: string, vault: map<string, Secret>)
    ensures Written(Pieces(cmd), Reference) == cmd
    ensures Substituted(cmd, hostId, vault).Ok? ==>
              Substituted(cmd, hostId, vault).value.0 == Written(Pieces(cmd), id => ValueOf(id, hostId, vault))
  {
    CommandIsWritten(cmd);
    if Substituted(cmd, hostId, vault).Ok? {
      SubstitutedIsWritten(cmd, hostId, vault, id => ValueOf(id, hostId, vault));
    }
  }

  /** `execute_with_secrets` up to the generic pattern scrubber: what comes back for a remote that prints anything. */
  function Executed(cmd: string, hostId: string, vault: map<string, Secret>, remote: string -> string)
    : Result<string, SecretError>
  {
    match Substituted(cmd, hostId, vault)
    case Err(e) => Err(e)
    case Ok(s) => Ok(if s.1 != [] then Scrubbed(remote(s.0), s.1) else remote(s.0))
  }

  /** Whatever the remote prints, no scrubbable secret that went into the command comes back. */
  lemma NoSecretComesBack(cmd: string, hostId: string, vault: map<string, Secret>, remote: string -> string, id: string)
    requires Executed(cmd, hostId, vault, remote).Ok? && id in Refs(cmd)
    ensures id in vault && hostId in vault[id].hosts && vault[id].value.Some?
    ensures Scrubbable(vault[id].value.value) ==>
              !Occurs(vault[id].value.value, Executed(cmd, hostId, vault, remote).value)
  {
    SubstitutionExact(cmd, hostId, vault);
    var s := Substituted(cmd, hostId, vault).value;
    var k :| 0 <= k < |Refs(cmd)| && Refs(cmd)[k] == id;
    assert s.1[k] in s.1;
    if Scrubbable(s.1[k]) {
      ScrubbingIsComplete(remote(s.0), s.1, s.1[k]);
    }
  }
}
