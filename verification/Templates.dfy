/**
 * Command templates with `{name}` placeholders (app/params.py). The code replaces one placeholder after the
 * other in the growing text; this module relates that to filling all holes of the template at once.
 */
module Templates {
  import opened Options
  import opened Text
  import opened ShellWords

  // ----- placeholders -----

  predicate IdentStart(c: char)
  {
    'a' <= c <= 'z' || 'A' <= c <= 'Z' || c == '_'
  }

  predicate IdentChar(c: char)
  {
    IdentStart(c) || '0' <= c <= '9'
  }

  predicate IsIdent(s: string)
  {
    s != "" && IdentStart(s[0]) && forall i :: 0 <= i < |s| ==> IdentChar(s[i])
  }

  /** A name: letters, digits and underscores, the first of them no digit. */
  lemma IdentExactly(s: string)
    ensures IsIdent(s) <==>
            && s != "" && !('0' <= s[0] <= '9')
            && forall i :: 0 <= i < |s| ==>
                 'a' <= s[i] <= 'z' || 'A' <= s[i] <= 'Z' || '0' <= s[i] <= '9' || s[i] == '_'
  {
    assert forall c :: IdentChar(c) && !('0' <= c <= '9') ==> IdentStart(c);
  }

  function IdentRun(t: string): (n: nat)
    ensures n <= |t| && (forall i :: 0 <= i < n ==> IdentChar(t[i])) && (n < |t| ==> !IdentChar(t[n]))
  {
    if t == "" || !IdentChar(t[0]) then 0 else 1 + IdentRun(t[1..])
  }

  /** The length of the placeholder a text starts with, 0 if it starts with none. */
  function HoleLength(t: string): (n: nat)
    ensures n <= |t| && (n > 0 ==> n > 2)
  {
    if t == "" || t[0] != '{' then 0
    else
      var n := IdentRun(t[1..]);
      if n > 0 && IdentStart(t[1]) && n + 1 < |t| && t[n + 1] == '}' then n + 2 else 0
  }

  predicate HasPlaceholder(t: string)
  {
    exists i :: 0 <= i < |t| && HoleLength(t[i..]) > 0
  }

  function Braced(name: string): string
  {
    "{" + name + "}"
  }

  lemma HoleIsBracedIdent(t: string)
    ensures HoleLength(t) > 0 <==> exists name :: IsIdent(name) && Braced(name) <= t
    ensures HoleLength(t) > 0 ==> IsIdent(t[1..HoleLength(t) - 1]) && Braced(t[1..HoleLength(t) - 1]) <= t
  {
    if HoleLength(t) > 0 {
      var name := t[1..HoleLength(t) - 1];
      assert IsIdent(name) && Braced(name) <= t;
    }
    if name :| IsIdent(name) && Braced(name) <= t {
      var n := IdentRun(t[1..]);
      assert t[0] == Braced(name)[0] && t[|name| + 1] == Braced(name)[|name| + 1] == '}';
      assert forall i :: 0 <= i < |name| ==> t[1..][i] == Braced(name)[i + 1] == name[i];
      assert t[1..][|name|] == '}';
      assert n == |name|;
    }
  }

  // ----- tokens -----

  datatype Tok = Ch(c: char) | Hole(name: string) | Val(text: string)

  function TokText(k: Tok): string
  {
    match k
    case Ch(c) => [c]
    case Hole(name) => Braced(name)
    case Val(text) => text
  }

  function Flat(toks: seq<Tok>): string
  {
    if toks == [] then "" else TokText(toks[0]) + Flat(toks[1..])
  }

  /** The template as its own characters and its holes, scanned left to right. */
  function Scan(t: string): seq<Tok>
    decreases |t|
  {
    if t == "" then []
    else if HoleLength(t) > 0 then [Hole(t[1..HoleLength(t) - 1])] + Scan(t[HoleLength(t)..])
    else [Ch(t[0])] + Scan(t[1..])
  }

  /** The distinct placeholder names of a text. */
  function Names(t: string): set<string>
  {
    set k | k in Scan(t) && k.Hole? :: k.name
  }

  lemma LeadingHole(t: string)
    requires HoleLength(t) > 0
    ensures IsIdent(t[1..HoleLength(t) - 1]) && t == Braced(t[1..HoleLength(t) - 1]) + t[HoleLength(t)..]
  {
    HoleIsBracedIdent(t);
  }

  lemma {:induction false} ScanIsFaithful(t: string)
    ensures Flat(Scan(t)) == t
    ensures forall k :: k in Scan(t) ==> !k.Val? && (k.Hole? ==> IsIdent(k.name))
    decreases |t|
  {
    if t != "" {
      if HoleLength(t) > 0 {
        LeadingHole(t);
        FlatCons(Hole(t[1..HoleLength(t) - 1]), Scan(t[HoleLength(t)..]));
        ScanIsFaithful(t[HoleLength(t)..]);
      } else {
        FlatCons(Ch(t[0]), Scan(t[1..]));
        ScanIsFaithful(t[1..]);
      }
    }
  }

  lemma IdentRunIs(p: string, rest: string)
    requires (forall i :: 0 <= i < |p| ==> IdentChar(p[i])) && rest != "" && !IdentChar(rest[0])
    ensures IdentRun(p + rest) == |p|
  {
    var t := p + rest;
    assert t[|p|] == rest[0];
    assert forall i :: 0 <= i < |p| ==> t[i] == p[i];
  }

  lemma HoleLengthIs(p: string, rest: string)
    requires IsIdent(p)
    ensures HoleLength(Braced(p) + rest) == |p| + 2
  {
    var t := Braced(p) + rest;
    assert t[1..] == p + ("}" + rest);
    IdentRunIs(p, "}" + rest);
    assert t[1..][|p|] == t[|p| + 1];
  }

  lemma ScanHole(p: string, rest: string)
    requires IsIdent(p)
    ensures Scan(Braced(p) + rest) == [Hole(p)] + Scan(rest)
  {
    var t := Braced(p) + rest;
    HoleLengthIs(p, rest);
    assert t[1..|p| + 1] == p && t[|p| + 2..] == rest;
  }

  lemma ScanChar(c: char, rest: string)
    requires c != '{'
    ensures Scan([c] + rest) == [Ch(c)] + Scan(rest)
  {
    assert ([c] + rest)[1..] == rest;
  }

  lemma PlaceholderInTail(a: string, b: string)
    requires HasPlaceholder(b)
    ensures HasPlaceholder(a + b)
  {
    var i :| 0 <= i < |b| && HoleLength(b[i..]) > 0;
    assert (a + b)[|a| + i..] == b[i..];
  }

  /** A text with a placeholder starts with one or has one in its tail. */
  lemma PlaceholderHeadOrTail(t: string)
    requires t != ""
    ensures HasPlaceholder(t) <==> HoleLength(t) > 0 || HasPlaceholder(t[1..])
  {
    assert t[0..] == t;
    assert t == t[..1] + t[1..];
    if HasPlaceholder(t[1..]) {
      PlaceholderInTail(t[..1], t[1..]);
    }
    if i :| 0 < i < |t| && HoleLength(t[i..]) > 0 {
      assert t[1..][i - 1..] == t[i..];
    }
  }

  lemma {:induction false} NoNamesNoPlaceholder(t: string)
    ensures Names(t) == {} <==> !HasPlaceholder(t)
    decreases |t|
  {
    if t != "" {
      PlaceholderHeadOrTail(t);
      if HoleLength(t) > 0 {
        assert Scan(t)[0].name in Names(t);
      } else {
        NoNamesNoPlaceholder(t[1..]);
        assert Names(t) == Names(t[1..]);
      }
    }
  }

  // ----- filling holes -----

  type Values = map<string, string>

  function FillTok(k: Tok, vals: Values): Tok
  {
    if k.Hole? && k.name in vals then Val(vals[k.name]) else k
  }

  function Fill(toks: seq<Tok>, vals: Values): seq<Tok>
  {
    seq(|toks|, i requires 0 <= i < |toks| => FillTok(toks[i], vals))
  }

  /** All holes replaced at once. */
  function Simultaneous(template: string, vals: Values): string
  {
    Flat(Fill(Scan(template), vals))
  }

  /** One placeholder after the other, each in the text the previous one left. */
  function Sequential(text: string, order: seq<string>, vals: Values): string
    requires forall p :: p in order ==> p in vals
    decreases |order|
  {
    if order == [] then text
    else Sequential(Replace(text, Braced(order[0]), vals[order[0]]), order[1..], vals)
  }

  lemma FlatCons(k: Tok, rest: seq<Tok>)
    ensures Flat([k] + rest) == TokText(k) + Flat(rest)
  {
    assert ([k] + rest)[1..] == rest;
  }

  lemma FillCons(toks: seq<Tok>, vals: Values)
    requires toks != []
    ensures Fill(toks, vals) == [FillTok(toks[0], vals)] + Fill(toks[1..], vals)
    ensures Flat(Fill(toks, vals)) == TokText(FillTok(toks[0], vals)) + Flat(Fill(toks[1..], vals))
  {
    FlatCons(FillTok(toks[0], vals), Fill(toks[1..], vals));
  }

  lemma FillTwice(toks: seq<Tok>, m: Values, p: string, x: string)
    requires p !in m
    ensures Fill(Fill(toks, m), map[p := x]) == Fill(toks, m[p := x])
  {
  }

  /** A prefix without an opening brace reaches over no open hole, so filling holes keeps it. */
  lemma {:induction false} PrefixSurvivesFilling(w: string, toks: seq<Tok>, vals: Values)
    requires '{' !in w && w <= Flat(toks)
    ensures w <= Flat(Fill(toks, vals))
    decreases |toks|
  {
    if toks != [] && w != "" {
      FillCons(toks, vals);
      var head := TokText(toks[0]);
      var first := Flat(toks)[0];
      assert w[0] in w && w[0] == first;
      assert toks[0].Hole? ==> first == '{';
      if |w| > |head| {
        assert head <= w;
        assert w[|head|..] <= Flat(toks[1..]);
        PrefixSurvivesFilling(w[|head|..], toks[1..], vals);
        assert w == head + w[|head|..];
      } else {
        assert w <= head;
      }
    }
  }

  lemma BracedPrefixStays(x: string, toks: seq<Tok>, vals: Values, p: string)
    requires IsIdent(p) && x != "" && Braced(p) <= x + Flat(toks)
    ensures Braced(p) <= x + Flat(Fill(toks, vals))
  {
    var w := Braced(p);
    if |x| < |w| {
      assert w == x + w[|x|..];
      assert w[|x|..] <= Flat(toks);
      assert '{' !in w[1..];
      assert w[1..][|x| - 1..] == w[|x|..];
      PrefixSurvivesFilling(w[|x|..], toks, vals);
    } else {
      assert w <= x;
    }
  }

  /**
   * If the text that follows holds no placeholder once its holes are filled, then no opening brace in a character
   * or a value that is already in place starts the braced name `p`.
   */
  lemma NoStrayBrace(x: string, toks: seq<Tok>, vals: Values, p: string)
    requires IsIdent(p) && x != "" && !HasPlaceholder(x + Flat(Fill(toks, vals)))
    ensures !At(x + Flat(toks), Braced(p), 0)
  {
    var now, later := x + Flat(toks), x + Flat(Fill(toks, vals));
    if At(now, Braced(p), 0) {
      assert now[0..|Braced(p)|] == now[..|Braced(p)|];
      BracedPrefixStays(x, toks, vals, p);
      HoleIsBracedIdent(later);
      PlaceholderHeadOrTail(later);
    }
  }

  lemma BracedChars(n: string, i: nat)
    requires IsIdent(n) && i < |Braced(n)|
    ensures Braced(n)[i] == if i == 0 then '{' else if i <= |n| then n[i - 1] else '}'
    ensures i > 0 ==> Braced(n)[i] != '{'
    ensures 0 < i <= |n| ==> Braced(n)[i] != '}'
  {
    if 0 < i <= |n| {
      assert IdentChar(n[i - 1]);
    }
  }

  /** Two braced names that agree over the shorter one are the same. */
  lemma BracedApartAtStart(n: string, p: string, rest: string)
    requires IsIdent(n) && IsIdent(p) && Braced(p) <= Braced(n) + rest
    ensures n == p
  {
    var a, b := Braced(n), Braced(p);
    var k := if |p| < |n| then |p| + 1 else |n| + 1;
    BracedChars(n, k);
    BracedChars(p, k);
    assert (a + rest)[k] == a[k] == b[k];
    assert a[1..|n| + 1] == n && b[1..|p| + 1] == p;
    assert (a + rest)[..|a|] == a && (a + rest)[..|b|] == b;
  }

  /** A hole is an occurrence of its own braced name only. */
  lemma OtherHole(n: string, p: string, rest: string, i: nat)
    requires IsIdent(n) && IsIdent(p) && n != p && i < |Braced(n)|
    ensures !At(Braced(n) + rest, Braced(p), i)
  {
    var t := Braced(n) + rest;
    if At(t, Braced(p), i) {
      assert t[i..i + |Braced(p)|][0] == t[i] == Braced(n)[i];
      BracedChars(n, i);
      if i == 0 {
        assert Braced(p) <= t;
        BracedApartAtStart(n, p, rest);
      }
    }
  }

  lemma NoMatchInText(x: string, toks: seq<Tok>, p: string, vals: Values, i: nat)
    requires IsIdent(p) && i < |x| && !HasPlaceholder(x + Flat(Fill(toks, vals)))
    ensures !At(x + Flat(toks), Braced(p), i)
  {
    var now, later := Flat(toks), Flat(Fill(toks, vals));
    var y := x[i..];
    assert x + later == x[..i] + (y + later);
    if HasPlaceholder(y + later) {
      PlaceholderInTail(x[..i], y + later);
    }
    NoStrayBrace(y, toks, vals, p);
    assert (x + now)[i..] == y + now;
    AtShift(x + now, Braced(p), i, 0);
  }

  lemma NoMatchInHead(toks: seq<Tok>, p: string, vals: Values, i: nat)
    requires IsIdent(p) && toks != [] && (toks[0].Hole? ==> IsIdent(toks[0].name)) && toks[0] != Hole(p)
    requires !HasPlaceholder(Flat(Fill(toks, vals))) && i < |TokText(toks[0])|
    ensures !At(Flat(toks), Braced(p), i)
  {
    if toks[0].Hole? {
      OtherHole(toks[0].name, p, Flat(toks[1..]), i);
    } else {
      FillCons(toks, vals);
      NoMatchInText(TokText(toks[0]), toks[1..], p, vals, i);
    }
  }

  /** Replacing one braced name in the text fills exactly the holes of that name. */
  lemma {:induction false} ReplaceFillsHoles(toks: seq<Tok>, p: string, x: string, vals: Values)
    requires IsIdent(p) && forall k :: k in toks && k.Hole? ==> IsIdent(k.name)
    requires !HasPlaceholder(Flat(Fill(toks, vals)))
    ensures Replace(Flat(toks), Braced(p), x) == Flat(Fill(toks, map[p := x]))
    decreases |toks|
  {
    if toks != [] {
      var head, rest := TokText(toks[0]), toks[1..];
      FillCons(toks, map[p := x]);
      assert !HasPlaceholder(Flat(Fill(rest, vals))) by {
        FillCons(toks, vals);
        if HasPlaceholder(Flat(Fill(rest, vals))) {
          PlaceholderInTail(TokText(FillTok(toks[0], vals)), Flat(Fill(rest, vals)));
        }
      }
      ReplaceFillsHoles(rest, p, x, vals);
      if toks[0] == Hole(p) {
        ReplaceLeading(Flat(rest), Braced(p), x);
      } else {
        assert toks[0] in toks;
        forall i | 0 <= i < |head|
          ensures !At(head + Flat(rest), Braced(p), i)
        {
          NoMatchInHead(toks, p, vals, i);
        }
        ReplaceSkips(head, Flat(rest), Braced(p), x);
      }
    }
  }

  lemma FillInParts(toks: seq<Tok>, m: Values, vals: Values)
    requires m.Keys <= vals.Keys && forall q :: q in m ==> m[q] == vals[q]
    ensures Fill(Fill(toks, m), vals) == Fill(toks, vals)
    ensures forall k :: k in Fill(toks, m) && k.Hole? ==> k in toks
  {
    forall i | 0 <= i < |toks| && Fill(toks, m)[i].Hole?
      ensures Fill(toks, m)[i] in toks
    {
      assert toks[i] in toks;
    }
  }

  /** One pass of the loop: the holes of one more name are filled. */
  lemma OnePass(template: string, m: Values, p: string, x: string, vals: Values)
    requires IsIdent(p) && p !in m && m.Keys <= vals.Keys && !HasPlaceholder(Simultaneous(template, vals))
    requires forall q :: q in m ==> m[q] == vals[q]
    ensures Replace(Flat(Fill(Scan(template), m)), Braced(p), x) == Flat(Fill(Scan(template), m[p := x]))
  {
    var toks := Scan(template);
    ScanIsFaithful(template);
    FillInParts(toks, m, vals);
    ReplaceFillsHoles(Fill(toks, m), p, x, vals);
    FillTwice(toks, m, p, x);
  }

  /** The loop once the names of `m` are done: whatever the order, it ends with all of them filled. */
  lemma {:induction false} SequentialFills(template: string, m: Values, order: seq<string>, vals: Values)
    requires Distinct(order) && forall p :: p in order ==> p in vals && p !in m && IsIdent(p)
    requires m.Keys <= vals.Keys && forall q :: q in m ==> m[q] == vals[q]
    requires forall q :: q in vals ==> q in m || q in order
    requires !HasPlaceholder(Simultaneous(template, vals))
    ensures Sequential(Flat(Fill(Scan(template), m)), order, vals) == Simultaneous(template, vals)
    decreases |order|
  {
    if order == [] {
      assert m == vals;
    } else {
      var p := order[0];
      OnePass(template, m, p, vals[p], vals);
      SequentialFills(template, m[p := vals[p]], order[1..], vals);
    }
  }

  /**
   * Substituting one placeholder after the other, in any order, gives the simultaneous filling exactly when that
   * filling holds no placeholder; the code's own leftover check decides which results are returned at all.
   */
  lemma SequentialIsSimultaneousExactly(template: string, order: seq<string>, vals: Values)
    requires Distinct(order) && vals.Keys == Names(template) && forall p :: p in order <==> p in vals
    ensures !HasPlaceholder(Simultaneous(template, vals)) ==>
              Sequential(template, order, vals) == Simultaneous(template, vals)
    ensures !HasPlaceholder(Sequential(template, order, vals)) ==>
              (Sequential(template, order, vals) == Simultaneous(template, vals)
               <==> !HasPlaceholder(Simultaneous(template, vals)))
  {
    if !HasPlaceholder(Simultaneous(template, vals)) {
      ScanIsFaithful(template);
      assert Fill(Scan(template), map[]) == Scan(template);
      SequentialFills(template, map[], order, vals);
    }
  }

  // ----- when the simultaneous filling is clean -----

  /** A stretch of quoted text without quote characters is a stretch of the value. */
  lemma {:induction false} EscapedPrefix(v: string, rest: string, w: string)
    requires w <= Escaped(v) + "'" + rest && '\'' !in w
    ensures w <= v
    decreases |v|
  {
    if w != "" {
      var t := Escaped(v) + "'" + rest;
      assert w[0] == t[0];
      if v != "" {
        assert v[..1] == [v[0]];
        assert Escaped(v)[0] == v[0];
        assert Escaped(v)[1..] == Escaped(v[1..]);
        assert w[1..] <= Escaped(v[1..]) + "'" + rest by {
          assert t[1..] == Escaped(v[1..]) + "'" + rest;
        }
        EscapedPrefix(v[1..], rest, w[1..]);
        assert w == [v[0]] + w[1..];
      }
    }
  }

  function EscapedChar(c: char): (e: string)
    ensures e != "" && (|e| > 1 ==> '{' !in e)
  {
    if c == '\'' then ESCAPED_QUOTE else [c]
  }

  lemma EscapedCons(v: string)
    requires v != ""
    ensures Escaped(v) == EscapedChar(v[0]) + Escaped(v[1..])
  {
    assert v[..1] == [v[0]];
  }

  lemma EscapedTail(v: string, rest: string, i: nat)
    requires v != "" && |EscapedChar(v[0])| <= i < |Escaped(v)|
    ensures i - |EscapedChar(v[0])| < |Escaped(v[1..])|
    ensures (Escaped(v) + "'" + rest)[i..] == (Escaped(v[1..]) + "'" + rest)[i - |EscapedChar(v[0])|..]
  {
    EscapedCons(v);
    var head, next := EscapedChar(v[0]), Escaped(v[1..]) + "'" + rest;
    assert Escaped(v) + "'" + rest == head + next;
  }

  lemma EscapedHead(v: string, rest: string, i: nat)
    requires v != "" && i < |EscapedChar(v[0])| && HoleLength((Escaped(v) + "'" + rest)[i..]) > 0
    ensures HoleLength(Escaped(v) + "'" + rest) > 0
  {
    EscapedCons(v);
    var t := Escaped(v) + "'" + rest;
    var head := EscapedChar(v[0]);
    assert head[i] == t[i] == t[i..][0] == '{';
    assert head[i] in head;
    assert t[0..] == t;
  }

  lemma PlaceholderOpensEscaped(v: string, rest: string)
    requires HoleLength(Escaped(v) + "'" + rest) > 0
    ensures HasPlaceholder(v)
  {
    var t := Escaped(v) + "'" + rest;
    HoleIsBracedIdent(t);
    EscapedPrefix(v, rest, Braced(t[1..HoleLength(t) - 1]));
    HoleIsBracedIdent(v);
    assert v[0..] == v;
  }

  /** Quoted text holds a placeholder only if the value does. */
  lemma {:induction false} EscapedPlaceholder(v: string, rest: string, i: nat)
    requires i < |Escaped(v)| && HoleLength((Escaped(v) + "'" + rest)[i..]) > 0
    ensures HasPlaceholder(v)
    decreases |v|
  {
    var k := |EscapedChar(v[0])|;
    if i >= k {
      EscapedTail(v, rest, i);
      EscapedPlaceholder(v[1..], rest, i - k);
      PlaceholderInTail([v[0]], v[1..]);
      assert v == [v[0]] + v[1..];
    } else {
      EscapedHead(v, rest, i);
      PlaceholderOpensEscaped(v, rest);
    }
  }

  lemma QuoteHasNoBrace(v: string, i: nat)
    requires i < |Quote(v)| && (v == "" || AllSafe(v))
    ensures Quote(v)[i] != '{'
  {
    if v != "" {
      assert v[i] in v;
    }
  }

  lemma TailOfCons(c: char, tail: string, i: nat)
    requires 0 < i <= |tail| + 1
    ensures ([c] + tail)[i..] == tail[i - 1..]
  {
  }

  lemma QuotedAsCons(v: string, rest: string)
    requires v != "" && !AllSafe(v)
    ensures Quote(v) + rest == ['\''] + (Escaped(v) + "'" + rest)
  {
  }

  /** Behind its opening quote, a quoted value is the escaped value and the closing quote. */
  lemma QuotedTail(v: string, rest: string, i: nat)
    requires v != "" && !AllSafe(v) && 0 < i <= |Escaped(v)|
    ensures (Quote(v) + rest)[i..] == (Escaped(v) + "'" + rest)[i - 1..]
  {
    QuotedAsCons(v, rest);
    TailOfCons('\'', Escaped(v) + "'" + rest, i);
  }

  lemma QuotedBraceIsInside(v: string, i: nat)
    requires v != "" && !AllSafe(v) && i < |Quote(v)| && Quote(v)[i] == '{'
    ensures 0 < i <= |Escaped(v)|
  {
    var e := Escaped(v);
    assert Quote(v) == ['\''] + e + ['\''];
  }

  lemma QuotePlaceholder(v: string, rest: string, i: nat)
    requires i < |Quote(v)| && HoleLength((Quote(v) + rest)[i..]) > 0
    ensures HasPlaceholder(v)
  {
    assert Quote(v)[i] == (Quote(v) + rest)[i] == (Quote(v) + rest)[i..][0];
    if v != "" && !AllSafe(v) {
      QuotedBraceIsInside(v, i);
      QuotedTail(v, rest, i);
      EscapedPlaceholder(v, rest, i - 1);
    } else {
      QuoteHasNoBrace(v, i);
    }
  }

  predicate BraceFreeLiterals(toks: seq<Tok>)
  {
    forall k :: k in toks && k.Ch? ==> k.c != '{'
  }

  function QuotedValues(args: Values): Values
  {
    map p | p in args :: Quote(args[p])
  }

  /** With brace-free literals and placeholder-free values, the filling holds no placeholder. */
  lemma {:induction false} FillingIsClean(toks: seq<Tok>, args: Values)
    requires BraceFreeLiterals(toks)
    requires forall k :: k in toks ==> !k.Val? && (k.Hole? ==> k.name in args && !HasPlaceholder(args[k.name]))
    ensures !HasPlaceholder(Flat(Fill(toks, QuotedValues(args))))
    decreases |toks|
  {
    if toks != [] {
      var vals, rest := QuotedValues(args), toks[1..];
      FillCons(toks, vals);
      FillingIsClean(rest, args);
      var head, tail := TokText(FillTok(toks[0], vals)), Flat(Fill(rest, vals));
      forall i | 0 <= i < |head + tail|
        ensures HoleLength((head + tail)[i..]) == 0
      {
        assert toks[0] in toks;
        if i >= |head| {
          assert (head + tail)[i..] == tail[i - |head|..];
        } else if toks[0].Hole? {
          if HoleLength((head + tail)[i..]) > 0 {
            QuotePlaceholder(args[toks[0].name], tail, i);
          }
        } else {
          assert (head + tail)[i..][0] == toks[0].c;
        }
      }
    }
  }

  /** The documented case: brace-free literals and values without placeholders make the code a simultaneous filling. */
  lemma BraceFreeTemplatesFillAtOnce(template: string, order: seq<string>, args: Values)
    requires Distinct(order) && args.Keys == Names(template) && forall p :: p in order <==> p in args
    requires BraceFreeLiterals(Scan(template)) && forall p :: p in args ==> !HasPlaceholder(args[p])
    ensures Sequential(template, order, QuotedValues(args)) == Simultaneous(template, QuotedValues(args))
    ensures !HasPlaceholder(Sequential(template, order, QuotedValues(args)))
  {
    ScanIsFaithful(template);
    forall k | k in Scan(template) && k.Hole?
      ensures k.name in args
    {
      assert k.name in Names(template);
    }
    FillingIsClean(Scan(template), args);
    assert QuotedValues(args).Keys == args.Keys;
    SequentialIsSimultaneousExactly(template, order, QuotedValues(args));
  }
}
