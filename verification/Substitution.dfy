/**
 * Exactly when substituting one parameter after the other (app/params.py: validate_and_substitute) is the same as
 * filling all holes at once: when no value names a placeholder that is still to come.
 */
module Substitution {
  import opened Options
  import opened Registry
  import opened Text
  import opened ShellWords
  import opened Templates
  import opened Params

  lemma BracedApart(x: string, q: string)
    requires IsIdent(x) && IsIdent(q) && x != q
    ensures Apart(Braced(x), Braced(q))
  {
    forall rest: string, i: int | 0 <= i < |Braced(x)|
      ensures !At(Braced(x) + rest, Braced(q), i)
    {
      OtherHole(x, q, rest, i);
    }
  }

  lemma PlaceholderOccurs(t: string) returns (x: string)
    requires HasPlaceholder(t)
    ensures IsIdent(x) && Occurs(Braced(x), t)
  {
    var i :| 0 <= i < |t| && HoleLength(t[i..]) > 0;
    HoleIsBracedIdent(t[i..]);
    x := t[i..][1..HoleLength(t[i..]) - 1];
    assert t[i..][0..|Braced(x)|] == Braced(x);
    assert At(t[i..], Braced(x), 0);
    OccursInTail(Braced(x), t, i);
  }

  lemma OccursIsPlaceholder(x: string, t: string)
    requires IsIdent(x) && Occurs(Braced(x), t)
    ensures HasPlaceholder(t)
  {
    var i :| 0 <= i <= |t| - |Braced(x)| && At(t, Braced(x), i);
    assert Braced(x) <= t[i..];
    HoleIsBracedIdent(t[i..]);
  }

  lemma QuoteApart(x: string)
    requires IsIdent(x)
    ensures Apart(Braced(x), "'") && Apart("'", Braced(x))
  {
    var w := Braced(x);
    forall rest: string, k: int | 0 <= k < |w|
      ensures !At(w + rest, "'", k)
    {
      assert w[k] == if k == 0 then '{' else if k <= |x| then x[k - 1] else '}';
      assert 0 < k <= |x| ==> IdentChar(x[k - 1]);
      var t := w + rest;
      assert t[k] == w[k] != '\'';
      assert t[k..k + 1] == [t[k]];
    }
    forall rest: string, k: int | 0 <= k < |"'"|
      ensures !At("'" + rest, w, k)
    {
      var t := "'" + rest;
      if |w| <= |t| {
        assert t[0..|w|][0] == t[0] == '\'';
      }
    }
  }

  /** Quoting keeps a placeholder that stands in a value. */
  lemma QuoteKeepsBraced(v: string, x: string)
    requires IsIdent(x) && Occurs(Braced(x), v)
    ensures Occurs(Braced(x), Quote(v))
  {
    var w := Braced(x);
    var i :| 0 <= i <= |v| - |w| && At(v, w, i);
    assert v[i..i + |w|][0] == v[i] == '{';
    assert v[i] in v && !Safe(v[i]);
    QuoteApart(x);
    ReplaceKeeps(v, "'", ESCAPED_QUOTE, w);
    var q := Quote(v);
    assert q[1..] == Escaped(v) + "'";
    OccursLeft(w, Escaped(v), "'");
    OccursInTail(w, q, 1);
  }

  lemma OccursLeft(w: string, a: string, b: string)
    requires Occurs(w, a)
    ensures Occurs(w, a + b)
  {
    var i :| 0 <= i <= |a| - |w| && At(a, w, i);
    assert (a + b)[i..i + |w|] == a[i..i + |w|];
    assert At(a + b, w, i);
  }

  lemma {:induction false} SequentialKeeps(text: string, order: seq<string>, vals: Values, x: string)
    requires IsIdent(x) && x !in order && Occurs(Braced(x), text)
    requires forall p :: p in order ==> p in vals && IsIdent(p)
    ensures Occurs(Braced(x), Sequential(text, order, vals))
    decreases |order|
  {
    if order != [] {
      var p := order[0];
      assert p in order;
      BracedApart(x, p);
      BracedApart(p, x);
      ReplaceKeeps(text, Braced(p), vals[p], Braced(x));
      SequentialKeeps(Replace(text, Braced(p), vals[p]), order[1..], vals, x);
    }
  }

  /** A value that names a placeholder which is not still to come leaves it in the result. */
  lemma {:induction false} MentionStays(text: string, order: seq<string>, vals: Values, i: nat, x: string)
    requires Distinct(order) && i < |order| && forall p :: p in order ==> p in vals && IsIdent(p)
    requires Occurs(Braced(order[i]), text)
    requires IsIdent(x) && Occurs(Braced(x), vals[order[i]]) && x !in order[i + 1..]
    ensures HasPlaceholder(Sequential(text, order, vals))
    decreases |order|
  {
    var p := order[0];
    var next := Replace(text, Braced(p), vals[p]);
    if i == 0 {
      ReplaceLeaves(text, Braced(p), vals[p]);
      OccursTrans(Braced(x), vals[p], next);
      SequentialKeeps(next, order[1..], vals, x);
      OccursIsPlaceholder(x, Sequential(text, order, vals));
    } else {
      BracedApart(order[i], p);
      BracedApart(p, order[i]);
      ReplaceKeeps(text, Braced(p), vals[p], Braced(order[i]));
      assert order[1..][i - 1] == order[i] && order[1..][i..] == order[i + 1..];
      MentionStays(next, order[1..], vals, i - 1, x);
    }
  }

  lemma {:induction false} HoleOccurs(toks: seq<Tok>, p: string)
    requires Hole(p) in toks
    ensures Occurs(Braced(p), Flat(toks))
    decreases |toks|
  {
    var head, tail := TokText(toks[0]), Flat(toks[1..]);
    if toks[0] == Hole(p) {
      assert (head + tail)[0..|head|] == head;
      assert At(head + tail, Braced(p), 0);
    } else {
      assert toks == [toks[0]] + toks[1..];
      HoleOccurs(toks[1..], p);
      assert (head + tail)[|head|..] == tail;
      OccursInTail(Braced(p), head + tail, |head|);
    }
  }

  /** A filled hole's value stands in the filling. */
  lemma {:induction false} ValueOccurs(toks: seq<Tok>, vals: Values, p: string)
    requires Hole(p) in toks && p in vals
    ensures Occurs(vals[p], Flat(Fill(toks, vals)))
    decreases |toks|
  {
    FillCons(toks, vals);
    var head, tail := TokText(FillTok(toks[0], vals)), Flat(Fill(toks[1..], vals));
    if toks[0] == Hole(p) {
      assert (head + tail)[0..|head|] == head;
      assert At(head + tail, vals[p], 0);
    } else {
      assert toks == [toks[0]] + toks[1..];
      ValueOccurs(toks[1..], vals, p);
      assert (head + tail)[|head|..] == tail;
      OccursInTail(vals[p], head + tail, |head|);
    }
  }

  /** Some value contains a placeholder whose turn is still to come. */
  predicate MentionsLater(order: seq<string>, vals: Values)
    requires forall p :: p in order ==> p in vals
  {
    exists i, j | 0 <= i < j < |order| :: Occurs(Braced(order[j]), vals[order[i]])
  }

  /**
   * With brace-free literals, a returned command is the simultaneous filling of the template exactly when no value
   * contains a placeholder that sorts later.
   */
  lemma ReturnedIsSimultaneousExactly(template: string, specs: Specs, args: Values, matches: Matcher)
    requires specs != map[] && Resolved(template, specs, args, matches).Some?
    requires BraceFreeLiterals(Scan(template))
    ensures var vals := Completed(Names(template), specs, args);
            && vals.Keys == Names(template) && (forall p :: p in SortedNames(template) ==> p in vals)
            && (Resolved(template, specs, args, matches).value == Simultaneous(template, QuotedValues(vals))
                <==> !MentionsLater(SortedNames(template), vals))
  {
    var vals := Completed(Names(template), specs, args);
    SortedNamesEnumerate(template);
    ResolvedFillsAtOnce(template, specs, args, matches);
    if MentionsLater(SortedNames(template), vals) {
      LaterMentionDiffers(template, vals);
    } else {
      forall p | p in vals
        ensures !HasPlaceholder(vals[p])
      {
        if HasPlaceholder(vals[p]) {
          MentionIsLater(template, vals, p);
        }
      }
    }
  }

  lemma NamesAreHoles(template: string, p: string)
    requires p in Names(template)
    ensures Hole(p) in Scan(template) && IsIdent(p) && Occurs(Braced(p), template)
  {
    ScanIsFaithful(template);
    HoleOccurs(Scan(template), p);
  }

  lemma LaterMentionDiffers(template: string, vals: Values)
    requires vals.Keys == Names(template)
    requires forall p :: p in SortedNames(template) ==> p in vals
    requires MentionsLater(SortedNames(template), vals)
    ensures HasPlaceholder(Simultaneous(template, QuotedValues(vals)))
  {
    var order := SortedNames(template);
    var i, j :| 0 <= i < j < |order| && Occurs(Braced(order[j]), vals[order[i]]);
    SortedNamesEnumerate(template);
    assert order[i] in order && order[j] in order;
    NamesAreHoles(template, order[i]);
    NamesAreHoles(template, order[j]);
    QuoteKeepsBraced(vals[order[i]], order[j]);
    var quoted := QuotedValues(vals);
    ValueOccurs(Scan(template), quoted, order[i]);
    OccursTrans(Braced(order[j]), quoted[order[i]], Simultaneous(template, quoted));
    OccursIsPlaceholder(order[j], Simultaneous(template, quoted));
  }

  /** If the result is free of placeholders, one named by a value was still to come. */
  lemma MentionIsLater(template: string, vals: Values, p: string)
    requires vals.Keys == Names(template) && p in vals && HasPlaceholder(vals[p])
    requires forall q :: q in SortedNames(template) ==> q in vals
    requires !HasPlaceholder(Sequential(template, SortedNames(template), QuotedValues(vals)))
    ensures MentionsLater(SortedNames(template), vals)
  {
    var order, quoted := SortedNames(template), QuotedValues(vals);
    SortedNamesEnumerate(template);
    var x := PlaceholderOccurs(vals[p]);
    var i :| 0 <= i < |order| && order[i] == p;
    if x !in order[i + 1..] {
      QuoteKeepsBraced(vals[p], x);
      forall q | q in order
        ensures IsIdent(q) && Occurs(Braced(q), template)
      {
        NamesAreHoles(template, q);
      }
      assert Occurs(Braced(x), quoted[order[i]]);
      MentionStays(template, order, quoted, i, x);
    }
    var j :| 0 <= j < |order[i + 1..]| && order[i + 1..][j] == x;
    assert order[i + 1 + j] == x;
  }

  /**
   * To the shell, a returned command is its template with each value as literal text in its hole: with brace-free
   * literals, unquoted holes and no value that names a later placeholder.
   */
  lemma ReturnedReadsAsTemplate(template: string, specs: Specs, args: Values, matches: Matcher)
    requires specs != map[] && Resolved(template, specs, args, matches).Some?
    requires BraceFreeLiterals(Scan(template))
    requires var vals := Completed(Names(template), specs, args);
             && (forall p :: p in SortedNames(template) ==> p in vals) && !MentionsLater(SortedNames(template), vals)
             && (forall k :: k in Scan(template) && k.Hole? ==> k.name in vals)
             && UnquotedHoles(Scan(template), vals, Lexer(Plain, None, []))
    ensures var start := Lexer(Plain, None, []);
            Read(Resolved(template, specs, args, matches).value, start)
            == ReadTokens(Scan(template), Completed(Names(template), specs, args), start)
  {
    var vals := Completed(Names(template), specs, args);
    ReturnedIsSimultaneousExactly(template, specs, args, matches);
    ArgumentsCannotReshape(template, vals, vals);
  }

  lemma SkipOne(c: char, b: string, pat: string, sub: string)
    requires pat != "" && pat[0] != c
    ensures Replace([c] + b, pat, sub) == [c] + Replace(b, pat, sub)
  {
    var t := [c] + b;
    assert t[1..] == b;
    if |t| >= |pat| {
      assert t[..|pat|][0] == c;
    }
  }

  lemma FirstPass(p: string, q: string, value: string)
    requires IsIdent(p) && IsIdent(q) && p != q
    ensures Replace(Braced(p) + Braced(q), Braced(p), value) == value + Braced(q)
  {
    ReplaceLeading(Braced(q), Braced(p), value);
    forall i | 0 <= i <= |Braced(q)| - |Braced(p)|
      ensures !At(Braced(q), Braced(p), i)
    {
      OtherHole(q, p, "", i);
      assert Braced(q) + "" == Braced(q);
    }
    ReplaceAbsent(Braced(q), Braced(p), value);
  }

  /** Two copies of a text, the first in single quotes. */
  function Twice(b: string): string
  {
    ['\''] + (b + (['\''] + b))
  }

  lemma SecondPass(b: string, value: string)
    requires b != "" && b[0] != '\''
    ensures Replace(Twice(b), b, value) == Twice(value)
  {
    var rest := ['\''] + b;
    ReplaceLeading("", b, value);
    assert b + "" == b && Replace(b, b, value) == value + "" == value;
    SkipOne('\'', b, b, value);
    ReplaceLeading(rest, b, value);
    SkipOne('\'', b + rest, b, value);
  }

  lemma QuotedBraced(q: string)
    requires IsIdent(q)
    ensures Quote(Braced(q)) == "'" + Braced(q) + "'"
  {
    var b := Braced(q);
    assert b[0] in b && !Safe(b[0]);
    forall i | 0 <= i <= |b| - 1
      ensures !At(b, "'", i)
    {
      assert b[i..i + 1][0] == b[i];
    }
    ReplaceAbsent(b, "'", ESCAPED_QUOTE);
  }

  /** Two placeholders next to each other. */
  function Pair(p: string, q: string): string
  {
    Braced(p) + Braced(q)
  }

  lemma PairTokens(p: string, q: string)
    requires IsIdent(p) && IsIdent(q)
    ensures Scan(Pair(p, q)) == [Hole(p), Hole(q)]
  {
    ScanHole(p, Braced(q));
    ScanHole(q, "");
    assert Braced(q) + "" == Braced(q);
  }

  lemma TwoSorted(p: string, q: string)
    requires Less(p, q)
    ensures SortedHoles([Hole(p), Hole(q)]) == [p, q]
  {
    var toks := [Hole(p), Hole(q)];
    assert toks[1..] == [Hole(q)] && toks[1..][1..] == [];
    assert SortedHoles(toks[1..]) == Insert(q, []) == [q];
  }

  lemma PairScans(p: string, q: string)
    requires IsIdent(p) && IsIdent(q) && Less(p, q)
    ensures SortedNames(Pair(p, q)) == [p, q] && Names(Pair(p, q)) == {p, q}
  {
    PairTokens(p, q);
    TwoSorted(p, q);
    var toks := [Hole(p), Hole(q)];
    assert toks[0] in toks && toks[1] in toks && toks[0].name == p && toks[1].name == q;
  }

  lemma QuotedThenBare(q: string)
    requires IsIdent(q)
    ensures Quote(Braced(q)) + Braced(q) == Twice(Braced(q))
  {
    QuotedBraced(q);
    var b := Braced(q);
    assert "'" + b + "'" + b == Twice(b);
  }

  lemma TwoPasses(text: string, p: string, q: string, vals: Values)
    requires p in vals && q in vals
    ensures Sequential(text, [p, q], vals) == Replace(Replace(text, Braced(p), vals[p]), Braced(q), vals[q])
  {
    var next := Replace(text, Braced(p), vals[p]);
    assert [p, q][1..] == [q] && [q][1..] == [];
    assert Sequential(next, [q], vals) == Sequential(Replace(next, Braced(q), vals[q]), [], vals);
  }

  lemma PairSequential(p: string, q: string, x: string)
    requires IsIdent(p) && IsIdent(q) && p != q
    ensures var vals: Values := map[p := Braced(q), q := x];
            Sequential(Pair(p, q), [p, q], QuotedValues(vals)) == Twice(Quote(x))
  {
    var vals: Values := map[p := Braced(q), q := x];
    var quoted := QuotedValues(vals);
    TwoPasses(Pair(p, q), p, q, quoted);
    QuotedThenBare(q);
    FirstPass(p, q, quoted[p]);
    SecondPass(Braced(q), quoted[q]);
  }

  const ANY := ".*"

  /** A parameter with the default length and a pattern that admits everything. */
  function Lenient(): ParamSpec
  {
    ParamSpec(None, 2048, false, Some(ANY))
  }

  lemma BracedPasses(p: string, q: string, matches: Matcher)
    requires IsIdent(q) && |q| <= 2046 && matches(ANY, Braced(q)) == FullMatch
    ensures ValueError(p, Braced(q), Lenient(), matches).None?
  {
    var v := Braced(q);
    assert v[0] == '{';
    forall c | c in v
      ensures !Dangerous(c)
    {
      var i :| 0 <= i < |v| && v[i] == c;
      assert c == '{' || c == '}' || c == q[i - 1];
    }
  }

  /**
   * The order matters, on input that validation accepts: with the template `{p}{q}`, a value of `p` that names `{q}` is
   * expanded by the second pass, inside the quotes of the first, and the command is not the simultaneous filling.
   */
  lemma LaterMentionIsExpanded(p: string, q: string, x: string, matches: Matcher)
    requires IsIdent(p) && IsIdent(q) && p != q && Less(p, q) && |q| <= 2046
    requires matches(ANY, Braced(q)) == FullMatch
    requires ValueError(q, x, Lenient(), matches).None? && !HasPlaceholder(Twice(Quote(x)))
    ensures var specs: Specs, args: Values := map[p := Lenient(), q := Lenient()], map[p := Braced(q), q := x];
            var r := Resolved(Pair(p, q), specs, args, matches);
            r == Some(Twice(Quote(x))) && r.value != Simultaneous(Pair(p, q), QuotedValues(args))
  {
    var specs: Specs, args: Values := map[p := Lenient(), q := Lenient()], map[p := Braced(q), q := x];
    PairScans(p, q);
    assert Completed({p, q}, specs, args) == args;
    BracedPasses(p, q, matches);
    PairSequential(p, q, x);
    PairMentions(p, q, args);
  }

  lemma PairMentions(p: string, q: string, vals: Values)
    requires IsIdent(p) && IsIdent(q) && p != q && Less(p, q) && vals.Keys == {p, q} && vals[p] == Braced(q)
    ensures HasPlaceholder(Simultaneous(Pair(p, q), QuotedValues(vals)))
  {
    var order := [p, q];
    PairScans(p, q);
    assert Braced(q)[0..|Braced(q)|] == Braced(q);
    assert At(vals[order[0]], Braced(order[1]), 0);
    assert MentionsLater(SortedNames(Pair(p, q)), vals);
    LaterMentionDiffers(Pair(p, q), vals);
  }
}
