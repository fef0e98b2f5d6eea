/**
 * "Every value becomes exactly one shell word" (app/params.py): exactly for holes outside quotes and comments. The
 * quoting is the same everywhere; inside quotes of the template it is read as text or ends them.
 */
module Holes {
  import opened Options
  import opened ShellWords
  import opened Templates
  import opened Params

  const START := Lexer(Plain, None, [])

  /** Reading goes from `s` to `s'` by adding exactly the characters of `v` to the word, and nothing else happens. */
  predicate Adds(s: Lexer, s': Lexer, v: string)
  {
    s'.mode == s.mode && s'.done == s.done && s'.cur.Some? && Chars(s'.Word()) == Chars(s.Word()) + v
  }

  lemma CharsConcat(a: seq<WordChar>, b: seq<WordChar>)
    ensures Chars(a + b) == Chars(a) + Chars(b)
  {
  }

  lemma UnquotedAdds(s: Lexer, v: string)
    requires s.mode == Plain
    ensures Adds(s, Read(Quote(v), s), v)
  {
    QuoteIsOneLiteral(v, s);
    CharsConcat(s.Word(), Literal(v));
    LiteralIsInert(v);
  }

  lemma QuotedSpace()
    ensures Quote(" ") == "' '"
  {
    var v := " ";
    assert v[0] in v && !Safe(v[0]);
    assert Escaped(v) == v;
  }

  lemma ReadThree(a: char, b: char, c: char, s: Lexer)
    ensures Read([a, b, c], s) == Step(Step(Step(s, a), b), c)
  {
    var t := [a, b, c];
    assert Read(t, s) == Read(t[1..], Step(s, a));
    assert t[1..] == [b, c] && Read([b, c], Step(s, a)) == Read([b, c][1..], Step(Step(s, a), b));
    assert [b, c][1..] == [c] && [c][1..] == [];
  }

  /** Anywhere else the value of one space is not added as it is. */
  lemma SpaceFailsElsewhere(s: Lexer)
    requires s.mode != Plain
    ensures !Adds(s, Read(Quote(" "), s), " ")
  {
    QuotedSpace();
    assert "' '" == ['\'', ' ', '\''];
    ReadThree('\'', ' ', '\'', s);
    var s1 := Step(s, '\'');
    var s2 := Step(s1, ' ');
    var s3 := Step(s2, '\'');
    match s.mode
    case InSingle => assert s.cur.Some? ==> |s2.done| == |s.done| + 1;
    case InDouble => assert |s3.Word()| == |s.Word()| + 3;
    case PlainEscape =>
    case DoubleEscape =>
    case InComment =>
  }

  /** A value is exactly one literal stretch of a word, whatever it is, exactly where the reader is outside quotes. */
  lemma OneWordExactly(s: Lexer)
    ensures (forall v :: Adds(s, Read(Quote(v), s), v)) <==> s.mode == Plain
  {
    if s.mode == Plain {
      forall v
        ensures Adds(s, Read(Quote(v), s), v)
      {
        UnquotedAdds(s, v);
      }
    } else {
      SpaceFailsElsewhere(s);
    }
  }

  predicate Covers(toks: seq<Tok>, vals: Values)
  {
    forall k :: k in toks ==> !k.Val? && (k.Hole? ==> k.name in vals)
  }

  /** Reading the filled template, every hole adds exactly its value. */
  predicate HolesAdd(toks: seq<Tok>, vals: Values, s: Lexer)
    requires Covers(toks, vals)
    decreases |toks|
  {
    toks == []
    || (if toks[0].Hole? then
          var s' := Read(Quote(vals[toks[0].name]), s);
          Adds(s, s', vals[toks[0].name]) && HolesAdd(toks[1..], vals, s')
        else HolesAdd(toks[1..], vals, ReadToken(toks[0], vals, s)))
  }

  lemma {:induction false} UnquotedHolesAdd(toks: seq<Tok>, vals: Values, s: Lexer)
    requires Covers(toks, vals) && UnquotedHoles(toks, vals, s)
    ensures HolesAdd(toks, vals, s)
    decreases |toks|
  {
    if toks != [] {
      if toks[0].Hole? {
        UnquotedAdds(s, vals[toks[0].name]);
        QuoteIsOneLiteral(vals[toks[0].name], s);
      }
      UnquotedHolesAdd(toks[1..], vals, ReadToken(toks[0], vals, s));
    }
  }

  predicate AllSpaces(vals: Values)
  {
    forall p :: p in vals ==> vals[p] == " "
  }

  lemma {:induction false} SpacesShowQuotes(toks: seq<Tok>, vals: Values, s: Lexer)
    requires Covers(toks, vals) && AllSpaces(vals) && HolesAdd(toks, vals, s)
    ensures UnquotedHoles(toks, vals, s)
    decreases |toks|
  {
    if toks != [] {
      if toks[0].Hole? {
        if s.mode != Plain {
          SpaceFailsElsewhere(s);
        }
        QuoteIsOneLiteral(" ", s);
      }
      SpacesShowQuotes(toks[1..], vals, ReadToken(toks[0], vals, s));
    }
  }

  lemma SafeForAll(toks: seq<Tok>, any: Values, vals: Values)
    requires Covers(toks, any) && Covers(toks, vals) && UnquotedHoles(toks, any, START)
    ensures HolesAdd(toks, vals, START)
  {
    ValuesKeepShape(toks, any, vals, START, START);
    UnquotedHolesAdd(toks, vals, START);
  }

  /**
   * In every filling of a template each value is added as it stands, exactly if every hole of the template is outside
   * quotes and comments; which values are used to look does not matter.
   */
  lemma TemplateSafeExactly(template: string, any: Values)
    requires any.Keys == Names(template) && Covers(Scan(template), any)
    ensures (forall vals: Values :: vals.Keys == any.Keys && Covers(Scan(template), vals) ==>
                                      HolesAdd(Scan(template), vals, START))
            <==> UnquotedHoles(Scan(template), any, START)
  {
    var toks := Scan(template);
    if UnquotedHoles(toks, any, START) {
      forall vals: Values | vals.Keys == any.Keys && Covers(toks, vals)
        ensures HolesAdd(toks, vals, START)
      {
        SafeForAll(toks, any, vals);
      }
    }
    if forall vals: Values :: vals.Keys == any.Keys && Covers(toks, vals) ==> HolesAdd(toks, vals, START) {
      var spaces: Values := map p | p in any :: " ";
      assert Covers(toks, spaces) && spaces.Keys == any.Keys;
      SpacesShowQuotes(toks, spaces, START);
      ValuesKeepShape(toks, spaces, any, START, START);
    }
  }

  lemma ScanQuoted(p: string)
    requires IsIdent(p)
    ensures Scan(['\''] + (Braced(p) + ['\''])) == [Ch('\''), Hole(p), Ch('\'')]
  {
    ScanChar('\'', Braced(p) + ['\'']);
    ScanHole(p, ['\'']);
    ScanChar('\'', "");
    assert ['\''] + "" == ['\''];
  }

  /** A placeholder between single quotes is such a failing template: the value of one space ends the word. */
  lemma QuotedPlaceholderFails(p: string)
    requires IsIdent(p)
    ensures var toks := Scan(['\''] + (Braced(p) + ['\'']));
            var vals: Values := map[p := " "];
            Covers(toks, vals) && !HolesAdd(toks, vals, START) && !UnquotedHoles(toks, vals, START)
  {
    ScanQuoted(p);
    var toks := [Ch('\''), Hole(p), Ch('\'')];
    assert toks[1..] == [Hole(p), Ch('\'')];
    SpaceFailsElsewhere(Step(START, '\''));
  }
}
