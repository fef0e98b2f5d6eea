/**
 * Shell quoting (`shlex.quote`) against an independent reader of shell words: the quoting and token rules of
 * sections 2.2 and 2.3 of the POSIX.1 shell command language, without expansions.
 */
module ShellWords {
  import opened Options
  import opened Text

  // ----- the quoter -----

  predicate Safe(c: char)
  {
    'a' <= c <= 'z' || 'A' <= c <= 'Z' || '0' <= c <= '9' 
    || c == '_' || c == '@' || c == '%' || c == '+' || c == '=' || c == ':' || c == ',' || c == '.' || c == '/'
    || c == '-'
  }

  predicate AllSafe(v: string)
  {
    forall c :: c in v ==> Safe(c)
  }

  const ESCAPED_QUOTE := "'\"'\"'"

  function Escaped(v: string): string
  {
    Replace(v, "'", ESCAPED_QUOTE)
  }

  function Quote(v: string): string
  {
    if v == "" then "''" else if AllSafe(v) then v else "'" + Escaped(v) + "'"
  }

  // ----- the reader -----

  /** A character of a word; a quoted one has lost any special meaning. */
  datatype WordChar = WordChar(c: char, quoted: bool)

  datatype Token = Word(chars: seq<WordChar>) | Operator(op: char)

  datatype LexMode = Plain | PlainEscape | InSingle | InDouble | DoubleEscape | InComment

  /** `cur` is the word being read, if one has started. */
  datatype Lexer = Lexer(mode: LexMode, cur: Option<seq<WordChar>>, done: seq<Token>)
  {
    function Word(): seq<WordChar>
    {
      if cur.Some? then cur.value else []
    }

    /** The word being read, extended. */
    function Extend(w: seq<WordChar>): Lexer
    {
      this.(cur := Some(Word() + w))
    }

    function Add(c: char, quoted: bool): Lexer
    {
      Extend([WordChar(c, quoted)])
    }

    function Flush(): Lexer
    {
      if cur.Some? then Lexer(mode, None, done + [Token.Word(cur.value)]) else this
    }
  }

  predicate IsOperator(c: char)
  {
    c == '|' || c == '&' || c == ';' || c == '<' || c == '>' || c == '(' || c == ')' || c == '\n'
  }

  /** The characters a backslash quotes inside double quotes. */
  predicate SpecialInDouble(c: char)
  {
    c == '$' || c == '`' || c == '"' || c == '\\'
  }

  function Step(s: Lexer, c: char): Lexer
  {
    match s.mode
    case Plain =>
      if c == '\'' then s.Extend([]).(mode := InSingle)
      else if c == '"' then s.Extend([]).(mode := InDouble)
      else if c == '\\' then s.(mode := PlainEscape)
      else if c == ' ' || c == '\t' then s.Flush()
      else if IsOperator(c) then s.Flush().(done := s.Flush().done + [Operator(c)])
      else if c == '#' && s.cur.None? then s.(mode := InComment)
      else s.Add(c, false)
    case PlainEscape => if c == '\n' then s.(mode := Plain) else s.Add(c, true).(mode := Plain)
    case InSingle => if c == '\'' then s.(mode := Plain) else s.Add(c, true)
    case InDouble =>
      if c == '"' then s.(mode := Plain)
      else if c == '\\' then s.(mode := DoubleEscape)
      else s.Add(c, c != '$' && c != '`')
    case DoubleEscape =>
      if c == '\n' then s.(mode := InDouble)
      else if SpecialInDouble(c) then s.Add(c, true).(mode := InDouble)
      else s.Add('\\', true).Add(c, true).(mode := InDouble)
    case InComment => if c == '\n' then s.(mode := Plain, done := s.done + [Operator(c)]) else s
  }

  function Read(text: string, s: Lexer): Lexer
  {
    if text == "" then s else Read(text[1..], Step(s, text[0]))
  }

  lemma {:induction false} ReadConcat(a: string, b: string, s: Lexer)
    ensures Read(a + b, s) == Read(b, Read(a, s))
    decreases |a|
  {
    if a == "" {
      assert a + b == b;
    } else {
      assert (a + b)[1..] == a[1..] + b;
      ReadConcat(a[1..], b, Step(s, a[0]));
    }
  }

  function Marked(v: string, quoted: bool): (w: seq<WordChar>)
    ensures |w| == |v| && forall i :: 0 <= i < |v| ==> w[i] == WordChar(v[i], quoted)
  {
    if v == "" then [] else [WordChar(v[0], quoted)] + Marked(v[1..], quoted)
  }

  /** What a value is to the shell: its own characters, all quoted unless every one of them is inert anyway. */
  function Literal(v: string): seq<WordChar>
  {
    Marked(v, v == "" || !AllSafe(v))
  }

  lemma ExtendTwice(s: Lexer, a: seq<WordChar>, b: seq<WordChar>)
    ensures s.Extend(a).Extend(b) == s.Extend(a + b)
    ensures s.cur.Some? ==> s.Extend([]) == s
  {
    assert s.Word() + a + b == s.Word() + (a + b);
    assert s.Word() + [] == s.Word();
  }

  lemma StepSafe(c: char, s: Lexer)
    requires Safe(c) && s.mode == Plain
    ensures Step(s, c) == s.Add(c, false)
  {
  }

  lemma ReadOne(text: string, s: Lexer, next: Lexer)
    requires text != "" && Step(s, text[0]) == next
    ensures Read(text, s) == Read(text[1..], next)
  {
  }

  lemma {:induction false} ReadSafe(v: string, s: Lexer)
    requires AllSafe(v) && s.mode == Plain && (v != "" || s.cur.Some?)
    ensures Read(v, s) == s.Extend(Marked(v, false))
    decreases |v|
  {
    if v == "" {
      ExtendTwice(s, [], []);
    } else {
      assert v[0] in v;
      StepSafe(v[0], s);
      var next := s.Add(v[0], false);
      ReadOne(v, s, next);
      ReadSafe(v[1..], next);
      ExtendTwice(s, [WordChar(v[0], false)], Marked(v[1..], false));
    }
  }

  lemma ReadEscapedQuote(rest: string, s: Lexer)
    requires s.mode == InSingle && s.cur.Some?
    ensures Read(ESCAPED_QUOTE + rest, s) == Read(rest, s.Add('\'', true))
  {
    ReadConcat(ESCAPED_QUOTE, rest, s);
    var s1 := Step(s, '\'');
    var s2 := Step(s1, '"');
    var s3 := Step(s2, '\'');
    var s4 := Step(s3, '"');
    var s5 := Step(s4, '\'');
    ExtendTwice(s1, [], []);
    ExtendTwice(s4, [], []);
    assert s5 == s.Add('\'', true);
    var e := ESCAPED_QUOTE;
    assert e == ['\'', '"', '\'', '"', '\''];
    assert Read(e[4..], s4) == Read(e[5..], s5) by { assert e[4..][1..] == e[5..]; }
    assert Read(e[3..], s3) == s5 by { assert e[3..][1..] == e[4..]; }
    assert Read(e[2..], s2) == s5 by { assert e[2..][1..] == e[3..]; }
    assert Read(e[1..], s1) == s5 by { assert e[1..][1..] == e[2..]; }
  }

  lemma {:induction false} ReadEscaped(v: string, s: Lexer)
    requires s.mode == InSingle && s.cur.Some?
    ensures Read(Escaped(v), s) == s.Extend(Marked(v, true))
    decreases |v|
  {
    if v == "" {
      ExtendTwice(s, [], []);
    } else {
      var next := s.Add(v[0], true);
      assert v[..1] == [v[0]];
      if v[0] == '\'' {
        assert Escaped(v) == ESCAPED_QUOTE + Escaped(v[1..]);
        ReadEscapedQuote(Escaped(v[1..]), s);
      } else {
        assert Escaped(v)[1..] == Escaped(v[1..]);
        ReadOne(Escaped(v), s, next);
      }
      ReadEscaped(v[1..], next);
      ExtendTwice(s, [WordChar(v[0], true)], Marked(v[1..], true));
    }
  }

  /**
   * In unquoted context a quoted value contributes exactly its characters to the word being read, as literal
   * text, and leaves the reader in unquoted context: it neither ends the word nor starts anything.
   */
  lemma QuoteIsOneLiteral(v: string, s: Lexer)
    requires s.mode == Plain
    ensures Read(Quote(v), s) == s.Extend(Literal(v))
  {
    if v != "" && AllSafe(v) {
      ReadSafe(v, s);
    } else {
      var inside := s.Extend([]).(mode := InSingle);
      assert Quote(v) == "'" + Escaped(v) + "'";
      ReadConcat("'" + Escaped(v), "'", s);
      ReadConcat("'", Escaped(v), s);
      assert Read("'", s) == Read("", inside);
      ReadEscaped(v, inside);
      var full := inside.Extend(Marked(v, true));
      assert Read("'", full) == Read("", Step(full, '\''));
      ExtendTwice(s, [], Marked(v, true));
      assert [] + Marked(v, true) == Marked(v, true);
    }
  }

  function Chars(w: seq<WordChar>): string
  {
    seq(|w|, i requires 0 <= i < |w| => w[i].c)
  }

  lemma LiteralIsInert(v: string)
    ensures Chars(Literal(v)) == v
    ensures forall i :: 0 <= i < |Literal(v)| ==> Literal(v)[i].quoted || Safe(Literal(v)[i].c)
  {
    forall i | 0 <= i < |v|
      ensures Literal(v)[i].quoted || Safe(Literal(v)[i].c)
    {
      assert v[i] in v;
    }
  }

  /** A text of letters, digits and a few marks is left as it is, and exactly such a text. */
  lemma SafeIsUnchanged(v: string)
    ensures Quote(v) == v <==>
            v != "" && forall i :: 0 <= i < |v| ==>
              'a' <= v[i] <= 'z' || 'A' <= v[i] <= 'Z' || '0' <= v[i] <= '9'
              || v[i] in {'_', '@', '%', '+', '=', ':', ',', '.', '/', '-'}
  {
    assert AllSafe(v) <==> forall i :: 0 <= i < |v| ==> Safe(v[i]);
    if v != "" && !AllSafe(v) {
      EscapedGrows(v);
    }
  }

  lemma {:induction false} EscapedGrows(v: string)
    ensures |Escaped(v)| >= |v|
    decreases |v|
  {
    if v != "" {
      assert v[..1] == [v[0]];
      EscapedGrows(v[1..]);
      assert v[0] != '\'' ==> v[..1] != "'";
    }
  }

  /** Quoting and reading back is the identity: one word, exactly the value, nothing left to expand. */
  lemma QuoteRoundTrip(v: string)
    ensures Read(Quote(v), Lexer(Plain, None, [])).Flush() == Lexer(Plain, None, [Token.Word(Literal(v))])
    ensures Chars(Literal(v)) == v
  {
    var start := Lexer(Plain, None, []);
    QuoteIsOneLiteral(v, start);
    assert start.Word() + Literal(v) == Literal(v);
    LiteralIsInert(v);
  }
}
