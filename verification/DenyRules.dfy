/** Deny rules matched as word prefixes of every simple command in a command line (app/executor.py: deny_hit). */
module DenyRules {
  import opened Options
  import opened Text
  import opened Templates

  /** The words of one segment, as `shlex.split` or its fallback gives them. */
  type Tokenizer = string -> seq<string>

  // ----- segments -----

  /** The length of the separator a text starts with, 0 if it starts with none. */
  function SeparatorLength(t: string): nat
  {
    if t == "" then 0
    else if |t| > 1 && ((t[0] == '|' && t[1] == '|') || (t[0] == '&' && t[1] == '&')) then 2
    else if t[0] == ';' || t[0] == '|' || t[0] == '&' || t[0] == '\n' then 1
    else if |t| > 1 && t[0] == '$' && t[1] == '(' then 2
    else if t[0] == '`' then 1
    else 0
  }

  function Segments(t: string): (parts: seq<string>)
    ensures parts != []
    decreases |t|
  {
    if t == "" then [""]
    else if SeparatorLength(t) > 0 then [""] + Segments(t[SeparatorLength(t)..])
    else
      var rest := Segments(t[1..]);
      [[t[0]] + rest[0]] + rest[1..]
  }

  /** A separator that stands between these texts as it is: it forms no longer one with what is next to it. */
  predicate StandsBetween(a: string, sep: string, b: string)
  {
    && sep in {";", "\n", "`", "|", "&", "||", "&&", "$("}
    && (a != "" && a[|a| - 1] == '|' ==> sep !in {"|", "||"}) && (a != "" && a[|a| - 1] == '&' ==> sep !in {"&", "&&"})
    && (b != "" && b[0] == '|' ==> sep != "|") && (b != "" && b[0] == '&' ==> sep != "&")
  }

  lemma SeparatorIsRead(sep: string, b: string)
    requires StandsBetween("", sep, b)
    ensures SeparatorLength(sep + b) == |sep| > 0 && (sep + b)[|sep|..] == b
  {
    var t := sep + b;
    assert t[0] == sep[0];
    assert |sep| == 2 ==> t[1] == sep[1];
    assert |sep| == 1 && b != "" ==> t[1] == b[0];
  }

  lemma SeparatorIsKept(a: string, sep: string, b: string)
    requires a != "" && StandsBetween(a, sep, b)
    ensures SeparatorLength(a + sep + b) == SeparatorLength(a) <= |a|
  {
    var t := a + sep + b;
    assert t[0] == a[0];
    assert |a| == 1 ==> t[1] == sep[0];
    assert |a| > 1 ==> t[1] == a[1];
  }

  lemma TailOfSequence(a: string, sep: string, b: string, k: nat)
    requires k <= |a| && StandsBetween(a, sep, b)
    ensures (a + sep + b)[k..] == a[k..] + sep + b && StandsBetween(a[k..], sep, b)
  {
  }

  lemma FirstTail(a: string, t: string)
    requires a != "" && |a| <= |t| && t[..|a|] == a && SeparatorLength(t) == SeparatorLength(a) <= |a|
    ensures var k := if SeparatorLength(a) > 0 then SeparatorLength(a) else 1;
            forall rest :: Segments(t[k..]) == Segments(a[k..]) + rest ==> Segments(t) == Segments(a) + rest
  {
    assert t[0] == a[0];
  }

  /** A separator cuts a line cleanly: the segments of the parts are the segments of the whole. */
  lemma {:induction false} SegmentsOfSequence(a: string, sep: string, b: string)
    requires StandsBetween(a, sep, b)
    ensures Segments(a + sep + b) == Segments(a) + Segments(b)
    decreases |a|
  {
    var t := a + sep + b;
    if a == "" {
      assert t == sep + b;
      SeparatorIsRead(sep, b);
    } else {
      SeparatorIsKept(a, sep, b);
      var k := if SeparatorLength(a) > 0 then SeparatorLength(a) else 1;
      TailOfSequence(a, sep, b, k);
      SegmentsOfSequence(a[k..], sep, b);
      FirstTail(a, t);
    }
  }

  /** Texts with separators between them. */
  function Interleaved(parts: seq<string>, seps: seq<string>): string
    requires |parts| == |seps| + 1
  {
    if seps == [] then parts[0] else parts[0] + seps[0] + Interleaved(parts[1..], seps[1..])
  }

  predicate Substitutes(t: string, i: nat)
  {
    i + 1 < |t| && t[i] == '$' && t[i + 1] == '('
  }

  /** No separator of any kind. */
  predicate Unseparated(t: string)
  {
    && (forall i :: 0 <= i < |t| ==> t[i] !in {';', '\n', '`', '|', '&'})
    && (forall i :: 0 <= i < |t| ==> !Substitutes(t, i))
  }

  lemma UnseparatedMore(c: char, part: string, t: string)
    requires Unseparated(part) && part <= t && SeparatorLength([c] + t) == 0
    ensures Unseparated([c] + part)
  {
    var more := [c] + part;
    assert ([c] + t)[0] == c && (t != "" ==> ([c] + t)[1] == t[0]);
    forall i | 0 <= i < |more|
      ensures more[i] !in {';', '\n', '`', '|', '&'} && !Substitutes(more, i)
    {
      assert i > 0 ==> more[i] == part[i - 1] && !Substitutes(part, i - 1);
    }
  }

  lemma SeparatorIsOne(t: string)
    requires SeparatorLength(t) > 0
    ensures SeparatorLength(t) <= |t| && t[..SeparatorLength(t)] in {";", "\n", "`", "|", "&", "||", "&&", "$("}
  {
    var n := SeparatorLength(t);
    assert t[..n] == if n == 1 then [t[0]] else [t[0], t[1]];
  }

  lemma OneMoreSeparator(sep: string, parts: seq<string>, seps: seq<string>)
    requires |parts| == |seps| + 1
    ensures Interleaved([""] + parts, [sep] + seps) == sep + Interleaved(parts, seps)
  {
    var p, q := [""] + parts, [sep] + seps;
    assert p[0] == "" && q[0] == sep && p[1..] == parts && q[1..] == seps;
    assert Interleaved(p, q) == p[0] + q[0] + Interleaved(p[1..], q[1..]);
    assert "" + sep == sep;
  }

  lemma SegmentAfterSeparator(t: string, seps: seq<string>)
    requires SeparatorLength(t) > 0 && SeparatorLength(t) <= |t|
    requires var n := SeparatorLength(t); |Segments(t[n..])| == |seps| + 1 && Interleaved(Segments(t[n..]), seps) == t[n..]
    ensures var n := SeparatorLength(t);
            |Segments(t)| == |seps| + 2 && Interleaved(Segments(t), [t[..n]] + seps) == t
  {
    var n := SeparatorLength(t);
    OneMoreSeparator(t[..n], Segments(t[n..]), seps);
    assert t == t[..n] + t[n..];
  }

  lemma SegmentGrows(t: string, seps: seq<string>)
    requires t != "" && SeparatorLength(t) == 0
    requires |Segments(t[1..])| == |seps| + 1 && Interleaved(Segments(t[1..]), seps) == t[1..]
    requires Segments(t[1..])[0] <= t[1..] && Unseparated(Segments(t[1..])[0])
    ensures |Segments(t)| == |seps| + 1 && Interleaved(Segments(t), seps) == t
    ensures Segments(t)[0] <= t && Unseparated(Segments(t)[0])
  {
    var parts := Segments(t[1..]);
    FirstGrows([t[0]], parts, seps);
    assert t == [t[0]] + t[1..];
    UnseparatedMore(t[0], parts[0], t[1..]);
  }

  /** The segments with separators between them are the text, and no segment contains one. */
  lemma {:induction false} SegmentsAreTheText(t: string) returns (seps: seq<string>)
    ensures |Segments(t)| == |seps| + 1 && Interleaved(Segments(t), seps) == t
    ensures forall i :: 0 <= i < |seps| ==> seps[i] in {";", "\n", "`", "|", "&", "||", "&&", "$("}
    ensures forall i :: 0 <= i < |Segments(t)| ==> Unseparated(Segments(t)[i])
    ensures Segments(t)[0] <= t
    decreases |t|
  {
    seps := [];
    if t != "" {
      var n := SeparatorLength(t);
      if n > 0 {
        SeparatorIsOne(t);
        var rest := SegmentsAreTheText(t[n..]);
        SegmentAfterSeparator(t, rest);
        seps := [t[..n]] + rest;
      } else {
        seps := SegmentsAreTheText(t[1..]);
        SegmentGrows(t, seps);
      }
    }
  }

  lemma FirstGrows(head: string, parts: seq<string>, seps: seq<string>)
    requires |parts| == |seps| + 1
    ensures Interleaved([head + parts[0]] + parts[1..], seps) == head + Interleaved(parts, seps)
  {
    assert ([head + parts[0]] + parts[1..])[1..] == parts[1..];
  }

  // ----- the command of a segment -----

  const WRAPPERS: set<string> := {"sudo", "env", "nohup", "exec", "command", "nice", "timeout", "busybox", "xargs"}

  /** What follows the last slash. */
  function BaseName(w: string): string
  {
    if '/' !in w then w
    else if w[0] == '/' && '/' !in w[1..] then w[1..]
    else BaseName(w[1..])
  }

  predicate Assignment(w: string)
  {
    var n := IdentRun(w);
    n > 0 && IdentStart(w[0]) && n < |w| && w[n] == '=' && '\n' !in w[n..]
  }

  /** Wrapper commands, options, numbers and assignments in front of the real command. */
  predicate Skipped(w: string)
  {
    BaseName(w) in WRAPPERS || "-" <= w || AllDigits(w) || Assignment(w)
  }

  function Stripped(words: seq<string>): seq<string>
  {
    if words != [] && Skipped(words[0]) then Stripped(words[1..]) else words
  }

  /** The command a segment really runs: leading wrappers dropped, the path of the command cut off. */
  function Target(words: seq<string>): seq<string>
  {
    var w := Stripped(words);
    if w == [] then [] else [BaseName(w[0])] + w[1..]
  }

  /** What is left of a path is its last component. */
  lemma {:induction false} BaseNameIsLast(w: string) returns (i: nat)
    ensures i <= |w| && w[i..] == BaseName(w) && '/' !in w[i..] && (i == 0 || w[i - 1] == '/')
    decreases |w|
  {
    if '/' !in w {
      i := 0;
    } else if w[0] == '/' && '/' !in w[1..] {
      i := 1;
    } else {
      assert w == [w[0]] + w[1..];
      var j := BaseNameIsLast(w[1..]);
      i := j + 1;
    }
  }

  lemma LastIsUnique(w: string, i: nat, j: nat)
    requires i <= |w| && '/' !in w[i..] && (i == 0 || w[i - 1] == '/')
    requires j <= |w| && '/' !in w[j..] && (j == 0 || w[j - 1] == '/')
    ensures i == j
  {
    assert forall k :: i <= k < |w| ==> w[k] == w[i..][k - i];
    assert forall k :: j <= k < |w| ==> w[k] == w[j..][k - j];
  }

  /** A wrapper, by name or by path. */
  predicate NamesWrapper(w: string, i: nat)
    requires i <= |w|
  {
    && (i == 0 || w[i - 1] == '/')
    && w[i..] in ["sudo", "env", "nohup", "exec", "command", "nice", "timeout", "busybox", "xargs"]
  }

  /** A shell assignment with its name up to `n`. */
  predicate Assigns(w: string, n: nat)
    requires n < |w|
  {
    w[n] == '=' && IsIdent(w[..n]) && forall i :: n < i < |w| ==> w[i] != '\n'
  }

  lemma AssignmentExactly(w: string)
    ensures Assignment(w) <==> exists n :: 0 <= n < |w| && Assigns(w, n)
  {
    if Assignment(w) {
      var n := IdentRun(w);
      assert forall i :: n < i < |w| ==> w[n..][i - n] == w[i];
      assert Assigns(w, n);
    }
    if n :| 0 <= n < |w| && Assigns(w, n) {
      assert forall i :: 0 <= i < n ==> w[..n][i] == w[i];
      assert IdentRun(w) == n;
      assert '\n' !in w[n..];
    }
  }

  lemma WrapperNamed(w: string, i: nat)
    requires i <= |w| && (i == 0 || w[i - 1] == '/')
    ensures w[i..] in WRAPPERS <==> NamesWrapper(w, i)
  {
  }

  lemma WrappersAreNames(c: string)
    requires c in WRAPPERS
    ensures '/' !in c
  {
  }

  lemma NamedIsLast(w: string, j: nat)
    requires j <= |w| && NamesWrapper(w, j)
    ensures w[j..] == BaseName(w) && BaseName(w) in WRAPPERS
  {
    WrapperNamed(w, j);
    WrappersAreNames(w[j..]);
    var i := BaseNameIsLast(w);
    LastIsUnique(w, i, j);
  }

  lemma WrapperExactly(w: string)
    ensures BaseName(w) in WRAPPERS <==> exists i :: 0 <= i <= |w| && NamesWrapper(w, i)
  {
    var i := BaseNameIsLast(w);
    WrapperNamed(w, i);
    forall j | 0 <= j <= |w| && NamesWrapper(w, j)
      ensures BaseName(w) in WRAPPERS
    {
      NamedIsLast(w, j);
    }
  }

  /** Skipped in front of a command are wrappers, options, numbers and assignments, and nothing else. */
  lemma SkippedExactly(w: string)
    ensures Skipped(w) <==>
            || (exists i :: 0 <= i <= |w| && NamesWrapper(w, i))
            || (w != "" && w[0] == '-')
            || (w != "" && forall i :: 0 <= i < |w| ==> '0' <= w[i] <= '9')
            || (exists n :: 0 <= n < |w| && Assigns(w, n))
  {
    WrapperExactly(w);
    AssignmentExactly(w);
    assert "-" <= w <==> w != "" && w[0] == '-';
  }

  lemma {:induction false} TargetStarts(words: seq<string>) returns (n: nat)
    ensures n <= |words| && Stripped(words) == words[n..]
    ensures forall i :: 0 <= i < n ==> Skipped(words[i])
    ensures n < |words| ==> !Skipped(words[n])
    decreases |words|
  {
    n := 0;
    if words != [] && Skipped(words[0]) {
      var m := TargetStarts(words[1..]);
      n := m + 1;
    }
  }

  // ----- rules -----

  /** The white space of ASCII: tab to carriage return, the four information separators, and the space. */
  predicate IsSpace(c: char)
  {
    9 as char <= c <= 13 as char || 28 as char <= c <= 32 as char
  }

  /** The words of a rule, split at white space. */
  function RuleWords(d: string): (words: seq<string>)
    ensures forall i :: 0 <= i < |words| ==> words[i] != ""
    decreases |d|
  {
    if d == "" then []
    else if IsSpace(d[0]) then RuleWords(d[1..])
    else
      var rest := RuleWords(d[1..]);
      if |d| > 1 && !IsSpace(d[1]) && rest != [] then [[d[0]] + rest[0]] + rest[1..] else [[d[0]]] + rest
  }

  /** A character in front of a text begins its first word, or a word of its own. */
  function Begun(c: char, joins: bool, rest: seq<string>): seq<string>
  {
    if joins && rest != [] then [[c] + rest[0]] + rest[1..] else [[c]] + rest
  }

  lemma BegunOnlyFirst(c: char, joins: bool, rest: seq<string>, more: seq<string>)
    requires joins ==> rest != []
    ensures Begun(c, joins, rest + more) == Begun(c, joins, rest) + more
  {
    if rest != [] {
      assert (rest + more)[1..] == rest[1..] + more;
    }
  }

  lemma WordsStep(d: string)
    requires d != ""
    ensures RuleWords(d) == if IsSpace(d[0]) then RuleWords(d[1..])
                            else Begun(d[0], |d| > 1 && !IsSpace(d[1]), RuleWords(d[1..]))
  {
  }

  lemma {:induction false} WordsBehindBlank(a: string, c: char, b: string)
    requires IsSpace(c)
    ensures RuleWords(a + [c] + b) == RuleWords(a) + RuleWords(b)
    decreases |a|
  {
    var t := a + [c] + b;
    WordsStep(t);
    if a == "" {
      assert t[1..] == b;
    } else {
      assert t[1..] == a[1..] + [c] + b && t[0] == a[0];
      WordsStep(a);
      WordsBehindBlank(a[1..], c, b);
      StartsWord(a[1..]);
      assert t[1] == if |a| > 1 then a[1] else c;
      BegunOnlyFirst(a[0], |a| > 1 && !IsSpace(a[1]), RuleWords(a[1..]), RuleWords(b));
    }
  }

  lemma StartsWord(d: string)
    ensures d != "" && !IsSpace(d[0]) ==> RuleWords(d) != []
  {
  }

  lemma {:induction false} OneWord(w: string)
    requires w != "" && forall i :: 0 <= i < |w| ==> !IsSpace(w[i])
    ensures RuleWords(w) == [w]
    decreases |w|
  {
    if |w| > 1 {
      OneWord(w[1..]);
      assert w == [w[0]] + w[1..];
    } else {
      assert w[1..] == "" && w == [w[0]];
    }
  }

  lemma SpaceExactly(c: char)
    ensures IsSpace(c) <==> c in {'\t', '\n', 0xB as char, 0xC as char, '\r', 0x1C as char, 0x1D as char, 0x1E as char,
                                  0x1F as char, ' '}
  {
    assert c == (c as int) as char;
  }

  /** A rule falls into words at white space, and only there. */
  lemma RuleWordsExactly(a: string, c: char, b: string, w: string)
    requires c in {'\t', '\n', 0xB as char, 0xC as char, '\r', 0x1C as char, 0x1D as char, 0x1E as char, 0x1F as char, ' '}
    requires forall i :: 0 <= i < |w| ==>
               w[i] !in {'\t', '\n', 0xB as char, 0xC as char, '\r', 0x1C as char, 0x1D as char, 0x1E as char,
                         0x1F as char, ' '}
    ensures RuleWords(a + [c] + b) == RuleWords(a) + RuleWords(b)
    ensures RuleWords(w) == if w == "" then [] else [w]
  {
    SpaceExactly(c);
    WordsBehindBlank(a, c, b);
    forall i | 0 <= i < |w|
      ensures !IsSpace(w[i])
    {
      SpaceExactly(w[i]);
    }
    if w != "" {
      OneWord(w);
    }
  }

  predicate Matches(segment: string, d: string, words: Tokenizer)
  {
    RuleWords(d) != [] && RuleWords(d) <= Target(words(segment))
  }

  predicate Hits(cmd: string, deny: set<string>, words: Tokenizer)
  {
    exists seg, d | seg in Segments(cmd) && d in deny :: Matches(seg, d, words)
  }

  function JoinWords(words: seq<string>): string
  {
    if words == [] then "" else if |words| == 1 then words[0] else words[0] + " " + JoinWords(words[1..])
  }

  /** A rule is shown with single spaces, and reads the same. */
  lemma {:induction false} JoinedReadsTheSame(words: seq<string>)
    requires forall i :: 0 <= i < |words| ==> words[i] != "" && forall j :: 0 <= j < |words[i]| ==> !IsSpace(words[i][j])
    ensures RuleWords(JoinWords(words)) == words
    decreases |words|
  {
    if words != [] {
      OneWord(words[0]);
      if |words| > 1 {
        JoinedReadsTheSame(words[1..]);
        WordsBehindBlank(words[0], ' ', JoinWords(words[1..]));
        assert words[0] + " " + JoinWords(words[1..]) == words[0] + [' '] + JoinWords(words[1..]);
      }
      assert words == [words[0]] + words[1..];
    }
  }

  /** The rules are the non-empty word lists of the denied commands. */
  ghost predicate RulesOf(rules: seq<seq<string>>, deny: set<string>)
  {
    forall r :: r in rules <==> r != [] && exists d :: d in deny && RuleWords(d) == r
  }

  method Rules(deny: set<string>) returns (rules: seq<seq<string>>)
    ensures RulesOf(rules, deny)
  {
    rules := [];
    var rest := deny;
    while rest != {}
      invariant rest <= deny
      invariant RulesOf(rules, deny - rest)
    {
      var d :| d in rest;
      var r := RuleWords(d);
      ghost var seen := deny - rest;
      assert deny - (rest - {d}) == seen + {d};
      rest := rest - {d};
      if r != [] {
        rules := rules + [r];
      }
    }
    assert deny - rest == deny;
  }

  method TargetOf(segment: string, words: Tokenizer) returns (w: seq<string>)
    ensures w == Target(words(segment))
  {
    w := words(segment);
    while w != [] && Skipped(w[0])
      invariant Stripped(w) == Stripped(words(segment))
      decreases |w|
    {
      w := w[1..];
    }
    if w != [] {
      w := [BaseName(w[0])] + w[1..];
    }
  }

  method FirstPrefix(rules: seq<seq<string>>, w: seq<string>) returns (hit: Option<seq<string>>)
    ensures hit.None? ==> forall r :: r in rules ==> !(r <= w)
    ensures hit.Some? ==> hit.value in rules && hit.value <= w
  {
    for j := 0 to |rules|
      invariant forall m :: 0 <= m < j ==> !(rules[m] <= w)
    {
      if rules[j] <= w {
        return Some(rules[j]);
      }
    }
    return None;
  }

  /** Some rule matches the segment. */
  predicate IsHit(segment: string, deny: set<string>, words: Tokenizer)
  {
    exists d | d in deny :: Matches(segment, d, words)
  }

  lemma NoSegmentIsHit(cmd: string, deny: set<string>, words: Tokenizer)
    requires forall k :: 0 <= k < |Segments(cmd)| ==> !IsHit(Segments(cmd)[k], deny, words)
    ensures !Hits(cmd, deny, words)
  {
  }

  /** The text names a rule that matches one of the segments. */
  ghost predicate IsTheHit(name: string, cmd: string, deny: set<string>, words: Tokenizer)
  {
    exists seg, d :: seg in Segments(cmd) && d in deny && Matches(seg, d, words) && name == JoinWords(RuleWords(d))
  }

  lemma HitFound(cmd: string, i: nat, deny: set<string>, words: Tokenizer, rule: seq<string>)
    requires i < |Segments(cmd)|
    requires exists d :: d in deny && Matches(Segments(cmd)[i], d, words) && RuleWords(d) == rule
    ensures Hits(cmd, deny, words) && IsTheHit(JoinWords(rule), cmd, deny, words)
  {
    var d :| d in deny && Matches(Segments(cmd)[i], d, words) && RuleWords(d) == rule;
    var seg := Segments(cmd)[i];
    assert seg in Segments(cmd);
    assert Hits(cmd, deny, words);
  }

  method SegmentHit(segment: string, rules: seq<seq<string>>, ghost deny: set<string>, words: Tokenizer)
    returns (rule: Option<seq<string>>)
    requires RulesOf(rules, deny)
    ensures rule.None? ==> !IsHit(segment, deny, words)
    ensures rule.Some? ==> exists d :: d in deny && Matches(segment, d, words) && RuleWords(d) == rule.value
  {
    var w := TargetOf(segment, words);
    rule := FirstPrefix(rules, w);
    assert forall d :: d in deny && RuleWords(d) != [] ==> RuleWords(d) in rules;
  }

  method FirstHit(segments: seq<string>, rules: seq<seq<string>>, ghost deny: set<string>, words: Tokenizer)
    returns (i: nat, rule: Option<seq<string>>)
    requires RulesOf(rules, deny)
    ensures rule.None? ==> forall k :: 0 <= k < |segments| ==> !IsHit(segments[k], deny, words)
    ensures rule.Some? ==> i < |segments|
                           && exists d :: d in deny && Matches(segments[i], d, words) && RuleWords(d) == rule.value
  {
    i, rule := 0, None;
    while i < |segments|
      invariant i <= |segments|
      invariant forall k :: 0 <= k < i ==> !IsHit(segments[k], deny, words)
    {
      rule := SegmentHit(segments[i], rules, deny, words);
      if rule.Some? {
        return;
      }
      i := i + 1;
    }
    rule := None;
  }

  /** The first rule that is a word prefix of some segment's command, if there is one. */
  method DenyHit(cmd: string, deny: set<string>, words: Tokenizer) returns (hit: Option<string>)
    ensures hit.Some? <==> Hits(cmd, deny, words)
    ensures hit.Some? ==> IsTheHit(hit.value, cmd, deny, words)
  {
    var rules := Rules(deny);
    var i, rule := FirstHit(Segments(cmd), rules, deny, words);
    if rule.None? {
      NoSegmentIsHit(cmd, deny, words);
      return None;
    }
    HitFound(cmd, i, deny, words, rule.value);
    return Some(JoinWords(rule.value));
  }

  /** The command at word `n`, behind words to be skipped, begins with the words of the rule. */
  predicate RunsAt(words: seq<string>, n: nat, rule: seq<string>)
  {
    && n + |rule| <= |words| && rule != []
    && (forall i :: 0 <= i < n ==> Skipped(words[i])) && !Skipped(words[n])
    && rule[0] == BaseName(words[n]) && forall i :: 0 < i < |rule| ==> words[n + i] == rule[i]
  }

  lemma TargetAt(words: seq<string>, n: nat)
    requires n <= |words| && Stripped(words) == words[n..]
    ensures |Target(words)| == |words| - n
    ensures n < |words| ==> Target(words)[0] == BaseName(words[n])
    ensures forall i :: 0 < i < |words| - n ==> Target(words)[i] == words[n + i]
  {
  }

  lemma PrefixByIndex(a: seq<string>, b: seq<string>)
    ensures a <= b <==> |a| <= |b| && forall i :: 0 <= i < |a| ==> a[i] == b[i]
  {
  }

  lemma PrefixRuns(words: seq<string>, rule: seq<string>, n: nat)
    requires n <= |words| && Stripped(words) == words[n..] && rule != []
    requires (forall i :: 0 <= i < n ==> Skipped(words[i])) && (n < |words| ==> !Skipped(words[n]))
    ensures rule <= Target(words) <==> n < |words| && RunsAt(words, n, rule)
  {
    TargetAt(words, n);
    PrefixByIndex(rule, Target(words));
  }

  /** Behind the words to be skipped, the command begins with the words of the rule. */
  predicate Runs(words: seq<string>, rule: seq<string>)
  {
    exists n :: 0 <= n < |words| && RunsAt(words, n, rule)
  }

  lemma RunsExactly(words: seq<string>, rule: seq<string>)
    ensures rule != [] && rule <= Target(words) <==> Runs(words, rule)
  {
    var n := TargetStarts(words);
    if rule != [] {
      PrefixRuns(words, rule, n);
    }
    if Runs(words, rule) {
      var m :| 0 <= m < |words| && RunsAt(words, m, rule);
      assert m == n;
    }
  }

  lemma MatchesExactly(segment: string, d: string, words: Tokenizer)
    ensures Matches(segment, d, words) <==> Runs(words(segment), RuleWords(d))
  {
    RunsExactly(words(segment), RuleWords(d));
  }

  /** A command line is hit exactly if some simple command of it begins with the words of some rule. */
  lemma HitsExactly(cmd: string, deny: set<string>, words: Tokenizer)
    ensures Hits(cmd, deny, words) <==>
            exists seg, d :: seg in Segments(cmd) && d in deny && Runs(words(seg), RuleWords(d))
  {
    if Hits(cmd, deny, words) {
      var seg, d :| seg in Segments(cmd) && d in deny && Matches(seg, d, words);
      MatchesExactly(seg, d, words);
    }
    if seg, d :| seg in Segments(cmd) && d in deny && Runs(words(seg), RuleWords(d)) {
      MatchesExactly(seg, d, words);
    }
  }

  /** A list, a pipeline or a substitution is hit exactly when one of its parts is. */
  lemma HitsCompose(a: string, sep: string, b: string, deny: set<string>, words: Tokenizer)
    requires StandsBetween(a, sep, b)
    ensures Hits(a + sep + b, deny, words) <==> Hits(a, deny, words) || Hits(b, deny, words)
  {
    SegmentsOfSequence(a, sep, b);
    assert forall s :: s in Segments(a + sep + b) <==> s in Segments(a) || s in Segments(b);
  }

  /** More rules hit more; a union hits exactly what one of its halves hits. */
  lemma HitsMonotone(cmd: string, deny: set<string>, more: set<string>, words: Tokenizer)
    ensures Hits(cmd, deny + more, words) <==> Hits(cmd, deny, words) || Hits(cmd, more, words)
  {
    if Hits(cmd, deny + more, words) {
      var seg, d :| seg in Segments(cmd) && d in deny + more && Matches(seg, d, words);
      assert d in deny || d in more;
    }
  }

  lemma {:induction false} SkippedInFront(front: seq<string>, words: seq<string>)
    requires forall w :: w in front ==> Skipped(w)
    ensures Stripped(front + words) == Stripped(words)
    decreases |front|
  {
    if front == [] {
      assert front + words == words;
    } else {
      assert front[0] in front;
      assert (front + words)[1..] == front[1..] + words;
      SkippedInFront(front[1..], words);
    }
  }

  lemma {:induction false} StrippedToNothing(words: seq<string>)
    requires Stripped(words) == []
    ensures forall w :: w in words ==> Skipped(w)
    decreases |words|
  {
    if words != [] {
      StrippedToNothing(words[1..]);
      assert words == [words[0]] + words[1..];
    }
  }

  /**
   * Words in front of a command leave its target unchanged, whatever the command, exactly when each of them is a wrapper,
   * starts with a dash, is a number or an assignment. The separate value of an option need not be one of these.
   */
  lemma WrappersDoNotHideExactly(front: seq<string>)
    ensures (forall words :: Target(front + words) == Target(words)) <==> forall w :: w in front ==> Skipped(w)
  {
    if forall w :: w in front ==> Skipped(w) {
      forall words
        ensures Target(front + words) == Target(words)
      {
        SkippedInFront(front, words);
      }
    }
    if forall words :: Target(front + words) == Target(words) {
      assert front + [] == front;
      assert Target(front + []) == Target([]);
      StrippedToNothing(front);
    }
  }

  lemma {:induction false} OneSegment(t: string)
    requires forall c :: c in t ==> c !in {';', '|', '&', '\n', '$', '`'}
    ensures Segments(t) == [t]
    decreases |t|
  {
    if t != "" {
      assert t[0] in t && forall c :: c in t[1..] ==> c in t;
      OneSegment(t[1..]);
      assert t == [t[0]] + t[1..];
    }
  }

  lemma HitsOfOneSegment(t: string, d: string, words: Tokenizer)
    requires Segments(t) == [t]
    ensures Hits(t, {d}, words) <==> RuleWords(d) != [] && RuleWords(d) <= Target(words(t))
  {
    assert t in Segments(t);
    assert Hits(t, {d}, words) <==> Matches(t, d, words);
  }

  lemma SudoIsSkipped()
    ensures Skipped("sudo") && Skipped("-u") && !Skipped("root") && !Skipped("rm")
    ensures BaseName("root") == "root" && BaseName("rm") == "rm"
  {
    assert IdentRun("root") == 4;
    assert IdentRun("rm") == 2;
  }

  lemma TargetBehind(front: seq<string>, rest: seq<string>)
    requires (forall w :: w in front ==> Skipped(w)) && rest != [] && !Skipped(rest[0]) && BaseName(rest[0]) == rest[0]
    ensures Target(front + rest) == rest
  {
    SkippedInFront(front, rest);
  }

  lemma RuleOfOneWord()
    ensures RuleWords("rm") == ["rm"]
  {
    var d := "rm";
    assert d[1..] == "m" && ['r'] + "m" == d;
    assert RuleWords("m") == ["m"];
  }

  lemma SudoWords()
    ensures Target(["sudo"] + ["rm"]) == ["rm"] && Target(["sudo", "-u"] + ["root", "rm"]) == ["root", "rm"]
  {
    SudoIsSkipped();
    TargetBehind(["sudo"], ["rm"]);
    TargetBehind(["sudo", "-u"], ["root", "rm"]);
  }

  /** `sudo rm` is hit by the rule `rm`; with `-u root` in between, the target is `root` and the rule is not hit. */
  lemma OptionValueHides(plain: string, asRoot: string, words: Tokenizer)
    requires plain == "sudo rm" && asRoot == "sudo -u root rm"
    requires words(plain) == ["sudo"] + ["rm"] && words(asRoot) == ["sudo", "-u"] + ["root", "rm"]
    ensures Hits(plain, {"rm"}, words) && !Hits(asRoot, {"rm"}, words)
    ensures Target(words(asRoot)) == ["root", "rm"]
  {
    OneSegment(plain);
    OneSegment(asRoot);
    HitsOfOneSegment(plain, "rm", words);
    HitsOfOneSegment(asRoot, "rm", words);
    RuleOfOneWord();
    SudoWords();
  }
}
