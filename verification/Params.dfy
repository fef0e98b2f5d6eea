/** Validation and substitution of named parameters (app/params.py). */
module Params {
  import opened Options
  import opened Registry
  import opened Text
  import opened ShellWords
  import opened Templates

  // ----- the sorted list of placeholder names -----

  /** Lexicographic order by code point. */
  predicate Less(a: string, b: string)
  {
    b != "" && (a == "" || a[0] < b[0] || (a[0] == b[0] && Less(a[1..], b[1..])))
  }

  function Insert(p: string, s: seq<string>): seq<string>
  {
    if s == [] || Less(p, s[0]) then [p] + s
    else if p == s[0] then s
    else [s[0]] + Insert(p, s[1..])
  }

  function SortedHoles(toks: seq<Tok>): seq<string>
  {
    if toks == [] then []
    else if toks[0].Hole? then Insert(toks[0].name, SortedHoles(toks[1..]))
    else SortedHoles(toks[1..])
  }

  predicate Sorted(s: seq<string>)
  {
    forall i, j :: 0 <= i < j < |s| ==> Less(s[i], s[j])
  }

  lemma {:induction false} LessTransitive(a: string, b: string, c: string)
    requires Less(a, b) && Less(b, c)
    ensures Less(a, c)
    decreases |a|
  {
    if a != "" && a[0] == b[0] == c[0] {
      LessTransitive(a[1..], b[1..], c[1..]);
    }
  }

  lemma {:induction false} LessTotal(a: string, b: string)
    ensures a == b || Less(a, b) || Less(b, a)
    ensures Less(a, b) ==> a != b
    decreases |a|
  {
    if a != "" && b != "" && a[0] == b[0] {
      LessTotal(a[1..], b[1..]);
      assert a == [a[0]] + a[1..] && b == [b[0]] + b[1..];
    }
  }

  /** One text comes before another if it ends where they part, or has the smaller character there. */
  lemma {:induction false} LessExactly(a: string, b: string)
    ensures Less(a, b) <==> exists k :: 0 <= k < |b| && k <= |a| && a[..k] == b[..k] && (k == |a| || a[k] < b[k])
    decreases |a|
  {
    if a != "" && b != "" && a[0] == b[0] {
      LessExactly(a[1..], b[1..]);
      if k :| 0 <= k < |b[1..]| && k <= |a[1..]| && a[1..][..k] == b[1..][..k] && (k == |a[1..]| || a[1..][k] < b[1..][k]) {
        assert a[..k + 1] == [a[0]] + a[1..][..k] && b[..k + 1] == [b[0]] + b[1..][..k];
      }
      if k :| 0 <= k < |b| && k <= |a| && a[..k] == b[..k] && (k == |a| || a[k] < b[k]) {
        assert k > 0;
        assert a[1..][..k - 1] == a[..k][1..] && b[1..][..k - 1] == b[..k][1..];
      }
    } else if b != "" && (a == "" || a[0] < b[0]) {
      assert a[..0] == b[..0];
    } else {
      assert forall k :: 0 < k < |b| && k <= |a| && a[..k] == b[..k] ==> a[0] == a[..k][0] == b[..k][0];
    }
  }

  lemma {:induction false} InsertSorts(p: string, s: seq<string>)
    requires Sorted(s)
    ensures Sorted(Insert(p, s))
    ensures forall x :: x in Insert(p, s) <==> x == p || x in s
    decreases |s|
  {
    if s != [] {
      LessTotal(p, s[0]);
      if Less(p, s[0]) {
        forall j | 0 < j < |s|
          ensures Less(p, s[j])
        {
          LessTransitive(p, s[0], s[j]);
        }
      } else if p != s[0] {
        InsertSorts(p, s[1..]);
        var r := Insert(p, s[1..]);
        forall j | 0 <= j < |r|
          ensures Less(s[0], r[j])
        {
          assert r[j] in r;
        }
        assert s == [s[0]] + s[1..];
      }
    }
  }

  lemma {:induction false} SortedHolesEnumerate(toks: seq<Tok>)
    ensures Sorted(SortedHoles(toks))
    ensures forall x :: x in SortedHoles(toks) <==> Hole(x) in toks
    decreases |toks|
  {
    if toks != [] {
      SortedHolesEnumerate(toks[1..]);
      assert toks == [toks[0]] + toks[1..];
      if toks[0].Hole? {
        InsertSorts(toks[0].name, SortedHoles(toks[1..]));
      }
    }
  }

  function SortedNames(template: string): seq<string>
  {
    SortedHoles(Scan(template))
  }

  lemma SortedNamesEnumerate(template: string)
    ensures Distinct(SortedNames(template)) && Sorted(SortedNames(template))
    ensures forall p :: p in SortedNames(template) <==> p in Names(template)
  {
    SortedHolesEnumerate(Scan(template));
    var s := SortedNames(template);
    forall i, j | 0 <= i < j < |s|
      ensures s[i] != s[j]
    {
      LessTotal(s[i], s[j]);
    }
    forall p
      ensures Hole(p) in Scan(template) <==> p in Names(template)
    {
      if Hole(p) in Scan(template) {
        assert Hole(p).name in Names(template);
      }
    }
  }

  // ----- protected paths -----

  function Split(t: string, sep: char): (parts: seq<string>)
    ensures parts != []
    decreases |t|
  {
    if t == "" then [""]
    else if t[0] == sep then [""] + Split(t[1..], sep)
    else
      var rest := Split(t[1..], sep);
      [[t[0]] + rest[0]] + rest[1..]
  }

  /** The components of a path, with empty and `.` components dropped. */
  function Components(parts: seq<string>): seq<string>
  {
    if parts == [] then []
    else (if parts[0] == "" || parts[0] == "." then [] else [parts[0]]) + Components(parts[1..])
  }

  /** An absolute path written from its components. */
  function Joined(comps: seq<string>): string
  {
    if comps == [] then "" else "/" + comps[0] + Joined(comps[1..])
  }

  function Normal(value: string): string
  {
    var comps := Components(Split(value, '/'));
    if comps == [] then "/" else Joined(comps)
  }

  const DENY_DIRS: seq<string> := ["/root", "/proc", "/opt/mcp-gate/data", "/var/lib/marzban", "/etc/ssl/private"]
  const DENY_FILES: seq<string> := ["/etc/shadow", "/etc/gshadow"]
  const DENY_PREFIXES: seq<string> := ["/etc/sudoers", "/etc/ssh/ssh_host_"]
  const DENY_PARTS: seq<string> := ["/.ssh/", "/.gnupg/", "/.docker/", "/.kube/", "/.aws/", "/ssh_keys/"]

  predicate Protected(p: string)
  {
    || p in DENY_FILES
    || (exists d | d in DENY_PREFIXES :: d <= p)
    || (exists d | d in DENY_DIRS :: p == d || d + "/" <= p)
    || (exists d | d in DENY_PARTS :: Occurs(d, p + "/"))
  }

  predicate Traverses(value: string)
  {
    Occurs("//", value) || ".." in Split(value, '/')
  }

  // ----- one value -----

  /** What matching a value against an administrator's pattern can give. */
  datatype Match = FullMatch | NoMatch | BadPattern

  type Matcher = (string, string) -> Match

  datatype ParamError =
    | MissingSpec(name: string) | Required(name: string) | Unknown(name: string) | TooLong(name: string)
    | Empty(name: string) | ForbiddenChar(name: string) | NoPattern(name: string) | Rejected(name: string)
    | PatternBroken(name: string) | Traversal(name: string) | PathProtected(name: string) | Leftover

  predicate Dangerous(c: char)
  {
    c == ';' || c == '|' || c == '&' || c == '`' || c == '$' || c == '(' || c == ')' || c == '\\'
    || c == '\n' || c == '\r' || c == '\0'
  }

  /** `_check_path`: the policy for absolute paths. */
  function PathError(name: string, value: string): Option<ParamError>
  {
    if !("/" <= value) then None
    else if Traverses(value) then Some(Traversal(name))
    else if Protected(Normal(value)) then Some(PathProtected(name))
    else None
  }

  /** The checks on the text of a value, in the order the code makes them. */
  function TextError(name: string, value: string, spec: ParamSpec, matches: Matcher): Option<ParamError>
  {
    if |value| > spec.maxLength then Some(TooLong(name))
    else if value == "" && spec.fallback.None? then Some(Empty(name))
    else if !spec.allowShellChars && (exists c | c in value :: Dangerous(c)) then Some(ForbiddenChar(name))
    else if spec.pattern.None? || spec.pattern.value == "" then Some(NoPattern(name))
    else if matches(spec.pattern.value, value) == NoMatch then Some(Rejected(name))
    else if matches(spec.pattern.value, value) == BadPattern then Some(PatternBroken(name))
    else None
  }

  function ValueError(name: string, value: string, spec: ParamSpec, matches: Matcher): Option<ParamError>
  {
    var e := TextError(name, value, spec, matches);
    if e.Some? then e else PathError(name, value)
  }

  // ----- the whole command -----

  type Specs = map<string, ParamSpec>

  /** The given arguments, completed by the defaults of the template's parameters. */
  function Completed(names: set<string>, specs: Specs, args: Values): Values
  {
    args + map p | p in names && p !in args && p in specs && specs[p].fallback.Some? :: specs[p].fallback.value
  }

  predicate ArgsFit(names: set<string>, specs: Specs, args: Values)
  {
    names <= specs.Keys && Completed(names, specs, args).Keys == names
  }

  predicate ValuesPass(names: set<string>, specs: Specs, vals: Values, matches: Matcher)
    requires names <= specs.Keys && vals.Keys == names
  {
    forall p :: p in names ==> ValueError(p, vals[p], specs[p], matches).None?
  }

  predicate Accepts(template: string, specs: Specs, args: Values, matches: Matcher)
  {
    var names := Names(template);
    && ArgsFit(names, specs, args)
    && ValuesPass(names, specs, Completed(names, specs, args), matches)
  }

  /** The resolved command, or nothing when validation refuses. */
  ghost function Resolved(template: string, specs: Specs, args: Values, matches: Matcher): Option<string>
  {
    if specs == map[] then Some(template)
    else if !Accepts(template, specs, args, matches) then None
    else
      SortedNamesEnumerate(template);
      var vals := QuotedValues(Completed(Names(template), specs, args));
      var r := Sequential(template, SortedNames(template), vals);
      if HasPlaceholder(r) then None else Some(r)
  }

  /** The meaning of each refusal. */
  ghost predicate Explains(e: ParamError, template: string, specs: Specs, args: Values, matches: Matcher)
  {
    var names := Names(template);
    match e
    case MissingSpec(p) => p in names && p !in specs
    case Required(p) => p in names && p in specs && p !in args && specs[p].fallback.None?
    case Unknown(p) => p in args && p !in names
    case Leftover => Accepts(template, specs, args, matches)
    case _ => e.name in names && ArgsFit(names, specs, args)
              && ValueError(e.name, Completed(names, specs, args)[e.name], specs[e.name], matches) == Some(e)
  }

  /** Defaults for the parameters not given; the first one without a default is refused. */
  method FillDefaults(order: seq<string>, specs: Specs, args: Values) returns (full: Values, missing: Option<string>)
    requires forall p :: p in order ==> p in specs
    ensures missing.None? ==> (forall p :: p in order ==> p in full)
                              && full == Completed((set p | p in order), specs, args)
    ensures missing.Some? ==> missing.value in order && missing.value !in args && specs[missing.value].fallback.None?
  {
    full := args;
    for i := 0 to |order|
      invariant forall p :: p in order[..i] ==> p in full
      invariant forall p :: p in full <==> p in args || (p in order[..i] && specs[p].fallback.Some?)
      invariant forall p :: p in full ==> full[p] == if p in args then args[p] else specs[p].fallback.value
    {
      var p := order[i];
      assert order[..i + 1] == order[..i] + [p];
      if p !in full {
        if specs[p].fallback.None? {
          return full, Some(p);
        }
        full := full[p := specs[p].fallback.value];
      }
    }
    assert order[..|order|] == order;
    return full, None;
  }

  /** The arguments with defaults filled in, once names and arguments are known to fit. */
  method CompleteArgs(names: set<string>, order: seq<string>, specs: Specs, args: Values)
    returns (r: Result<Values, ParamError>)
    requires forall p :: p in order <==> p in names
    ensures r.Ok? <==> ArgsFit(names, specs, args)
    ensures r.Ok? ==> r.value == Completed(names, specs, args)
    ensures r.Err? ==> match r.error
                       case MissingSpec(p) => p in names && p !in specs
                       case Required(p) => p in names && p in specs && p !in args && specs[p].fallback.None?
                       case Unknown(p) => p in args && p !in names
                       case _ => false
  {
    for i := 0 to |order|
      invariant forall k :: 0 <= k < i ==> order[k] in specs
    {
      if order[i] !in specs {
        assert order[i] in order;
        return Err(MissingSpec(order[i]));
      }
    }
    var full, missing := FillDefaults(order, specs, args);
    assert (set p | p in order) == names;
    if missing.Some? {
      return Err(Required(missing.value));
    }
    if p :| p in full && p !in names {
      return Err(Unknown(p));
    }
    return Ok(full);
  }

  /** The checks and the substitution, name by name. */
  method SubstituteAll(template: string, order: seq<string>, specs: Specs, full: Values, matches: Matcher)
    returns (r: Result<string, ParamError>)
    requires forall p :: p in order ==> p in full && p in specs
    ensures r.Ok? <==> forall p :: p in order ==> ValueError(p, full[p], specs[p], matches).None?
    ensures r.Ok? ==> r.value == Sequential(template, order, QuotedValues(full))
    ensures r.Err? ==> exists p :: p in order && ValueError(p, full[p], specs[p], matches) == Some(r.error)
  {
    var result := template;
    for i := 0 to |order|
      invariant Sequential(result, order[i..], QuotedValues(full)) == Sequential(template, order, QuotedValues(full))
      invariant forall k :: 0 <= k < i ==> ValueError(order[k], full[order[k]], specs[order[k]], matches).None?
    {
      var p := order[i];
      assert p in order;
      var e := ValueError(p, full[p], specs[p], matches);
      if e.Some? {
        return Err(e.value);
      }
      assert order[i..][1..] == order[i + 1..];
      result := Replace(result, Braced(p), Quote(full[p]));
    }
    return Ok(result);
  }

  lemma ValueErrorNamesItsParameter(p: string, value: string, spec: ParamSpec, matches: Matcher)
    requires ValueError(p, value, spec, matches).Some?
    ensures var e := ValueError(p, value, spec, matches).value;
            !e.Leftover? && !e.MissingSpec? && !e.Required? && !e.Unknown? && e.name == p
  {
  }

  lemma RefusedValueExplains(p: string, template: string, specs: Specs, args: Values, matches: Matcher)
    requires p in Names(template) && ArgsFit(Names(template), specs, args)
    requires ValueError(p, Completed(Names(template), specs, args)[p], specs[p], matches).Some?
    ensures specs != map[] && Resolved(template, specs, args, matches).None?
    ensures Explains(ValueError(p, Completed(Names(template), specs, args)[p], specs[p], matches).value,
                     template, specs, args, matches)
  {
    ValueErrorNamesItsParameter(p, Completed(Names(template), specs, args)[p], specs[p], matches);
  }

  lemma AcceptedIsResolved(template: string, specs: Specs, args: Values, matches: Matcher)
    requires specs != map[] && Accepts(template, specs, args, matches)
    requires forall p :: p in SortedNames(template) ==> p in QuotedValues(Completed(Names(template), specs, args))
    ensures var r := Sequential(template, SortedNames(template), QuotedValues(Completed(Names(template), specs, args)));
            Resolved(template, specs, args, matches) == if Names(r) == {} then Some(r) else None
  {
    NoNamesNoPlaceholder(Sequential(template, SortedNames(template),
                                    QuotedValues(Completed(Names(template), specs, args))));
  }

  method ValidateAndSubstitute(template: string, specs: Specs, args: Values, matches: Matcher)
    returns (r: Result<string, ParamError>)
    ensures r.Ok? <==> Resolved(template, specs, args, matches).Some?
    ensures r.Ok? ==> r.value == Resolved(template, specs, args, matches).value
    ensures r.Err? ==> Explains(r.error, template, specs, args, matches)
  {
    if specs == map[] {
      return Ok(template);
    }
    var names := Names(template);
    var order := SortedNames(template);
    SortedNamesEnumerate(template);
    var fitted := CompleteArgs(names, order, specs, args);
    if fitted.Err? {
      return Err(fitted.error);
    }
    var result := SubstituteAll(template, order, specs, fitted.value, matches);
    if result.Err? {
      ghost var p :| p in order && ValueError(p, fitted.value[p], specs[p], matches) == Some(result.error);
      RefusedValueExplains(p, template, specs, args, matches);
      return Err(result.error);
    }
    AcceptedIsResolved(template, specs, args, matches);
    if Names(result.value) != {} {
      return Err(Leftover);
    }
    return Ok(result.value);
  }

  /**
   * A returned command never holds a placeholder; it is the simultaneous filling of the template exactly when
   * that filling holds none, as with brace-free literals and placeholder-free values.
   */
  lemma ResolvedFillsAtOnce(template: string, specs: Specs, args: Values, matches: Matcher)
    requires specs != map[] && Resolved(template, specs, args, matches).Some?
    ensures var r := Resolved(template, specs, args, matches).value;
            var vals := Completed(Names(template), specs, args);
            && !HasPlaceholder(r)
            && (r == Simultaneous(template, QuotedValues(vals))
                <==> !HasPlaceholder(Simultaneous(template, QuotedValues(vals))))
            && (BraceFreeLiterals(Scan(template)) && (forall p :: p in vals ==> !HasPlaceholder(vals[p]))
                ==> r == Simultaneous(template, QuotedValues(vals)))
  {
    SortedNamesEnumerate(template);
    var vals := Completed(Names(template), specs, args);
    SequentialIsSimultaneousExactly(template, SortedNames(template), QuotedValues(vals));
    if BraceFreeLiterals(Scan(template)) && forall p :: p in vals ==> !HasPlaceholder(vals[p]) {
      BraceFreeTemplatesFillAtOnce(template, SortedNames(template), vals);
    }
  }

  // ----- what an accepted path cannot be -----

  lemma {:induction false} JoinedPrefix(dir: seq<string>, comps: seq<string>)
    requires dir <= comps
    ensures Joined(comps) == Joined(dir) || Joined(dir) + "/" <= Joined(comps)
    decreases |dir|
  {
    if dir == [] {
      if comps != [] {
        assert Joined(comps)[..1] == "/";
      }
    } else {
      assert dir[1..] <= comps[1..];
      JoinedPrefix(dir[1..], comps[1..]);
      var head := "/" + dir[0];
      assert Joined(comps) == head + Joined(comps[1..]) && Joined(dir) == head + Joined(dir[1..]);
      if Joined(dir[1..]) + "/" <= Joined(comps[1..]) {
        assert Joined(dir) + "/" == head + (Joined(dir[1..]) + "/");
      }
    }
  }

  lemma {:induction false} ComponentOccurs(c: string, comps: seq<string>)
    requires c in comps
    ensures Occurs("/" + c + "/", Joined(comps) + "/")
    decreases |comps|
  {
    var pat, head, rest := "/" + c + "/", "/" + comps[0], Joined(comps[1..]) + "/";
    assert Joined(comps) + "/" == head + rest;
    if comps[0] == c {
      assert rest[..1] == "/";
      assert head + rest[..1] == pat;
      assert (head + rest)[0..|pat|] == pat;
      assert At(head + rest, pat, 0);
    } else {
      ComponentOccurs(c, comps[1..]);
      assert (head + rest)[|head|..] == rest;
      OccursInTail(pat, head + rest, |head|);
    }
  }

  /**
   * However an accepted absolute path is spelled, its components lie in no protected directory, none of them is a
   * protected name, and written plainly they are no protected file and begin with no protected prefix.
   */
  lemma AcceptedPathIsOutside(name: string, value: string, spec: ParamSpec, matches: Matcher, dir: seq<string>, c: string)
    requires ValueError(name, value, spec, matches).None? && "/" <= value
    requires dir != [] && Joined(dir) in DENY_DIRS
    requires "/" + c + "/" in DENY_PARTS
    ensures var comps := Components(Split(value, '/'));
            && !(dir <= comps) && c !in comps
            && Joined(comps) !in DENY_FILES && (forall d :: d in DENY_PREFIXES ==> !(d <= Joined(comps)))
  {
    var comps := Components(Split(value, '/'));
    if dir <= comps {
      JoinedPrefix(dir, comps);
    }
    if comps == [] {
      assert Joined(comps) == "";
      assert forall d :: d in DENY_FILES || d in DENY_PREFIXES ==> d != "";
    }
    if c in comps {
      ComponentOccurs(c, comps);
    }
  }

  // ----- what the shell sees -----

  function ReadToken(k: Tok, vals: Values, s: Lexer): Lexer
    requires k.Hole? ==> k.name in vals
  {
    match k
    case Ch(c) => Step(s, c)
    case Hole(name) => s.Extend(Literal(vals[name]))
    case Val(text) => Read(text, s)
  }

  /** Reading a template in which each hole stands for the literal text of its value. */
  function ReadTokens(toks: seq<Tok>, vals: Values, s: Lexer): Lexer
    requires forall k :: k in toks && k.Hole? ==> k.name in vals
    decreases |toks|
  {
    if toks == [] then s else ReadTokens(toks[1..], vals, ReadToken(toks[0], vals, s))
  }

  /** Every hole is met outside quotes and comments. */
  predicate UnquotedHoles(toks: seq<Tok>, vals: Values, s: Lexer)
    requires forall k :: k in toks && k.Hole? ==> k.name in vals
    decreases |toks|
  {
    toks == []
    || ((toks[0].Hole? ==> s.mode == Plain)
        && UnquotedHoles(toks[1..], vals, ReadToken(toks[0], vals, s)))
  }

  /** The same words and operators, up to the characters of the words. */
  predicate SameShape(s: Lexer, s': Lexer)
  {
    && s.mode == s'.mode && s.cur.Some? == s'.cur.Some? && |s.done| == |s'.done|
    && forall i :: 0 <= i < |s.done| ==> s.done[i] == s'.done[i] || (s.done[i].Word? && s'.done[i].Word?)
  }

  lemma {:induction false} FilledTemplateReadsAsTokens(toks: seq<Tok>, vals: Values, s: Lexer)
    requires forall k :: k in toks ==> !k.Val? && (k.Hole? ==> k.name in vals)
    requires UnquotedHoles(toks, vals, s)
    ensures Read(Flat(Fill(toks, QuotedValues(vals))), s) == ReadTokens(toks, vals, s)
    decreases |toks|
  {
    if toks != [] {
      FillCons(toks, QuotedValues(vals));
      var head, rest := TokText(FillTok(toks[0], QuotedValues(vals))), Flat(Fill(toks[1..], QuotedValues(vals)));
      ReadConcat(head, rest, s);
      var next := ReadToken(toks[0], vals, s);
      if toks[0].Hole? {
        QuoteIsOneLiteral(vals[toks[0].name], s);
      } else {
        ReadOne(head, s, next);
      }
      assert Read(head, s) == next;
      FilledTemplateReadsAsTokens(toks[1..], vals, next);
    }
  }

  lemma TokenKeepsShape(k: Tok, vals: Values, vals': Values, s: Lexer, s': Lexer)
    requires !k.Val? && (k.Hole? ==> k.name in vals && k.name in vals') && SameShape(s, s')
    ensures SameShape(ReadToken(k, vals, s), ReadToken(k, vals', s'))
  {
    assert SameShape(s.Flush(), s'.Flush());
  }

  lemma {:induction false} ValuesKeepShape(toks: seq<Tok>, vals: Values, vals': Values, s: Lexer, s': Lexer)
    requires forall k :: k in toks ==> !k.Val? && (k.Hole? ==> k.name in vals && k.name in vals')
    requires SameShape(s, s')
    ensures SameShape(ReadTokens(toks, vals, s), ReadTokens(toks, vals', s'))
    ensures UnquotedHoles(toks, vals, s) <==> UnquotedHoles(toks, vals', s')
    decreases |toks|
  {
    if toks != [] {
      TokenKeepsShape(toks[0], vals, vals', s, s');
      ValuesKeepShape(toks[1..], vals, vals', ReadToken(toks[0], vals, s), ReadToken(toks[0], vals', s'));
    }
  }

  /**
   * Arguments cannot change the structure of a command: with unquoted holes, the simultaneous filling reads as the
   * template with each value as literal text in place, and any other values give the same words and operators.
   */
  lemma ArgumentsCannotReshape(template: string, vals: Values, vals': Values)
    requires vals.Keys == vals'.Keys == Names(template)
    requires forall k :: k in Scan(template) && k.Hole? ==> k.name in vals
    requires UnquotedHoles(Scan(template), vals, Lexer(Plain, None, []))
    ensures var start := Lexer(Plain, None, []);
            && Read(Simultaneous(template, QuotedValues(vals)), start) == ReadTokens(Scan(template), vals, start)
            && SameShape(Read(Simultaneous(template, QuotedValues(vals)), start),
                         Read(Simultaneous(template, QuotedValues(vals')), start))
  {
    var start := Lexer(Plain, None, []);
    ScanIsFaithful(template);
    FilledTemplateReadsAsTokens(Scan(template), vals, start);
    ValuesKeepShape(Scan(template), vals, vals', start, start);
    FilledTemplateReadsAsTokens(Scan(template), vals', start);
  }
}
