/**
 * What a parameter's value must satisfy (app/params.py: validate_and_substitute, _check_path), on the value and its
 * specification alone; for absolute paths, component by component, however they are spelled.
 */
module ValuePolicy {
  import opened Text
  import opened Options
  import opened Registry
  import opened Templates
  import opened Params

  // ----- components -----

  /** The parts with the separator between them. */
  function Spelled(parts: seq<string>, sep: char): string
    requires parts != []
  {
    if |parts| == 1 then parts[0] else parts[0] + [sep] + Spelled(parts[1..], sep)
  }

  predicate FreeOf(parts: seq<string>, sep: char)
  {
    forall i :: 0 <= i < |parts| ==> sep !in parts[i]
  }

  /** Splitting cuts at every separator, and only there. */
  lemma {:induction false} SplitIsTheText(t: string, sep: char)
    ensures Spelled(Split(t, sep), sep) == t && FreeOf(Split(t, sep), sep)
    decreases |t|
  {
    if t != "" {
      SplitIsTheText(t[1..], sep);
      var rest := Split(t[1..], sep);
      assert t == [t[0]] + t[1..];
      if t[0] == sep {
        assert ([""] + rest)[1..] == rest;
      } else {
        assert ([[t[0]] + rest[0]] + rest[1..])[1..] == rest[1..];
      }
    }
  }

  predicate Counts(part: string)
  {
    part != "" && part != "."
  }

  /** The components are the parts other than `.` and the empty one, in their order. */
  lemma {:induction false} ComponentsAreParts(parts: seq<string>)
    ensures forall c :: c in Components(parts) <==> c in parts && Counts(c)
    ensures forall part, more :: parts == [part] + more ==>
              Components(parts) == (if Counts(part) then [part] else []) + Components(more)
    decreases |parts|
  {
    if parts != [] {
      ComponentsAreParts(parts[1..]);
      assert parts == [parts[0]] + parts[1..];
      assert forall part, more :: parts == [part] + more ==> part == parts[0] && more == parts[1..];
    }
  }

  lemma ComponentsAreNames(value: string)
    ensures forall i :: 0 <= i < |Components(Split(value, '/'))| ==>
              Components(Split(value, '/'))[i] != "" && '/' !in Components(Split(value, '/'))[i]
  {
    var parts := Split(value, '/');
    SplitIsTheText(value, '/');
    ComponentsAreParts(parts);
    forall i | 0 <= i < |Components(parts)|
      ensures Components(parts)[i] != "" && '/' !in Components(parts)[i]
    {
      assert Components(parts)[i] in parts;
    }
  }

  // ----- paths as text and as components -----

  predicate AreNames(comps: seq<string>)
  {
    forall i :: 0 <= i < |comps| ==> comps[i] != "" && '/' !in comps[i]
  }

  lemma SameHead(a: string, x: string, b: string, y: string)
    requires '/' !in a && '/' !in b && (x == "" || x[0] == '/') && (y == "" || y[0] == '/') && a + x == b + y
    ensures a == b && x == y
  {
    var t := a + x;
    assert t == b + y;
    assert forall k :: 0 <= k < |a| ==> t[k] == a[k] != '/';
    assert forall k :: 0 <= k < |b| ==> t[k] == b[k] != '/';
    assert x != "" ==> t[|a|] == '/';
    assert y != "" ==> t[|b|] == '/';
    assert |a| == |b|;
    assert a == t[..|a|] && b == t[..|b|];
  }

  lemma JoinedStarts(comps: seq<string>)
    ensures Joined(comps) == "" || Joined(comps)[0] == '/'
    ensures comps == [] <==> Joined(comps) == ""
  {
  }

  /** Written plainly, different paths read differently. */
  lemma {:induction false} JoinedIsOne(a: seq<string>, b: seq<string>)
    requires AreNames(a) && AreNames(b) && Joined(a) == Joined(b)
    ensures a == b
    decreases |a|
  {
    JoinedStarts(a);
    JoinedStarts(b);
    if a != [] {
      JoinedStarts(a[1..]);
      JoinedStarts(b[1..]);
      assert a[0] + Joined(a[1..]) == Joined(a)[1..] == Joined(b)[1..] == b[0] + Joined(b[1..]);
      SameHead(a[0], Joined(a[1..]), b[0], Joined(b[1..]));
      JoinedIsOne(a[1..], b[1..]);
      assert a == [a[0]] + a[1..] && b == [b[0]] + b[1..];
    }
  }

  lemma HeadOfPath(d: string, dr: string, c: string, cr: string)
    requires '/' !in d && '/' !in c && (dr == "" || dr[0] == '/') && (cr == "" || cr[0] == '/')
    requires "/" + d + dr + "/" <= "/" + c + cr
    ensures d == c && dr + "/" <= cr
  {
    var full, front := "/" + c + cr, "/" + d + dr + "/";
    var rest := full[|front|..];
    assert full == front + rest;
    assert full[1..] == c + cr && full[1..] == d + (dr + "/" + rest);
    SameHead(d, dr + "/" + rest, c, cr);
    assert dr + "/" == cr[..|dr| + 1];
  }

  lemma TextAfter(dir: seq<string>, comps: seq<string>)
    requires AreNames(dir) && AreNames(comps) && dir != [] && Joined(dir) + "/" <= Joined(comps)
    ensures comps != [] && dir[0] == comps[0] && Joined(dir[1..]) + "/" <= Joined(comps[1..])
  {
    JoinedStarts(comps);
    JoinedStarts(comps[1..]);
    JoinedStarts(dir[1..]);
    HeadOfPath(dir[0], Joined(dir[1..]), comps[0], Joined(comps[1..]));
  }

  lemma {:induction false} BelowDirectory(dir: seq<string>, comps: seq<string>)
    requires AreNames(dir) && AreNames(comps) && Joined(dir) + "/" <= Joined(comps)
    ensures dir <= comps
    decreases |dir|
  {
    if dir != [] {
      TextAfter(dir, comps);
      BelowDirectory(dir[1..], comps[1..]);
      assert dir == [dir[0]] + dir[1..] && comps == [comps[0]] + comps[1..];
    }
  }

  /** A path lies in a directory exactly if its components begin with those of the directory. */
  lemma InDirectory(dir: seq<string>, comps: seq<string>)
    requires AreNames(dir) && AreNames(comps)
    ensures dir <= comps <==> Joined(comps) == Joined(dir) || Joined(dir) + "/" <= Joined(comps)
  {
    if dir <= comps {
      JoinedPrefix(dir, comps);
    }
    if Joined(comps) == Joined(dir) {
      JoinedIsOne(comps, dir);
    }
    if Joined(dir) + "/" <= Joined(comps) {
      BelowDirectory(dir, comps);
    }
  }

  // ----- names anywhere on the path -----

  lemma AfterSlash(w: string, rest: string, c: string, i: nat)
    requires '/' !in w && At("/" + w + rest, "/" + c + "/", i) && 0 < i
    ensures i > |w| && At(rest, "/" + c + "/", i - |w| - 1)
  {
    var t, pat := "/" + w + rest, "/" + c + "/";
    assert t[i] == t[i..i + |pat|][0] == '/';
    assert forall k :: 0 < k <= |w| ==> t[k] == w[k - 1] != '/';
    assert t[|w| + 1..] == rest;
    AtShift(t, pat, |w| + 1, i - |w| - 1);
  }

  lemma AtTheStart(w: string, rest: string, c: string)
    requires '/' !in w && '/' !in c && rest != "" && rest[0] == '/' && At("/" + w + rest, "/" + c + "/", 0)
    ensures w == c
  {
    var t, pat := "/" + w + rest, "/" + c + "/";
    assert t[0..|pat|] == pat && t == pat + t[|pat|..];
    assert t[1..] == w + rest && t[1..] == c + ("/" + t[|pat|..]);
    SameHead(w, rest, c, "/" + t[|pat|..]);
  }

  lemma {:induction false} OccurringIsComponent(c: string, comps: seq<string>, i: nat)
    requires AreNames(comps) && c != "" && '/' !in c && At(Joined(comps) + "/", "/" + c + "/", i)
    ensures c in comps
    decreases |comps|
  {
    assert comps != [];
    var rest := Joined(comps[1..]) + "/";
    JoinedStarts(comps[1..]);
    assert Joined(comps) + "/" == "/" + comps[0] + rest;
    if i == 0 {
      AtTheStart(comps[0], rest, c);
    } else {
      AfterSlash(comps[0], rest, c, i);
      OccurringIsComponent(c, comps[1..], i - |comps[0]| - 1);
    }
  }

  /** A name stands somewhere on the path exactly if it is a component of it. */
  lemma NamedOnPath(c: string, comps: seq<string>)
    requires AreNames(comps) && c != "" && '/' !in c
    ensures Occurs("/" + c + "/", Joined(comps) + "/") <==> c in comps
  {
    if c in comps {
      ComponentOccurs(c, comps);
    }
    if Occurs("/" + c + "/", Joined(comps) + "/") {
      var i :| 0 <= i <= |Joined(comps) + "/"| - |"/" + c + "/"| && At(Joined(comps) + "/", "/" + c + "/", i);
      OccurringIsComponent(c, comps, i);
    }
  }

  // ----- names with a protected beginning -----

  lemma {:induction false} JoinedConcat(a: seq<string>, b: seq<string>)
    ensures Joined(a + b) == Joined(a) + Joined(b)
    decreases |a|
  {
    if a == [] {
      assert a + b == b;
    } else {
      assert (a + b)[1..] == a[1..] + b;
      JoinedConcat(a[1..], b);
    }
  }

  lemma StemOfHead(stem: string, c: string, rest: string)
    requires '/' !in stem && '/' !in c && (rest == "" || rest[0] == '/')
    ensures stem <= c <==> stem <= c + rest
  {
    if stem <= c + rest {
      assert forall k :: 0 <= k < |stem| ==> stem[k] == (c + rest)[k];
      assert rest != "" ==> (c + rest)[|c|] == '/';
      assert |stem| <= |c|;
      assert c == (c + rest)[..|c|];
    }
  }

  lemma JoinedHead(comps: seq<string>)
    requires comps != []
    ensures Joined(comps) == "/" + (comps[0] + Joined(comps[1..]))
  {
  }

  lemma JoinedAt(comps: seq<string>, n: nat)
    requires n < |comps|
    ensures Joined(comps) == Joined(comps[..n]) + ("/" + (comps[n] + Joined(comps[n + 1..])))
  {
    var more := comps[n..];
    assert comps[..n] + more == comps;
    assert more[0] == comps[n] && more[1..] == comps[n + 1..];
    JoinedConcat(comps[..n], more);
    JoinedHead(more);
  }

  lemma TextBegins(front: string, stem: string, c: string, rest: string)
    requires '/' !in stem && '/' !in c && (rest == "" || rest[0] == '/')
    ensures front + "/" + stem <= front + ("/" + (c + rest)) <==> stem <= c
  {
    StemOfHead(stem, c, rest);
    BehindSlash(front, stem, c + rest);
  }

  lemma TextIsBelow(dir: seq<string>, stem: string, comps: seq<string>)
    requires AreNames(dir) && AreNames(comps) && Joined(dir) + "/" + stem <= Joined(comps)
    ensures dir <= comps
  {
    PrefixOfPrefix(Joined(dir) + "/", stem, Joined(comps));
    BelowDirectory(dir, comps);
  }

  lemma BeginsAt(stem: string, comps: seq<string>, n: nat)
    requires n < |comps| && '/' !in comps[n] && '/' !in stem
    ensures Joined(comps[..n]) + "/" + stem <= Joined(comps) <==> stem <= comps[n]
  {
    JoinedAt(comps, n);
    JoinedStarts(comps[n + 1..]);
    TextBegins(Joined(comps[..n]), stem, comps[n], Joined(comps[n + 1..]));
  }

  lemma LongerThanPath(dir: seq<string>, stem: string, comps: seq<string>)
    requires dir <= comps && Joined(dir) + "/" + stem <= Joined(comps)
    ensures |dir| < |comps|
  {
    if dir == comps {
      LongerIsNoPrefix(Joined(comps), "/" + stem);
    }
  }

  lemma LongerIsNoPrefix(t: string, more: string)
    requires more != ""
    ensures !(t + more <= t)
  {
  }

  /** A path reads on from a directory with a stem exactly if its next component begins with it. */
  lemma BeginsInDirectory(dir: seq<string>, stem: string, comps: seq<string>)
    requires AreNames(dir) && AreNames(comps) && stem != "" && '/' !in stem
    ensures Joined(dir) + "/" + stem <= Joined(comps) <==> StartsIn(comps, dir, stem)
  {
    if Joined(dir) + "/" + stem <= Joined(comps) {
      TextIsBelow(dir, stem, comps);
      LongerThanPath(dir, stem, comps);
    }
    if |dir| < |comps| && comps[..|dir|] == dir {
      BeginsAt(stem, comps, |dir|);
    }
  }

  predicate StartsIn(comps: seq<string>, dir: seq<string>, stem: string)
  {
    |dir| < |comps| && comps[..|dir|] == dir && stem <= comps[|dir|]
  }

  lemma PrefixOfPrefix(a: string, b: string, t: string)
    requires a + b <= t
    ensures a <= t
  {
    assert t[..|a|] == (a + b)[..|a|];
  }

  lemma BehindSlash(front: string, stem: string, rest: string)
    ensures front + "/" + stem <= front + ("/" + rest) <==> stem <= rest
  {
    var t := front + ("/" + rest);
    assert t[|front| + 1..] == rest;
    if front + "/" + stem <= t {
      assert stem == t[..|front| + 1 + |stem|][|front| + 1..];
    }
    if stem <= rest {
      assert rest == stem + rest[|stem|..];
      assert t == front + "/" + stem + rest[|stem|..];
    }
  }

  // ----- the policy -----

  lemma Plainly(a: string, b: string, c: string)
    ensures Joined([a]) == "/" + a
    ensures Joined([a, b]) == "/" + a + "/" + b
    ensures Joined([a, b, c]) == "/" + a + "/" + b + "/" + c
  {
    JoinedConcat([a], [b]);
    JoinedConcat([a, b], [c]);
    assert [a] + [b] == [a, b] && [a, b] + [c] == [a, b, c];
    assert forall x: string :: [x][1..] == [] && Joined([x]) == "/" + x;
  }

  const DIRS: seq<seq<string>> := [["root"], ["proc"], ["opt", "mcp-gate", "data"], ["var", "lib", "marzban"],
                                   ["etc", "ssl", "private"]]
  const FILES: seq<seq<string>> := [["etc", "shadow"], ["etc", "gshadow"]]
  const STEMS: seq<(seq<string>, string)> := [(["etc"], "sudoers"), (["etc", "ssh"], "ssh_host_")]
  const NAMES: seq<string> := [".ssh", ".gnupg", ".docker", ".kube", ".aws", "ssh_keys"]

  lemma TopIsSpelled(d: seq<string>, spelled: string)
    requires |d| == 1 && spelled == "/" + d[0]
    ensures Joined(d) == spelled
  {
    Plainly(d[0], "", "");
    assert d == [d[0]];
  }

  lemma DeepIsSpelled(d: seq<string>, spelled: string)
    requires |d| == 3 && spelled == "/" + d[0] + "/" + d[1] + "/" + d[2]
    ensures Joined(d) == spelled
  {
    Plainly(d[0], d[1], d[2]);
    assert d == [d[0], d[1], d[2]];
  }

  lemma DirsAreNames(i: nat)
    requires i < |DIRS|
    ensures |DIRS| == |DENY_DIRS| && AreNames(DIRS[i])
  {
  }

  lemma DirsAreSpelled(i: nat)
    requires i < |DIRS|
    ensures |DIRS| == |DENY_DIRS| && Joined(DIRS[i]) == DENY_DIRS[i]
  {
    if i < 2 {
      TopIsSpelled(DIRS[i], DENY_DIRS[i]);
    } else {
      DeepIsSpelled(DIRS[i], DENY_DIRS[i]);
    }
  }

  lemma FilesAreSpelled(i: nat)
    requires i < |FILES|
    ensures |FILES| == |DENY_FILES| && AreNames(FILES[i]) && Joined(FILES[i]) == DENY_FILES[i]
  {
    var f := FILES[i];
    Plainly(f[0], f[1], "");
    assert f == [f[0], f[1]];
  }

  lemma StemsAreSpelled(i: nat)
    requires i < |STEMS|
    ensures |STEMS| == |DENY_PREFIXES| && AreNames(STEMS[i].0) && STEMS[i].1 != "" && '/' !in STEMS[i].1
    ensures Joined(STEMS[i].0) + "/" + STEMS[i].1 == DENY_PREFIXES[i]
  {
    Plainly("etc", "ssh", "");
  }

  lemma NamesAreSpelled(i: nat)
    requires i < |NAMES|
    ensures |NAMES| == |DENY_PARTS| && NAMES[i] != "" && '/' !in NAMES[i] && DENY_PARTS[i] == "/" + NAMES[i] + "/"
  {
  }

  predicate Inside(p: string, d: string)
  {
    p == d || d + "/" <= p
  }

  lemma DirsExactly(comps: seq<string>)
    requires AreNames(comps)
    ensures (exists i :: 0 <= i < |DENY_DIRS| && Inside(Joined(comps), DENY_DIRS[i])) <==>
            exists i :: 0 <= i < |DIRS| && DIRS[i] <= comps
  {
    forall i | 0 <= i < |DIRS|
      ensures |DIRS| == |DENY_DIRS| && (Inside(Joined(comps), DENY_DIRS[i]) <==> DIRS[i] <= comps)
    {
      DirsAreNames(i);
      DirsAreSpelled(i);
      InDirectory(DIRS[i], comps);
    }
  }

  lemma FilesExactly(comps: seq<string>)
    requires AreNames(comps)
    ensures (exists i :: 0 <= i < |DENY_FILES| && Joined(comps) == DENY_FILES[i]) <==>
            exists i :: 0 <= i < |FILES| && FILES[i] == comps
  {
    forall i | 0 <= i < |FILES|
      ensures |FILES| == |DENY_FILES| && (Joined(comps) == DENY_FILES[i] <==> FILES[i] == comps)
    {
      FilesAreSpelled(i);
      if Joined(comps) == DENY_FILES[i] {
        JoinedIsOne(comps, FILES[i]);
      }
    }
  }

  lemma StemsExactly(comps: seq<string>)
    requires AreNames(comps)
    ensures (exists i :: 0 <= i < |DENY_PREFIXES| && DENY_PREFIXES[i] <= Joined(comps)) <==>
            exists i :: 0 <= i < |STEMS| && StartsIn(comps, STEMS[i].0, STEMS[i].1)
  {
    forall i | 0 <= i < |STEMS|
      ensures |STEMS| == |DENY_PREFIXES|
      ensures DENY_PREFIXES[i] <= Joined(comps) <==> StartsIn(comps, STEMS[i].0, STEMS[i].1)
    {
      StemsAreSpelled(i);
      BeginsInDirectory(STEMS[i].0, STEMS[i].1, comps);
    }
  }

  lemma NamesExactly(comps: seq<string>)
    requires AreNames(comps)
    ensures (exists i :: 0 <= i < |DENY_PARTS| && Occurs(DENY_PARTS[i], Joined(comps) + "/")) <==>
            exists i :: 0 <= i < |NAMES| && NAMES[i] in comps
  {
    forall i | 0 <= i < |NAMES|
      ensures |NAMES| == |DENY_PARTS| && (Occurs(DENY_PARTS[i], Joined(comps) + "/") <==> NAMES[i] in comps)
    {
      NamesAreSpelled(i);
      NamedOnPath(NAMES[i], comps);
    }
  }

  lemma RootIsFree()
    ensures !Protected("/")
  {
    forall d | d in DENY_PARTS
      ensures !Occurs(d, "//")
    {
      assert |d| > 2;
    }
  }

  /** The components of a path that is in a protected directory, is a protected file, or bears a protected name. */
  predicate ProtectedComponents(comps: seq<string>)
  {
    || (exists i :: 0 <= i < |DIRS| && DIRS[i] <= comps)
    || (exists i :: 0 <= i < |FILES| && FILES[i] == comps)
    || (exists i :: 0 <= i < |STEMS| && StartsIn(comps, STEMS[i].0, STEMS[i].1))
    || (exists i :: 0 <= i < |NAMES| && NAMES[i] in comps)
  }

  lemma RootHasNoComponents()
    ensures !ProtectedComponents([])
  {
    forall i | 0 <= i < |DIRS|
      ensures DIRS[i] != []
    {
      DirsAreSpelled(i);
    }
  }

  lemma ProtectedOneByOne(p: string)
    ensures Protected(p) <==>
            || (exists i :: 0 <= i < |DENY_DIRS| && Inside(p, DENY_DIRS[i]))
            || (exists i :: 0 <= i < |DENY_FILES| && p == DENY_FILES[i])
            || (exists i :: 0 <= i < |DENY_PREFIXES| && DENY_PREFIXES[i] <= p)
            || (exists i :: 0 <= i < |DENY_PARTS| && Occurs(DENY_PARTS[i], p + "/"))
  {
    AnyOf(DENY_DIRS, d => Inside(p, d));
    AnyOf(DENY_PREFIXES, d => d <= p);
    AnyOf(DENY_PARTS, d => Occurs(d, p + "/"));
  }

  lemma AnyOf(list: seq<string>, holds: string -> bool)
    ensures (exists d :: d in list && holds(d)) <==> exists i :: 0 <= i < |list| && holds(list[i])
  {
  }

  /** The policy on an absolute path, in any spelling: refused exactly for what its components are. */
  lemma ProtectedExactly(value: string)
    ensures Protected(Normal(value)) <==> ProtectedComponents(Components(Split(value, '/')))
  {
    var comps := Components(Split(value, '/'));
    ComponentsAreNames(value);
    if comps == [] {
      RootIsFree();
      RootHasNoComponents();
    } else {
      ProtectedOneByOne(Joined(comps));
      DirsExactly(comps);
      FilesExactly(comps);
      StemsExactly(comps);
      NamesExactly(comps);
    }
  }

  // ----- one value -----

  /** No step back and no empty step on the way. */
  predicate Straight(value: string)
  {
    && (forall i :: 0 <= i < |value| - 1 ==> !(value[i] == '/' && value[i + 1] == '/'))
    && (forall i :: 0 <= i < |Split(value, '/')| ==> Split(value, '/')[i] != "..")
  }

  lemma DoubleSlash(value: string, i: nat)
    requires i < |value| - 1
    ensures At(value, "//", i) <==> value[i] == '/' && value[i + 1] == '/'
  {
    assert value[i..i + 2] == [value[i], value[i + 1]];
  }

  lemma StraightExactly(value: string)
    ensures Traverses(value) <==> !Straight(value)
  {
    if Occurs("//", value) {
      var i :| 0 <= i <= |value| - |"//"| && At(value, "//", i);
      DoubleSlash(value, i);
    }
    forall i | 0 <= i < |value| - 1 && value[i] == '/' && value[i + 1] == '/'
      ensures Occurs("//", value)
    {
      DoubleSlash(value, i);
    }
    assert ".." in Split(value, '/') <==> exists i :: 0 <= i < |Split(value, '/')| && Split(value, '/')[i] == "..";
  }

  /** Nothing a shell could take for more than text. */
  predicate Tame(value: string)
  {
    forall i :: 0 <= i < |value| ==> value[i] !in {';', '|', '&', '`', '$', '(', ')', '\\', '\n', '\r', '\0'}
  }

  lemma TameExactly(value: string)
    ensures (exists c | c in value :: Dangerous(c)) <==> !Tame(value)
  {
    if c :| c in value && Dangerous(c) {
      var i :| 0 <= i < |value| && value[i] == c;
      assert !Tame(value);
    }
    if !Tame(value) {
      var i :| 0 <= i < |value| && value[i] in {';', '|', '&', '`', '$', '(', ')', '\\', '\n', '\r', '\0'};
      assert value[i] in value && Dangerous(value[i]);
    }
  }

  /** What begins with a slash has to be a straight path outside everything protected. */
  predicate PathPasses(value: string)
  {
    value != "" && value[0] == '/' ==> Straight(value) && !ProtectedComponents(Components(Split(value, '/')))
  }

  lemma PathExactly(name: string, value: string)
    ensures PathError(name, value).None? <==> PathPasses(value)
  {
    StraightExactly(value);
    ProtectedExactly(value);
    assert "/" <= value <==> value != "" && value[0] == '/';
  }

  /** What the specification of a parameter asks of the text of its value. */
  predicate TextPasses(value: string, spec: ParamSpec, matches: Matcher)
  {
    && |value| <= spec.maxLength
    && (value == "" ==> spec.fallback.Some?)
    && (spec.allowShellChars || Tame(value))
    && spec.pattern.Some? && spec.pattern.value != "" && matches(spec.pattern.value, value) == FullMatch
  }

  lemma TextExactly(name: string, value: string, spec: ParamSpec, matches: Matcher)
    ensures TextError(name, value, spec, matches).None? <==> TextPasses(value, spec, matches)
  {
    TameExactly(value);
  }

  predicate Passes(value: string, spec: ParamSpec, matches: Matcher)
  {
    TextPasses(value, spec, matches) && PathPasses(value)
  }

  /** A value is refused exactly if it does not pass, and for a reason that applies. */
  lemma ValueExactly(name: string, value: string, spec: ParamSpec, matches: Matcher)
    ensures ValueError(name, value, spec, matches).None? <==> Passes(value, spec, matches)
  {
    TextExactly(name, value, spec, matches);
    PathExactly(name, value);
  }

  /** The reason given applies. */
  predicate Applies(e: ParamError, value: string, spec: ParamSpec, matches: Matcher)
  {
    match e
    case TooLong(_) => |value| > spec.maxLength
    case Empty(_) => value == "" && spec.fallback == None
    case ForbiddenChar(_) => !spec.allowShellChars && !Tame(value)
    case NoPattern(_) => spec.pattern.None? || spec.pattern.value == ""
    case Rejected(_) => spec.pattern.Some? && matches(spec.pattern.value, value) == NoMatch
    case PatternBroken(_) => spec.pattern.Some? && matches(spec.pattern.value, value) == BadPattern
    case Traversal(_) => "/" <= value && !Straight(value)
    case PathProtected(_) => "/" <= value && ProtectedComponents(Components(Split(value, '/')))
    case _ => false
  }

  lemma ErrorApplies(name: string, value: string, spec: ParamSpec, matches: Matcher)
    requires ValueError(name, value, spec, matches).Some?
    ensures Applies(ValueError(name, value, spec, matches).value, value, spec, matches)
  {
    StraightExactly(value);
    ProtectedExactly(value);
    TameExactly(value);
  }

  // ----- the whole command -----

  /** The argument, or else the default. */
  function Given(p: string, specs: Specs, args: Values): Option<string>
  {
    if p in args then Some(args[p]) else if p in specs then specs[p].fallback else None
  }

  /** Exactly the template's parameters get a value, and each value passes. */
  predicate Fits(template: string, specs: Specs, args: Values, matches: Matcher)
  {
    && (forall p :: p in args ==> p in Names(template))
    && forall p :: p in Names(template) ==>
         p in specs && Given(p, specs, args).Some? && Passes(Given(p, specs, args).value, specs[p], matches)
  }

  lemma CompletedIsGiven(names: set<string>, specs: Specs, args: Values)
    requires names <= specs.Keys
    ensures forall p :: p in names ==> (p in Completed(names, specs, args) <==> Given(p, specs, args).Some?)
    ensures forall p :: p in names && p in Completed(names, specs, args) ==>
              Some(Completed(names, specs, args)[p]) == Given(p, specs, args)
    ensures Completed(names, specs, args).Keys <= names <==> args.Keys <= names
  {
  }

  /** The arguments fit exactly if the specification says so: nothing else is refused, and nothing else accepted. */
  lemma AcceptsExactly(template: string, specs: Specs, args: Values, matches: Matcher)
    ensures Accepts(template, specs, args, matches) <==> Fits(template, specs, args, matches)
  {
    var names := Names(template);
    var vals := Completed(names, specs, args);
    if names <= specs.Keys {
      CompletedIsGiven(names, specs, args);
      forall p | p in names && p in vals
        ensures ValueError(p, vals[p], specs[p], matches).None? <==> Passes(vals[p], specs[p], matches)
      {
        ValueExactly(p, vals[p], specs[p], matches);
      }
      assert vals.Keys == names <==> names <= vals.Keys <= names;
    }
  }

  /** A command is resolved exactly if its arguments fit and no placeholder is left over. */
  lemma ResolvedExactly(template: string, specs: Specs, args: Values, matches: Matcher)
    ensures specs == map[] ==> Resolved(template, specs, args, matches) == Some(template)
    ensures specs != map[] ==>
              (Resolved(template, specs, args, matches).Some? <==>
                 && Fits(template, specs, args, matches)
                 && (forall p :: p in SortedNames(template) ==> p in QuotedValues(Completed(Names(template), specs, args)))
                 && !HasPlaceholder(Sequential(template, SortedNames(template),
                                               QuotedValues(Completed(Names(template), specs, args)))))
  {
    AcceptsExactly(template, specs, args, matches);
    SortedNamesEnumerate(template);
  }
}
