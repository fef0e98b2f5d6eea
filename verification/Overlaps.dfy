/**
 * When replacing a value by a mark can put the value back into the text (app/storage.py: scrub_output on one value):
 * exactly when value and mark overlap in one of three ways.
 */
module Overlaps {
  import opened Text
  import opened Secrets

  /** The text before an occurrence, `v[..k]`, does not make an earlier one that would be replaced first. */
  predicate NotEarlier(v: string, k: nat)
    requires k <= |v|
  {
    forall i :: 0 <= i < k ==> !At(v[..k] + v, v, i)
  }

  /** The value ends with a beginning of the mark, or goes through the mark, after a part of its own. */
  predicate RunsIntoMark(v: string, m: string, k: nat)
    requires k <= |v|
  {
    0 < k < |v| && (v[k..] <= m || m <= v[k..]) && NotEarlier(v, k)
  }

  /** The value lies in the mark, begins with an end of the mark, or runs into the mark. */
  predicate Reforms(v: string, m: string)
  {
    || Occurs(v, m)
    || (exists i :: 0 <= i < |m| && m[i..] <= v)
    || (exists k :: 0 <= k <= |v| && RunsIntoMark(v, m, k))
  }

  // ----- a surviving value overlaps the mark -----

  lemma FromInsideMark(m: string, rest: string, v: string, i: nat)
    requires i < |m| && At(m + rest, v, i)
    ensures Occurs(v, m) || m[i..] <= v
  {
    var t := m + rest;
    if i + |v| <= |m| {
      assert m[i..i + |v|] == t[i..i + |v|];
      assert At(m, v, i);
    } else {
      assert t[i..i + |v|][..|m| - i] == m[i..];
    }
  }

  lemma AtInLonger(x: string, v: string, rest: string, i: nat)
    requires i <= |x|
    ensures At(x + v, v, i) <==> At(x + (v + rest), v, i)
  {
    assert (x + (v + rest))[..|x| + |v|] == x + v;
    assert (x + v)[i..i + |v|] == (x + (v + rest))[i..i + |v|];
  }

  predicate ReadWithout(x: string, t: string, v: string)
  {
    forall i :: 0 <= i < |x| ==> !At(x + t, v, i)
  }

  /** The value cannot begin where the reading found no occurrence. */
  lemma NotAtStart(x: string, t: string, v: string)
    requires v != "" && ReadWithout(x, t, v) && (x == "" ==> |t| < |v| || t[..|v|] != v)
    ensures !(v <= x + t)
  {
    if v <= x + t {
      assert (x + t)[0..|v|] == v;
      assert At(x + t, v, 0);
    }
  }

  lemma AtTheMark(x: string, rest: string, v: string, m: string)
    requires x != "" && |x| < |v| && ReadWithout(x, v + rest, v)
    requires v <= x + (m + Replace(rest, v, m))
    ensures RunsIntoMark(v, m, |x|)
  {
    assert v[..|x|] == x;
    assert v[|x|..] <= m + Replace(rest, v, m);
    forall i | 0 <= i < |x|
      ensures !At(v[..|x|] + v, v, i)
    {
      AtInLonger(x, v, rest, i);
    }
  }

  /** Reading one character on, where the value does not start. */
  lemma ReadOn(x: string, t: string, v: string)
    requires v != "" && ReadWithout(x, t, v) && |t| >= |v| && t[..|v|] != v
    ensures ReadWithout(x + [t[0]], t[1..], v)
  {
    assert x + [t[0]] + t[1..] == x + t;
    assert (x + t)[|x|..|x| + |v|] == t[..|v|];
  }

  lemma ReplaceOn(x: string, t: string, v: string, m: string)
    requires v != "" && |t| >= |v| && t[..|v|] != v
    ensures x + Replace(t, v, m) == x + [t[0]] + Replace(t[1..], v, m)
  {
  }

  /** The text has been read up to `x` without a replacement, and the value starts at its beginning. */
  lemma {:induction false} FromBeforeMark(x: string, t: string, v: string, m: string)
    requires v != "" && ReadWithout(x, t, v) && (x == "" ==> |t| < |v| || t[..|v|] != v)
    requires v <= x + Replace(t, v, m)
    ensures Reforms(v, m)
    decreases |t|
  {
    NotAtStart(x, t, v);
    if |t| >= |v| && t[..|v|] != v {
      ReadOn(x, t, v);
      ReplaceOn(x, t, v, m);
      FromBeforeMark(x + [t[0]], t[1..], v, m);
    } else if |t| >= |v| {
      assert t == v + t[|v|..];
      AtOccurrence(x, t[|v|..], v, m);
    }
  }

  lemma ShortBefore(x: string, t: string, v: string, y: string)
    requires v != "" && x != "" && ReadWithout(x, t, v) && v <= x + y
    ensures |x| < |v|
  {
    NotAtStart(x, t, v);
    assert |x| >= |v| ==> v <= x && v <= x + t;
  }

  lemma AtOccurrence(x: string, rest: string, v: string, m: string)
    requires v != "" && x != "" && ReadWithout(x, v + rest, v) && v <= x + Replace(v + rest, v, m)
    ensures Reforms(v, m)
  {
    ReplaceLeading(rest, v, m);
    ShortBefore(x, v + rest, v, Replace(v + rest, v, m));
    AtTheMark(x, rest, v, m);
  }

  lemma {:induction false} SurvivorReforms(text: string, v: string, m: string)
    requires v != "" && Occurs(v, Replace(text, v, m))
    ensures Reforms(v, m)
    decreases |text|
  {
    var r := Replace(text, v, m);
    var i :| 0 <= i <= |r| - |v| && At(r, v, i);
    if |text| >= |v| {
      var head := if text[..|v|] == v then m else [text[0]];
      var rest := Replace(text[if text[..|v|] == v then |v| else 1..], v, m);
      assert r == head + rest;
      if i >= |head| {
        AtShift(r, v, |head|, i - |head|);
        assert r[|head|..] == rest;
        assert At(rest, v, i - |head|);
        SurvivorReforms(text[if text[..|v|] == v then |v| else 1..], v, m);
      } else if text[..|v|] == v {
        FromInsideMark(m, rest, v, i);
      } else {
        assert r[0..|v|] == v;
        FromBeforeMark("", text, v, m);
      }
    }
  }

  // ----- an overlap makes a value survive -----

  lemma ShortTail(z: string, v: string, m: string)
    requires v != "" && |z| < |v|
    ensures Replace(v + z, v, m) == m + z
  {
    ReplaceLeading(z, v, m);
  }

  lemma BeginsWithMarkEnd(v: string, m: string, i: nat) returns (text: string)
    requires v != "" && i < |m| && m[i..] <= v
    ensures Occurs(v, Replace(text, v, m))
  {
    var z := v[|m| - i..];
    text := v + z;
    ShortTail(z, v, m);
    assert v == m[i..] + z;
    assert (m + z)[i..i + |v|] == v;
    assert At(m + z, v, i);
  }

  lemma RunsInto(v: string, m: string, k: nat) returns (text: string)
    requires v != "" && m != "" && k <= |v| && RunsIntoMark(v, m, k)
    ensures Occurs(v, Replace(text, v, m))
  {
    var x := v[..k];
    var z := if m <= v[k..] then v[k..][|m|..] else "";
    text := x + (v + z);
    forall i | 0 <= i < |x|
      ensures !At(x + (v + z), v, i)
    {
      AtInLonger(x, v, z, i);
    }
    ReplaceSkips(x, v + z, v, m);
    ShortTail(z, v, m);
    var r := x + (m + z);
    assert v == x + v[k..];
    assert v <= r;
    assert r[0..|v|] == v;
    assert At(r, v, 0);
  }

  lemma ReformsSurvives(v: string, m: string) returns (text: string)
    requires v != "" && m != "" && Reforms(v, m)
    ensures Occurs(v, Replace(text, v, m))
  {
    if Occurs(v, m) {
      text := v;
      ReplaceLeading("", v, m);
      assert v + "" == v && m + "" == m;
    } else if i :| 0 <= i < |m| && m[i..] <= v {
      text := BeginsWithMarkEnd(v, m, i);
    } else {
      var k :| 0 <= k <= |v| && RunsIntoMark(v, m, k);
      text := RunsInto(v, m, k);
    }
  }

  /**
   * Scrubbing a single value, whatever its characters, leaves it in no text exactly when the value and the mark do not
   * overlap in one of the three ways.
   */
  lemma OneValueCompleteExactly(v: string)
    requires v != ""
    ensures (forall text :: LeavesNothing([v], text)) <==> !Reforms(v, "[REDACTED]")
  {
    if Reforms(v, MARK) {
      var text := ReformsSurvives(v, MARK);
      ScrubbedOne(text, v);
      assert v in [v];
      assert !LeavesNothing([v], text);
    } else {
      forall text
        ensures LeavesNothing([v], text)
      {
        ScrubbedOne(text, v);
        if Occurs(v, Replace(text, v, MARK)) {
          SurvivorReforms(text, v, MARK);
        }
      }
    }
  }

  lemma ScrubbedOne(text: string, v: string)
    requires v != ""
    ensures Scrubbed(text, [v]) == Replace(text, v, MARK)
  {
    assert [v][1..] == [];
    if !Occurs(v, text) {
      ReplaceAbsent(text, v, MARK);
    }
  }
}
