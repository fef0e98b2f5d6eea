/** Strings as Python's `in` and `str.replace` see them. */
module Text {
  /** `pat` starts at position `i` of `text`. */
  predicate At(text: string, pat: string, i: int)
  {
    0 <= i <= i + |pat| <= |text| && text[i..i + |pat|] == pat
  }

  predicate Occurs(pat: string, text: string)
  {
    exists i :: 0 <= i <= |text| - |pat| && At(text, pat, i)
  }

  /** All leftmost non-overlapping occurrences of a non-empty pattern replaced. */
  function Replace(text: string, pat: string, sub: string): string
    requires pat != ""
    decreases |text|
  {
    if |text| < |pat| then text
    else if text[..|pat|] == pat then sub + Replace(text[|pat|..], pat, sub)
    else [text[0]] + Replace(text[1..], pat, sub)
  }

  lemma {:induction false} ReplaceAbsent(text: string, pat: string, sub: string)
    requires pat != "" && !Occurs(pat, text)
    ensures Replace(text, pat, sub) == text
    decreases |text|
  {
    if |text| >= |pat| {
      assert !At(text, pat, 0);
      assert text[0..|pat|] == text[..|pat|];
      OccursInTail(pat, text, 1);
      ReplaceAbsent(text[1..], pat, sub);
    }
  }

  lemma OccursInTail(pat: string, text: string, k: nat)
    requires k <= |text|
    ensures Occurs(pat, text[k..]) ==> Occurs(pat, text)
  {
    if Occurs(pat, text[k..]) {
      var i :| 0 <= i <= |text[k..]| - |pat| && At(text[k..], pat, i);
      AtShift(text, pat, k, i);
    }
  }

  lemma AtShift(text: string, pat: string, k: nat, i: nat)
    requires k <= |text|
    ensures At(text[k..], pat, i) <==> At(text, pat, k + i)
  {
    if k + i + |pat| <= |text| {
      assert text[k..][i..i + |pat|] == text[k + i..k + i + |pat|];
    }
  }

  lemma OccursTrans(a: string, b: string, c: string)
    requires Occurs(a, b) && Occurs(b, c)
    ensures Occurs(a, c)
  {
    var i :| 0 <= i <= |b| - |a| && At(b, a, i);
    var j :| 0 <= j <= |c| - |b| && At(c, b, j);
    var k := j + i;
    forall m | 0 <= m < |a|
      ensures c[k..k + |a|][m] == a[m]
    {
      assert b[i..i + |a|][m] == b[i + m] == c[j..j + |b|][i + m];
    }
    assert At(c, a, k);
  }

  /** A stretch in which no occurrence starts is copied unchanged. */
  lemma {:induction false} ReplaceSkips(a: string, b: string, pat: string, sub: string)
    requires pat != ""
    requires forall i :: 0 <= i < |a| ==> !At(a + b, pat, i)
    ensures Replace(a + b, pat, sub) == a + Replace(b, pat, sub)
    decreases |a|
  {
    var t := a + b;
    if a == "" {
      assert t == b;
    } else {
      assert t[1..] == a[1..] + b;
      forall i | 0 <= i < |a[1..]|
        ensures !At(a[1..] + b, pat, i)
      {
        assert At(t[1..], pat, i) ==> At(t, pat, i + 1) by {
          AtShift(t, pat, 1, i);
        }
      }
      ReplaceSkips(a[1..], b, pat, sub);
      assert a == [a[0]] + a[1..];
      assert a + Replace(b, pat, sub) == [t[0]] + (a[1..] + Replace(b, pat, sub));
      if |t| >= |pat| {
        assert !At(t, pat, 0);
        assert t[0..|pat|] == t[..|pat|];
      }
    }
  }

  /** A leading occurrence is replaced. */
  lemma ReplaceLeading(b: string, pat: string, sub: string)
    requires pat != ""
    ensures Replace(pat + b, pat, sub) == sub + Replace(b, pat, sub)
  {
    assert (pat + b)[..|pat|] == pat && (pat + b)[|pat|..] == b;
  }

  /** Replacing something that occurs leaves the replacement in the text. */
  lemma {:induction false} ReplaceLeaves(text: string, pat: string, sub: string)
    requires pat != "" && Occurs(pat, text)
    ensures Occurs(sub, Replace(text, pat, sub))
    decreases |text|
  {
    var r := Replace(text, pat, sub);
    var i :| 0 <= i <= |text| - |pat| && At(text, pat, i);
    if text[..|pat|] == pat {
      assert r[0..|sub|] == sub;
      assert At(r, sub, 0);
    } else {
      assert text[0..|pat|] == text[..|pat|];
      AtShift(text, pat, 1, i - 1);
      assert At(text[1..], pat, i - 1);
      ReplaceLeaves(text[1..], pat, sub);
      assert r[1..] == Replace(text[1..], pat, sub);
      OccursInTail(sub, r, 1);
    }
  }

  /** No occurrence of `pat` starts inside an occurrence of `w`. */
  ghost predicate Apart(w: string, pat: string)
  {
    forall rest: string, i: int :: 0 <= i < |w| ==> !At(w + rest, pat, i)
  }

  /** Replacing one pattern keeps the occurrences of another that never overlaps it. */
  lemma {:induction false} ReplaceKeeps(text: string, pat: string, sub: string, w: string)
    requires pat != "" && Apart(w, pat) && Apart(pat, w) && Occurs(w, text)
    ensures Occurs(w, Replace(text, pat, sub))
    decreases |text|
  {
    var i :| 0 <= i <= |text| - |w| && At(text, w, i);
    var r := Replace(text, pat, sub);
    if |text| >= |pat| {
      if text[..|pat|] == pat {
        var rest := text[|pat|..];
        assert text == pat + rest;
        assert i >= |pat|;
        AtShift(text, w, |pat|, i - |pat|);
        assert At(rest, w, i - |pat|);
        ReplaceKeeps(rest, pat, sub, w);
        assert r[|sub|..] == Replace(rest, pat, sub);
        OccursInTail(w, r, |sub|);
      } else if i == 0 {
        var rest := text[|w|..];
        assert text[0..|w|] == text[..|w|];
        assert text == w + rest;
        ReplaceSkips(w, rest, pat, sub);
        assert r[0..|w|] == w;
        assert At(r, w, 0);
      } else {
        AtShift(text, w, 1, i - 1);
        assert At(text[1..], w, i - 1);
        ReplaceKeeps(text[1..], pat, sub, w);
        assert r[1..] == Replace(text[1..], pat, sub);
        OccursInTail(w, r, 1);
      }
    }
  }

  predicate AllDigits(w: string)
  {
    w != "" && forall i :: 0 <= i < |w| ==> '0' <= w[i] <= '9'
  }
}
