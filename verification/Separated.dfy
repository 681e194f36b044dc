/** Texts: the pieces between their separators, and what stands where. */
module Separated {
  function Split(sep: char, t: string): (ps: seq<string>)
    ensures |ps| > 0
  {
    if t == "" then [""]
    else
      var n := |t| - 1;
      var ps := Split(sep, t[..n]);
      if t[n] == sep then ps + [""] else ps[..|ps| - 1] + [ps[|ps| - 1] + [t[n]]]
  }

  function Join(sep: char, ps: seq<string>): string
    requires |ps| > 0
  {
    if |ps| == 1 then ps[0] else Join(sep, ps[..|ps| - 1]) + [sep] + ps[|ps| - 1]
  }

  ghost predicate Free(sep: char, p: string) {
    forall i :: 0 <= i < |p| ==> p[i] != sep
  }

  lemma SplitStep(sep: char, t: string, c: char)
    ensures var ps := Split(sep, t);
      Split(sep, t + [c]) == if c == sep then ps + [""] else ps[..|ps| - 1] + [ps[|ps| - 1] + [c]]
  {
    assert (t + [c])[..|t|] == t;
  }

  /** string without separators is added to the last piece. */
  lemma {:induction false} SplitMore(sep: char, t: string, p: string)
    requires Free(sep, p)
    ensures var ps := Split(sep, t); Split(sep, t + p) == ps[..|ps| - 1] + [ps[|ps| - 1] + p]
  {
    hide Split;
    var ps := Split(sep, t);
    var k := |ps| - 1;
    if p == "" {
      assert t + p == t && ps[k] + p == ps[k] && ps[..k] + [ps[k]] == ps;
    } else {
      var n := |p| - 1;
      SplitMore(sep, t, p[..n]);
      SplitStep(sep, t + p[..n], p[n]);
      assert t + p == (t + p[..n]) + [p[n]];
      assert ps[k] + p == ps[k] + p[..n] + [p[n]];
    }
  }

  lemma {:induction false} SplitOfJoin(sep: char, ps: seq<string>)
    requires |ps| > 0 && forall i :: 0 <= i < |ps| ==> Free(sep, ps[i])
    ensures Split(sep, Join(sep, ps)) == ps
  {
    hide Split;
    var n := |ps| - 1;
    SplitNil(sep);
    if n == 0 {
      SplitMore(sep, "", ps[0]);
      assert "" + ps[0] == ps[0] && [""][..0] + [ps[0]] == ps;
    } else {
      var t := Join(sep, ps[..n]);
      SplitOfJoin(sep, ps[..n]);
      SplitStep(sep, t, sep);
      SplitMore(sep, t + [sep], ps[n]);
      assert (ps[..n] + [""])[..n] == ps[..n] && "" + ps[n] == ps[n];
      assert ps[..n] + [ps[n]] == ps;
    }
  }

  lemma SplitNil(sep: char)
    ensures Split(sep, "") == [""]
  {
  }

  /** The pieces of the start of a text are pieces of the text, but for the last one, which goes on. */
  lemma {:induction false} SplitPrefix(sep: char, t: string, i: nat)
    requires i <= |t|
    ensures var ps, qs := Split(sep, t[..i]), Split(sep, t); var k := |ps| - 1;
      |ps| <= |qs| && qs[..k] == ps[..k] && ps[k] <= qs[k]
    decreases |t| - i
  {
    if i == |t| {
      assert t[..i] == t;
    } else {
      SplitPrefix(sep, t, i + 1);
      assert t[..i + 1][..i] == t[..i];
      var ps, rs, qs := Split(sep, t[..i]), Split(sep, t[..i + 1]), Split(sep, t);
      var k := |ps| - 1;
      assert qs[..k] == qs[..|rs| - 1][..k];
      assert rs[..|rs| - 1][..k] == ps[..k];
      if t[i] == sep {
        assert qs[k] == qs[..|rs| - 1][k] == rs[k];
      }
    }
  }

  lemma JoinMore(sep: char, ps: seq<string>, p: string)
    requires |ps| > 0
    ensures Join(sep, ps + [p]) == Join(sep, ps) + [sep] + p
  {
    assert (ps + [p])[..|ps|] == ps;
  }

  lemma JoinOne(sep: char, p: string)
    ensures Join(sep, [p]) == p
  {
  }

  // The last piece goes on.
  lemma JoinLonger(sep: char, ps: seq<string>, p: string, c: char)
    ensures Join(sep, ps + [p + [c]]) == Join(sep, ps + [p]) + [c]
  {
    hide Join;
    if ps == [] {
      assert ps + [p] == [p] && ps + [p + [c]] == [p + [c]];
      JoinOne(sep, p);
      JoinOne(sep, p + [c]);
    } else {
      JoinMore(sep, ps, p);
      JoinMore(sep, ps, p + [c]);
      var j := Join(sep, ps) + [sep];
      assert j + (p + [c]) == (j + p) + [c];
    }
  }

  lemma {:induction false} JoinOfSplit(sep: char, t: string)
    ensures Join(sep, Split(sep, t)) == t
  {
    hide Split, Join;
    if t == "" {
      SplitNil(sep);
      JoinOne(sep, "");
    } else {
      var n := |t| - 1;
      JoinOfSplit(sep, t[..n]);
      SplitStep(sep, t[..n], t[n]);
      var ps := Split(sep, t[..n]);
      var k := |ps| - 1;
      assert t == t[..n] + [t[n]] && ps == ps[..k] + [ps[k]];
      if t[n] == sep {
        JoinMore(sep, ps, "");
        assert t == t[..n] + [sep] + "";
      } else {
        JoinLonger(sep, ps[..k], ps[k], t[n]);
      }
    }
  }

  lemma {:induction false} PiecesAreFree(sep: char, t: string)
    ensures forall i :: 0 <= i < |Split(sep, t)| ==> Free(sep, Split(sep, t)[i])
  {
    if t != "" {
      PiecesAreFree(sep, t[..|t| - 1]);
    }
  }

  /** `s` stands at place `i`. */
  predicate At(file: string, i: nat, s: string) {
    i + |s| <= |file| && file[i..i + |s|] == s
  }

  lemma AtParts(file: string, i: nat, a: string, b: string)
    ensures At(file, i, a + b) <==> At(file, i, a) && At(file, i + |a|, b)
  {
    var n := |a| + |b|;
    if i + n <= |file| {
      var f := file[i..i + n];
      assert f[..|a|] == file[i..i + |a|] && f[|a|..] == file[i + |a|..i + |a| + |b|];
      assert (a + b)[..|a|] == a && (a + b)[|a|..] == b;
      assert f[..|a|] + f[|a|..] == f;
    }
  }

  lemma AtChar(file: string, i: nat, c: char, b: string)
    ensures At(file, i, [c] + b) <==> i < |file| && file[i] == c && At(file, i + 1, b)
  {
    AtParts(file, i, [c], b);
    assert i < |file| ==> file[i..i + 1] == [file[i]];
  }
}
