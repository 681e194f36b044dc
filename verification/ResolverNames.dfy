/** Domain names in messages (sections 3.1 and 4.1.4 of RFC 1035): labels with their lengths in front, ended
    by an empty label or continued elsewhere by a pointer. */
module ResolverNames {
  import opened Separated

  type Message = string           // bytes

  const MAX_STEPS: nat := 128

  predicate IsBytes(s: string) {
    forall i :: 0 <= i < |s| ==> s[i] as int < 256
  }

  datatype Decoded = Labels(labels: seq<string>) | BadLabel | Outside | TooManySteps

  function Prepended(l: string, d: Decoded): Decoded {
    if d.Labels? then Labels([l] + d.labels) else d
  }

  // Where a compression pointer leads.
  function Target(buf: Message, p: nat): nat
    requires p + 1 < |buf| && buf[p] as int >= 192
  {
    (buf[p] as int - 192) * 256 + buf[p + 1] as int
  }

  /** The name at `p`, if at most `steps` labels and pointers lead to its end. */
  function NameAt(buf: Message, p: nat, steps: nat): Decoded
    requires p < |buf|
    decreases steps
  {
    if steps == 0 then TooManySteps
    else
      var n := buf[p] as int;
      if n == 0 then Labels([])
      else if 64 <= n < 192 then BadLabel
      else if n >= 192 then
        if p + 1 >= |buf| || Target(buf, p) >= |buf| then Outside else NameAt(buf, Target(buf, p), steps - 1)
      else if p + 1 + n >= |buf| then Outside
      else Prepended(buf[p + 1..p + 1 + n], NameAt(buf, p + 1 + n, steps - 1))
  }

  function Lowered(s: string): (l: string)
    ensures |l| == |s|
    ensures forall i :: 0 <= i < |s| ==> l[i] == if 'A' <= s[i] <= 'Z' then (s[i] as int + 32) as char else s[i]
  {
    seq(|s|, i requires 0 <= i < |s| => if 'A' <= s[i] <= 'Z' then (s[i] as int + 32) as char else s[i])
  }

  /** The labels in lower case, each with a dot behind it. */
  function Dotted(labels: seq<string>): string {
    if labels == [] then "" else Dotted(labels[..|labels| - 1]) + Lowered(labels[|labels| - 1]) + "."
  }

  /** The name as text. */
  function TextOf(labels: seq<string>): string {
    if labels == [] then "" else Lowered(Join('.', labels))
  }

  lemma LoweredConcat(a: string, b: string)
    ensures Lowered(a + b) == Lowered(a) + Lowered(b)
  {
  }

  lemma {:induction false} DottedIsText(labels: seq<string>)
    ensures labels != [] ==> Dotted(labels) == TextOf(labels) + "."
  {
    if |labels| > 1 {
      var n := |labels| - 1;
      DottedIsText(labels[..n]);
      JoinMore('.', labels[..n], labels[n]);
      assert labels == labels[..n] + [labels[n]];
      LoweredConcat(Join('.', labels[..n]) + ['.'], labels[n]);
      LoweredConcat(Join('.', labels[..n]), ['.']);
      assert Lowered(['.']) == ".";
    }
  }

  // ----- encoding -----

  predicate Short(l: string) {
    1 <= |l| <= 255
  }

  /** Labels with their lengths in front. */
  function Encoded(labels: seq<string>): string
    requires forall i :: 0 <= i < |labels| ==> Short(labels[i])
  {
    if labels == [] then "" else assert Short(labels[0]); [|labels[0]| as char] + labels[0] + Encoded(labels[1..])
  }

  // One step of the reader.
  lemma NameStep(buf: Message, p: nat, steps: nat)
    requires p < |buf|
    ensures steps == 0 ==> NameAt(buf, p, steps) == TooManySteps
    ensures steps > 0 ==>
      var n := buf[p] as int;
      NameAt(buf, p, steps) ==
        if n == 0 then Labels([])
        else if 64 <= n < 192 then BadLabel
        else if n >= 192 then
          if p + 1 >= |buf| || Target(buf, p) >= |buf| then Outside else NameAt(buf, Target(buf, p), steps - 1)
        else if p + 1 + n >= |buf| then Outside
        else Prepended(buf[p + 1..p + 1 + n], NameAt(buf, p + 1 + n, steps - 1))
  {
  }

  /** A name whose labels are short enough is read back in as many steps as it has labels, and one more. */
  lemma {:induction false} EncodedReads(buf: Message, p: nat, labels: seq<string>, steps: nat)
    requires forall i :: 0 <= i < |labels| ==> 1 <= |labels[i]| <= 63
    requires At(buf, p, Encoded(labels) + [0 as char]) && p + |Encoded(labels)| + 1 < |buf|
    ensures NameAt(buf, p, steps) == if steps > |labels| then Labels(labels) else TooManySteps
    decreases |labels|
  {
    hide NameAt, At;
    FirstLabel(buf, p, labels);
    NameStep(buf, p, steps);
    if steps > 0 && labels != [] {
      EncodedReads(buf, p + 1 + |labels[0]|, labels[1..], steps - 1);
      assert [labels[0]] + labels[1..] == labels;
    }
  }

  // Labels in front of what is read after them.
  function Behind(seen: seq<string>, d: Decoded): Decoded {
    if d.Labels? then Labels(seen + d.labels) else d
  }

  /** The two bytes of a compression pointer to offset `t`: two bits 1, and fourteen bits of the offset, the high
      ones first. */
  function Pointer(t: nat): string
    requires t < 16384
  {
    [(192 + t / 256) as char, (t % 256) as char]
  }

  /** Labels that end in a pointer to `t` are read as these labels followed by the name at `t`, in as many steps
      as there are labels, and one more. */
  lemma {:induction false} PointerReads(buf: Message, p: nat, labels: seq<string>, t: nat, steps: nat)
    requires forall i :: 0 <= i < |labels| ==> 1 <= |labels[i]| <= 63
    requires t < 16384 && t < |buf| && At(buf, p, Encoded(labels) + Pointer(t))
    ensures p < |buf|
    ensures NameAt(buf, p, steps)
      == if steps > |labels| then Behind(labels, NameAt(buf, t, steps - |labels| - 1)) else TooManySteps
    decreases |labels|
  {
    hide NameAt, At, Pointer;
    PointerIs(buf, p, labels, t);
    if steps > 0 {
      NameStep(buf, p, steps);
    } else {
      NameStep(buf, p, 0);
    }
    if labels == [] {
      if steps > 0 {
        assert Behind([], NameAt(buf, t, steps - 1)) == NameAt(buf, t, steps - 1) by {
          NoneBehind(NameAt(buf, t, steps - 1));
        }
      }
    } else if steps > 0 {
      PointerReads(buf, p + 1 + |labels[0]|, labels[1..], t, steps - 1);
      if steps > |labels| {
        OneBehind(labels, NameAt(buf, t, steps - |labels| - 1));
      }
    }
  }

  lemma NoneBehind(d: Decoded)
    ensures Behind([], d) == d
  {
    assert d.Labels? ==> [] + d.labels == d.labels;
  }

  lemma OneBehind(labels: seq<string>, d: Decoded)
    requires labels != []
    ensures Prepended(labels[0], Behind(labels[1..], d)) == Behind(labels, d)
  {
    assert [labels[0]] + labels[1..] == labels;
    assert d.Labels? ==> [labels[0]] + (labels[1..] + d.labels) == labels + d.labels;
  }

  // The first label, or the pointer.
  lemma PointerIs(buf: Message, p: nat, labels: seq<string>, t: nat)
    requires forall i :: 0 <= i < |labels| ==> 1 <= |labels[i]| <= 63
    requires t < 16384 && At(buf, p, Encoded(labels) + Pointer(t))
    ensures p < |buf|
    ensures labels == [] ==> buf[p] as int >= 192 && p + 1 < |buf| && Target(buf, p) == t
    ensures labels != [] ==> var l := labels[0];
      && buf[p] as int == |l| && p + 1 + |l| < |buf| && buf[p + 1..p + 1 + |l|] == l
      && At(buf, p + 1 + |l|, Encoded(labels[1..]) + Pointer(t))
  {
    if labels == [] {
      assert Encoded(labels) + Pointer(t) == [(192 + t / 256) as char] + ([(t % 256) as char] + "");
      AtChar(buf, p, (192 + t / 256) as char, [(t % 256) as char] + "");
      AtChar(buf, p + 1, (t % 256) as char, "");
    } else {
      var l, rest := labels[0], Encoded(labels[1..]) + Pointer(t);
      assert Encoded(labels) + Pointer(t) == [|l| as char] + (l + rest);
      AtChar(buf, p, |l| as char, l + rest);
      AtParts(buf, p + 1, l, rest);
    }
  }

  /** A pointer to itself leads nowhere, however many steps are allowed. */
  lemma {:induction false} LoopIsRejected(buf: Message, p: nat, steps: nat)
    requires p < 16384 && At(buf, p, Pointer(p))
    ensures p < |buf| && NameAt(buf, p, steps) == TooManySteps
  {
    assert "" + Pointer(p) == Pointer(p);
    PointerIs(buf, p, [], p);
    if steps > 0 {
      LoopIsRejected(buf, p, steps - 1);
    }
  }

  /** The first label of an encoded name, and the others. */
  lemma FirstLabel(buf: Message, p: nat, labels: seq<string>)
    requires forall i :: 0 <= i < |labels| ==> 1 <= |labels[i]| <= 63
    requires At(buf, p, Encoded(labels) + [0 as char])
    ensures p < |buf| && buf[p] as int == if labels == [] then 0 else |labels[0]|
    ensures labels != [] ==> var l := labels[0];
      && |Encoded(labels)| == 1 + |l| + |Encoded(labels[1..])| && p + 1 + |l| < |buf| && buf[p + 1..p + 1 + |l|] == l
      && At(buf, p + 1 + |l|, Encoded(labels[1..]) + [0 as char])
  {
    if labels == [] {
      assert Encoded(labels) + [0 as char] == [0 as char] + "";
      AtChar(buf, p, 0 as char, "");
    } else {
      var l, rest := labels[0], Encoded(labels[1..]) + [0 as char];
      assert Encoded(labels) + [0 as char] == [|l| as char] + (l + rest);
      AtChar(buf, p, |l| as char, l + rest);
      AtParts(buf, p + 1, l, rest);
    }
  }

  // ----- long labels -----

  predicate DotWithin(s: string, i: nat)
    requires i + 64 <= |s|
  {
    '.' in s[i..i + 64]
  }

  ghost predicate NoLongRun(s: string) {
    forall i: nat :: i + 64 <= |s| ==> DotWithin(s, i)
  }

  /** Decoded names have a dot at least every 64 characters. */
  lemma {:induction false} DecodedIsDotted(labels: seq<string>)
    requires labels != [] && AllBrief(labels)
    ensures NoLongRun(Join('.', labels))
  {
    var n := |labels| - 1;
    if n > 0 {
      DecodedIsDotted(labels[..n]);
      hide Join;
      JoinMore('.', labels[..n], labels[n]);
      assert labels == labels[..n] + [labels[n]];
      var a, s := Join('.', labels[..n]), Join('.', labels);
      forall i: nat | i + 64 <= |s|
        ensures DotWithin(s, i)
      {
        if i + 64 <= |a| {
          assert DotWithin(a, i) && s[i..i + 64] == a[i..i + 64];
        } else {
          assert i <= |a| && s[i..i + 64][|a| - i] == '.';
        }
      }
    }
  }

  /** A text with a dot at least every 64 characters has no long piece. */
  lemma {:induction false} PiecesAreShort(t: string)
    requires NoLongRun(t)
    ensures AllBrief(Split('.', t))
  {
    hide Split;
    if t == "" {
      SplitNil('.');
    } else {
      var n := |t| - 1;
      var a := t[..n];
      forall i: nat | i + 64 <= |a|
        ensures DotWithin(a, i)
      {
        assert DotWithin(t, i) && a[i..i + 64] == t[i..i + 64];
      }
      PiecesAreShort(a);
      SplitStep('.', a, t[n]);
      assert t == a + [t[n]];
      if t[n] != '.' {
        LastIsShort(a, t);
      }
    }
  }

  lemma LastIsShort(a: string, t: string)
    requires NoLongRun(t) && |t| > 0 && a == t[..|t| - 1] && t[|t| - 1] != '.'
    requires var ps := Split('.', a); |ps[|ps| - 1]| <= 63
    ensures var ps := Split('.', a); |ps[|ps| - 1]| <= 62
  {
    hide Split;
    LastPiece(a);
    PiecesAreFree('.', a);
    var ps, n := Split('.', a), |t| - 1;
    var p := ps[|ps| - 1];
    assert Free('.', p);
    if |p| == 63 {
      assert t[n - 63..n - 63 + 64] == p + [t[n]];
      assert DotWithin(t, n - 63);
      NoDot(p, t[n]);
    }
  }

  lemma NoDot(p: string, c: char)
    requires Free('.', p) && c != '.'
    ensures '.' !in p + [c]
  {
  }

  lemma TailOfMore(t: string, c: char, k: nat)
    requires k <= |t|
    ensures (t + [c])[k..] == t[k..] + [c]
  {
  }

  /** The last piece ends the text. */
  lemma {:induction false} LastPiece(t: string)
    ensures var ps := Split('.', t); var p := ps[|ps| - 1]; |p| <= |t| && t[|t| - |p|..] == p
  {
    if t != "" {
      var n := |t| - 1;
      LastPiece(t[..n]);
      var ps := Split('.', t[..n]);
      assert t == t[..n] + [t[n]];
      TailOfMore(t[..n], t[n], n - |ps[|ps| - 1]|);
      SplitStep('.', t[..n], t[n]);
      hide Split;
    }
  }

  lemma LoweredDots(s: string)
    ensures NoLongRun(Lowered(s)) <==> NoLongRun(s)
  {
    var l := Lowered(s);
    forall i: nat | i + 64 <= |s|
      ensures DotWithin(l, i) <==> DotWithin(s, i)
    {
      var a, b := l[i..i + 64], s[i..i + 64];
      assert forall j :: 0 <= j < 64 ==> a[j] == l[i + j] && b[j] == s[i + j];
      if DotWithin(l, i) {
        var j :| 0 <= j < 64 && a[j] == '.';
        assert b[j] == '.';
      }
      if DotWithin(s, i) {
        var j :| 0 <= j < 64 && b[j] == '.';
        assert a[j] == '.';
      }
    }
    if NoLongRun(l) {
      assert forall i: nat :: i + 64 <= |s| ==> DotWithin(l, i);
    }
  }

  /** No label is longer than 63. */
  ghost predicate AllBrief(labels: seq<string>) {
    forall i :: 0 <= i < |labels| ==> |labels[i]| <= 63
  }

  /** Labels in messages are short. */
  lemma {:induction false} LabelsAreBrief(buf: Message, p: nat, steps: nat)
    requires p < |buf|
    ensures NameAt(buf, p, steps).Labels? ==> AllBrief(NameAt(buf, p, steps).labels)
    decreases steps
  {
    if steps > 0 {
      var n := buf[p] as int;
      if n >= 192 && p + 1 < |buf| && Target(buf, p) < |buf| {
        LabelsAreBrief(buf, Target(buf, p), steps - 1);
      } else if 0 < n < 64 && p + 1 + n < |buf| {
        LabelsAreBrief(buf, p + 1 + n, steps - 1);
      }
    }
  }
}
