/** What the links around a focus tell the code that follows them. */
module RBFacts {
  import opened RBShape

  /** From the root of the focused subtree the code can tell where it hangs. */
  lemma Around(m: Mem, s: Node, root: Node, c: Ctx, t: Tree)
    requires Linked(m, s, root, c, t) && t.Bin?
    ensures t.x < |m| && t.x != s && m[t.x].red == t.red && (c.Top? <==> root == t.x)
    ensures !c.Top? ==> c.x < |m| && c.x != s && c.x != t.x && m[t.x].parent == c.x && m[c.x].red == c.red
    ensures !c.Top? ==> (c.InL? <==> m[c.x].left == t.x) && (c.InR? <==> m[c.x].right == t.x)
    ensures Within(m, ElemsC(c) + Elems(t))
  {
    RepWithin(m, s, t);
    RepCWithin(m, s, root, c, t.x);
    RootAbove(m, s, root, c, t.x);
    if c.InR? && c.l.Bin? {
      assert c.l.x in Elems(c.l);
    }
    if c.InL? && c.r.Bin? {
      assert c.r.x in Elems(c.r);
    }
  }

  lemma {:induction false} RootAbove(m: Mem, s: Node, root: Node, c: Ctx, top: Node)
    requires RepC(m, s, root, c, top)
    ensures !c.Top? ==> root in ElemsC(c)
  {
    match c
    case Top =>
    case InL(up, x, _, _) => RootAbove(m, s, root, up, x);
    case InR(_, x, _, up) => RootAbove(m, s, root, up, x);
  }

  lemma Below(m: Mem, s: Node, t: Tree)
    requires Rep(m, s, t) && t.Bin? && s < |m| && s !in Elems(t)
    ensures t.x < |m| && m[t.x].left == RootOf(s, t.l) && m[t.x].right == RootOf(s, t.r)
    ensures RootOf(s, t.l) < |m| && RootOf(s, t.r) < |m|
    ensures (t.l.Bin? <==> RootOf(s, t.l) != s) && (t.r.Bin? <==> RootOf(s, t.r) != s)
    ensures Rep(m, s, t.l) && Rep(m, s, t.r) && s !in Elems(t.l) && s !in Elems(t.r)
    ensures t.l.Bin? ==> t.l.x != t.x
    ensures t.r.Bin? ==> t.r.x != t.x
  {
    if t.l.Bin? {
      assert t.l.x in Elems(t.l);
    }
    if t.r.Bin? {
      assert t.r.x in Elems(t.r);
    }
  }

  /** What the code reads at the root of the focused subtree. */
  lemma FocusDown(m: Mem, s: Node, root: Node, c: Ctx, t: Tree)
    requires Linked(m, s, root, c, t) && t.Bin?
    ensures s < |m| && t.x < |m| && t.x != s
    ensures 0 <= m[t.x].left < |m| && 0 <= m[t.x].right < |m|
    ensures if m[t.x].left == s then t.l.Leaf? else t.l.Bin? && t.l.x == m[t.x].left
    ensures if m[t.x].right == s then t.r.Leaf? else t.r.Bin? && t.r.x == m[t.x].right
    ensures Linked(m, s, root, InL(c, t.x, t.red, t.r), t.l) && Linked(m, s, root, InR(t.l, t.x, t.red, c), t.r)
  {
    Below(m, s, t);
    FocusLeft(m, s, root, c, t);
    FocusRight(m, s, root, c, t);
  }

  lemma AtRoot(m: Mem, s: Node, root: Node, t: Tree)
    requires Linked(m, s, root, Top, t)
    ensures root == RootOf(s, t) && s < |m| && root < |m| && (t.Bin? <==> root != s)
  {
    if t.Bin? {
      Below(m, s, t);
    }
  }

  // The nodes a rotation of `x` and its child `y` touches are different: `b` is the subtree between
  // them (or the sentinel), `p` the node above.
  ghost predicate Places(m: Mem, s: Node, root: Node, c: Ctx, x: Node, y: Node, b: Node) {
    && s < |m| && x < |m| && y < |m| && b < |m| && x != y && x != b && y != b && x != s && y != s
    && (c.Top? <==> root == x)
    && (!c.Top? ==>
          && c.x < |m| && c.x != s && c.x != x && c.x != y && c.x != b && m[x].parent == c.x
          && (c.InL? <==> m[c.x].left == x) && (c.InR? <==> m[c.x].right == x))
  }

  lemma LeftPlaces(m: Mem, s: Node, root: Node, c: Ctx, t: Tree)
    requires Linked(m, s, root, c, t) && t.Bin? && t.r.Bin?
    ensures Places(m, s, root, c, t.x, t.r.x, RootOf(s, t.r.l))
    ensures m[t.x].right == t.r.x && m[t.r.x].left == RootOf(s, t.r.l)
  {
    Around(m, s, root, c, t);
    Below(m, s, t);
    Below(m, s, t.r);
    assert c.Top? || c.x in ElemsC(c);
    assert t.r.x in Elems(t.r) && Elems(t.r.l) <= Elems(t.r);
    assert t.r.l.Bin? ==> t.r.l.x in Elems(t.r.l);
  }

  lemma RightPlaces(m: Mem, s: Node, root: Node, c: Ctx, t: Tree)
    requires Linked(m, s, root, c, t) && t.Bin? && t.l.Bin?
    ensures Places(m, s, root, c, t.x, t.l.x, RootOf(s, t.l.r))
    ensures m[t.x].left == t.l.x && m[t.l.x].right == RootOf(s, t.l.r)
  {
    Around(m, s, root, c, t);
    Below(m, s, t);
    Below(m, s, t.l);
    assert c.Top? || c.x in ElemsC(c);
    assert t.l.x in Elems(t.l) && Elems(t.l.r) <= Elems(t.l);
    assert t.l.r.Bin? ==> t.l.r.x in Elems(t.l.r);
  }

  /** Rebalancing moves links and colours, never keys. */
  ghost predicate OnlyLinks(m: Mem, w: Mem) {
    |w| == |m| && forall x :: 0 <= x < |m| ==> w[x].key == m[x].key
  }

  function Hung(m: Mem, c: Ctx, temp: Node): Mem
    requires !c.Top? ==> c.x < |m|
  {
    match c
    case Top => m
    case InL(_, p, _, _) => m[p := m[p].(left := temp)]
    case InR(_, p, _, _) => m[p := m[p].(right := temp)]
  }

  // The writes of a left rotation, in order.
  function LeftWrites(m: Mem, s: Node, c: Ctx, x: Node, y: Node): Mem
    requires x < |m| && y < |m| && 0 <= m[y].left < |m| && (!c.Top? ==> c.x < |m|)
  {
    var b := m[y].left;
    var m := m[x := m[x].(right := b)];
    var m := if b != s then m[b := m[b].(parent := x)] else m;
    var m := m[y := m[y].(parent := m[x].parent)];
    var m := Hung(m, c, y);
    var m := m[y := m[y].(left := x)];
    m[x := m[x].(parent := y)]
  }

  lemma LeftWritten(m: Mem, s: Node, root: Node, newRoot: Node, c: Ctx, t: Tree)
    requires t.Bin? && t.r.Bin? && Places(m, s, root, c, t.x, t.r.x, RootOf(s, t.r.l))
    requires m[t.x].right == t.r.x && m[t.r.x].left == RootOf(s, t.r.l)
    requires newRoot == (if c.Top? then t.r.x else root)
    ensures var w := LeftWrites(m, s, c, t.x, t.r.x);
      Rewritten(m, w, s, c, root, newRoot, t.x, t.r.x, RootOf(s, t.r.l), true) && OnlyLinks(m, w) && w[s] == m[s]
  {
    var x, y, b := t.x, t.r.x, RootOf(s, t.r.l);
    hide RootOf;
    var w := LeftWrites(m, s, c, x, y);
    assert forall z: nat :: z < |m| && z != x && z != y && (z != b || b == s) && (c.Top? || z != c.x) ==> w[z] == m[z];
  }

  function RightWrites(m: Mem, s: Node, c: Ctx, x: Node, y: Node): Mem
    requires x < |m| && y < |m| && 0 <= m[y].right < |m| && (!c.Top? ==> c.x < |m|)
  {
    var b := m[y].right;
    var m := m[x := m[x].(left := b)];
    var m := if b != s then m[b := m[b].(parent := x)] else m;
    var m := m[y := m[y].(parent := m[x].parent)];
    var m := Hung(m, c, y);
    var m := m[y := m[y].(right := x)];
    m[x := m[x].(parent := y)]
  }

  lemma RightWritten(m: Mem, s: Node, root: Node, newRoot: Node, c: Ctx, t: Tree)
    requires t.Bin? && t.l.Bin? && Places(m, s, root, c, t.x, t.l.x, RootOf(s, t.l.r))
    requires m[t.x].left == t.l.x && m[t.l.x].right == RootOf(s, t.l.r)
    requires newRoot == (if c.Top? then t.l.x else root)
    ensures var w := RightWrites(m, s, c, t.x, t.l.x);
      Rewritten(m, w, s, c, root, newRoot, t.x, t.l.x, RootOf(s, t.l.r), false) && OnlyLinks(m, w) && w[s] == m[s]
  {
    var x, y, b := t.x, t.l.x, RootOf(s, t.l.r);
    hide RootOf;
    var w := RightWrites(m, s, c, x, y);
    assert forall z: nat :: z < |m| && z != x && z != y && (z != b || b == s) && (c.Top? || z != c.x) ==> w[z] == m[z];
  }

  // ----- colours of near relatives -----

  lemma PaintTop(t: Tree, red: bool)
    requires t.Bin? && t.x !in Elems(t.l) && t.x !in Elems(t.r)
    ensures Paint(t, t.x, red) == t.(red := red)
  {
    PaintSame(t.l, t.x, red);
    PaintSame(t.r, t.x, red);
  }

  lemma PaintLeft(t: Tree, x: Node, red: bool)
    requires t.Bin? && x in Elems(t.l) && x != t.x && x !in Elems(t.r)
    ensures Paint(t, x, red) == t.(l := Paint(t.l, x, red))
  {
    PaintSame(t.r, x, red);
  }

  lemma PaintRight(t: Tree, x: Node, red: bool)
    requires t.Bin? && x in Elems(t.r) && x != t.x && x !in Elems(t.l)
    ensures Paint(t, x, red) == t.(r := Paint(t.r, x, red))
  {
    PaintSame(t.l, x, red);
  }

  /** In a linked subtree, painting the root, a child or a grandchild changes that colour alone. */
  lemma PaintNear(m: Mem, s: Node, t: Tree, red: bool)
    requires Rep(m, s, t) && t.Bin?
    ensures t.x in Elems(t) && Paint(t, t.x, red) == t.(red := red)
    ensures t.l.Bin? ==> t.l.x in Elems(t) && Paint(t, t.l.x, red) == t.(l := t.l.(red := red))
    ensures t.r.Bin? ==> t.r.x in Elems(t) && Paint(t, t.r.x, red) == t.(r := t.r.(red := red))
  {
    PaintTop(t, red);
    if t.l.Bin? {
      PaintLeft(t, t.l.x, red);
      PaintTop(t.l, red);
    }
    if t.r.Bin? {
      PaintRight(t, t.r.x, red);
      PaintTop(t.r, red);
    }
  }

  lemma PaintFar(m: Mem, s: Node, t: Tree, red: bool)
    requires Rep(m, s, t) && t.Bin?
    ensures t.l.Bin? && t.l.l.Bin? ==>
      t.l.l.x in Elems(t) && Paint(t, t.l.l.x, red) == t.(l := t.l.(l := t.l.l.(red := red)))
    ensures t.l.Bin? && t.l.r.Bin? ==>
      t.l.r.x in Elems(t) && Paint(t, t.l.r.x, red) == t.(l := t.l.(r := t.l.r.(red := red)))
    ensures t.r.Bin? && t.r.l.Bin? ==>
      t.r.l.x in Elems(t) && Paint(t, t.r.l.x, red) == t.(r := t.r.(l := t.r.l.(red := red)))
    ensures t.r.Bin? && t.r.r.Bin? ==>
      t.r.r.x in Elems(t) && Paint(t, t.r.r.x, red) == t.(r := t.r.(r := t.r.r.(red := red)))
  {
    if t.l.Bin? {
      PaintNear(m, s, t.l, red);
      if t.l.l.Bin? {
        PaintLeft(t, t.l.l.x, red);
      }
      if t.l.r.Bin? {
        PaintLeft(t, t.l.r.x, red);
      }
    }
    if t.r.Bin? {
      PaintNear(m, s, t.r, red);
      if t.r.l.Bin? {
        PaintRight(t, t.r.l.x, red);
      }
      if t.r.r.Bin? {
        PaintRight(t, t.r.r.x, red);
      }
    }
  }

  lemma Colours(m: Mem, s: Node, root: Node, c: Ctx, t: Tree, red: bool)
    requires Linked(m, s, root, c, t) && t.Bin?
    ensures t.x in Elems(t) && Paint(t, t.x, red) == t.(red := red)
    ensures t.l.Bin? ==> t.l.x in Elems(t) && Paint(t, t.l.x, red) == t.(l := t.l.(red := red))
    ensures t.r.Bin? ==> t.r.x in Elems(t) && Paint(t, t.r.x, red) == t.(r := t.r.(red := red))
  {
    PaintNear(m, s, t, red);
  }
}
