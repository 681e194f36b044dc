/** The shape of a red-black tree as a value, and what it means for linked nodes to have that shape.

    A tree is looked at through a focus: the subtree `t` the code is working on and the context `c`
    around it. Links are read from the pool of node records. */
module RBShape {

  /** A node is named by its place in the pool of node records. */
  type Node = nat

  const NULL: int := -1

  datatype Cell = Cell(key: nat, left: int, right: int, parent: int, red: bool)

  type Mem = seq<Cell>

  datatype Tree = Leaf | Bin(l: Tree, x: Node, red: bool, r: Tree)

  /** What surrounds the focus: it is the left child of `x`, or the right child, or the whole tree. */
  datatype Ctx = Top | InL(up: Ctx, x: Node, red: bool, r: Tree) | InR(l: Tree, x: Node, red: bool, up: Ctx)

  function Plug(c: Ctx, t: Tree): Tree {
    match c
    case Top => t
    case InL(up, x, red, r) => Plug(up, Bin(t, x, red, r))
    case InR(l, x, red, up) => Plug(up, Bin(l, x, red, t))
  }

  function Inorder(t: Tree): seq<Node> {
    match t
    case Leaf => []
    case Bin(l, x, _, r) => Inorder(l) + [x] + Inorder(r)
  }

  function Before(c: Ctx): seq<Node> {
    match c
    case Top => []
    case InL(up, _, _, _) => Before(up)
    case InR(l, x, _, up) => Before(up) + Inorder(l) + [x]
  }

  function After(c: Ctx): seq<Node> {
    match c
    case Top => []
    case InL(up, x, _, r) => [x] + Inorder(r) + After(up)
    case InR(_, _, _, up) => After(up)
  }

  function Elems(t: Tree): set<Node> {
    match t
    case Leaf => {}
    case Bin(l, x, _, r) => Elems(l) + {x} + Elems(r)
  }

  function ElemsC(c: Ctx): set<Node> {
    match c
    case Top => {}
    case InL(up, x, _, r) => ElemsC(up) + {x} + Elems(r)
    case InR(l, x, _, up) => Elems(l) + {x} + ElemsC(up)
  }

  function Depth(c: Ctx): nat {
    match c
    case Top => 0
    case InL(up, _, _, _) => Depth(up) + 1
    case InR(_, _, _, up) => Depth(up) + 1
  }

  lemma Shift(a: seq<Node>, l: seq<Node>, x: Node, r: seq<Node>, b: seq<Node>)
    ensures a + (l + [x] + r) + b == a + l + ([x] + r + b)
    ensures a + (l + [x] + r) + b == (a + l + [x]) + r + b
  {
  }

  lemma {:induction false} InorderPlug(c: Ctx, t: Tree)
    ensures Inorder(Plug(c, t)) == Before(c) + Inorder(t) + After(c)
  {
    match c
    case Top =>
    case InL(up, x, red, r) =>
      InorderPlug(up, Bin(t, x, red, r));
      Shift(Before(up), Inorder(t), x, Inorder(r), After(up));
    case InR(l, x, red, up) =>
      InorderPlug(up, Bin(l, x, red, t));
      Shift(Before(up), Inorder(l), x, Inorder(t), After(up));
  }

  lemma PlugInorder(c: Ctx, t: Tree, u: Tree)
    requires Inorder(t) == Inorder(u)
    ensures Inorder(Plug(c, t)) == Inorder(Plug(c, u))
  {
    InorderPlug(c, t);
    InorderPlug(c, u);
  }

  /** The item at place `i`, or none behind the end. */
  function ItemAt(s: seq<Node>, i: nat): int {
    if i < |s| then s[i] else NULL
  }

  // Going down the left links leads to the first node of a subtree.
  lemma FirstInOrder(c: Ctx, t: Tree, e: Ctx, u: Tree)
    requires Plug(e, u) == Plug(c, t) && Before(e) == Before(c) && t.Bin? && u.Bin? && u.l.Leaf?
    ensures ItemAt(Inorder(t), 0) == u.x
  {
    hide Plug, Before, After;
    InorderPlug(c, t);
    InorderPlug(e, u);
    SameFirst(Before(c), Inorder(t), After(c), Inorder(u), After(e));
  }

  lemma SameFirst(a: seq<Node>, s: seq<Node>, b: seq<Node>, r: seq<Node>, d: seq<Node>)
    requires a + s + b == a + r + d && s != [] && r != []
    ensures s[0] == r[0]
  {
    assert (a + s + b)[|a|] == s[0] && (a + r + d)[|a|] == r[0];
  }

  lemma {:induction false} ElemsPlug(c: Ctx, t: Tree)
    ensures Elems(Plug(c, t)) == ElemsC(c) + Elems(t)
  {
    match c
    case Top =>
    case InL(up, x, red, r) => ElemsPlug(up, Bin(t, x, red, r));
    case InR(l, x, red, up) => ElemsPlug(up, Bin(l, x, red, t));
  }

  lemma {:induction false} ElemsInorder(t: Tree)
    ensures forall x :: x in Elems(t) <==> x in Inorder(t)
  {
    if t.Bin? {
      ElemsInorder(t.l);
      ElemsInorder(t.r);
    }
  }

  // ----- links -----

  function RootOf(s: Node, t: Tree): Node {
    if t.Leaf? then s else t.x
  }

  ghost predicate Within(m: Mem, s: set<Node>) {
    forall x :: x in s ==> x < |m|
  }

  // Downward links, colours, and parent links of all nodes below the root of the subtree.
  ghost predicate Rep(m: Mem, s: Node, t: Tree) {
    match t
    case Leaf => true
    case Bin(l, x, red, r) =>
      && x < |m| && m[x].left == RootOf(s, l) && m[x].right == RootOf(s, r) && m[x].red == red
      && (l.Bin? ==> l.x < |m| && m[l.x].parent == x)
      && (r.Bin? ==> r.x < |m| && m[r.x].parent == x)
      && x != s && x !in Elems(l) && x !in Elems(r) && Elems(l) !! Elems(r)
      && Rep(m, s, l) && Rep(m, s, r)
  }

  // The links around a focus whose root is `top`; the parent link of the tree's own root is free.
  ghost predicate RepC(m: Mem, s: Node, root: Node, c: Ctx, top: Node) {
    match c
    case Top => root == top
    case InL(up, x, red, r) =>
      && x < |m| && m[x].left == top && m[x].right == RootOf(s, r) && m[x].red == red
      && (top != s ==> top < |m| && m[top].parent == x)
      && (r.Bin? ==> r.x < |m| && m[r.x].parent == x)
      && x != s && x !in Elems(r) && x !in ElemsC(up) && Elems(r) !! ElemsC(up)
      && Rep(m, s, r) && RepC(m, s, root, up, x)
    case InR(l, x, red, up) =>
      && x < |m| && m[x].right == top && m[x].left == RootOf(s, l) && m[x].red == red
      && (top != s ==> top < |m| && m[top].parent == x)
      && (l.Bin? ==> l.x < |m| && m[l.x].parent == x)
      && x != s && x !in Elems(l) && x !in ElemsC(up) && Elems(l) !! ElemsC(up)
      && Rep(m, s, l) && RepC(m, s, root, up, x)
  }

  /** The nodes linked from `root` have the shape Plug(c, t). */
  ghost predicate Linked(m: Mem, s: Node, root: Node, c: Ctx, t: Tree) {
    && s < |m| && !m[s].red
    && s !in Elems(t) && s !in ElemsC(c) && Elems(t) !! ElemsC(c)
    && Rep(m, s, t) && RepC(m, s, root, c, RootOf(s, t))
  }

  lemma {:induction false} RepWithin(m: Mem, s: Node, t: Tree)
    requires Rep(m, s, t)
    ensures Within(m, Elems(t)) && s !in Elems(t)
  {
    if t.Bin? {
      RepWithin(m, s, t.l);
      RepWithin(m, s, t.r);
    }
  }

  lemma {:induction false} RepCWithin(m: Mem, s: Node, root: Node, c: Ctx, top: Node)
    requires RepC(m, s, root, c, top)
    ensures Within(m, ElemsC(c)) && s !in ElemsC(c)
  {
    match c
    case Top =>
    case InL(up, x, _, r) =>
      RepWithin(m, s, r);
      RepCWithin(m, s, root, up, x);
    case InR(l, x, _, up) =>
      RepWithin(m, s, l);
      RepCWithin(m, s, root, up, x);
  }

  // Apart from the parent of its root, nothing in the subtree changed.
  ghost predicate SameIn(m: Mem, w: Mem, t: Tree) {
    && (forall y :: y in Elems(t) ==> y < |m| && y < |w|)
    && (forall y :: y in Elems(t) && y != t.x ==> w[y] == m[y])
    && (t.Bin? ==> w[t.x] == m[t.x].(parent := w[t.x].parent))
  }

  lemma {:induction false} RepFrame(m: Mem, w: Mem, s: Node, t: Tree)
    requires Rep(m, s, t) && SameIn(m, w, t)
    ensures Rep(w, s, t)
  {
    if t.Bin? {
      assert t.x in Elems(t);
      RepFrame(m, w, s, t.l);
      RepFrame(m, w, s, t.r);
    }
  }

  lemma {:induction false} RepCFrame(m: Mem, w: Mem, s: Node, root: Node, c: Ctx, top: Node)
    requires RepC(m, s, root, c, top)
    requires forall y :: y in ElemsC(c) ==> y < |m| && y < |w| && w[y] == m[y]
    requires top < |m| && top != s ==> top < |w| && w[top].parent == m[top].parent
    ensures RepC(w, s, root, c, top)
  {
    match c
    case Top =>
    case InL(up, x, _, r) =>
      assert x in ElemsC(c);
      RepFrame(m, w, s, r);
      RepCFrame(m, w, s, root, up, x);
    case InR(l, x, _, up) =>
      assert x in ElemsC(c);
      RepFrame(m, w, s, l);
      RepCFrame(m, w, s, root, up, x);
  }

  /** A new subtree root takes the place of the old one: only the link above it changes. */
  lemma Relink(m: Mem, w: Mem, s: Node, root: Node, newRoot: Node, c: Ctx, top: Node, newTop: Node)
    requires RepC(m, s, root, c, top) && newTop < |w|
    requires c.Top? ==> newRoot == newTop
    requires !c.Top? ==> newRoot == root && c.x < |w| && (newTop != s ==> w[newTop].parent == c.x)
    requires c.InL? ==> c.x < |m| && w[c.x] == m[c.x].(left := newTop)
    requires c.InR? ==> c.x < |m| && w[c.x] == m[c.x].(right := newTop)
    requires forall y :: y in ElemsC(c) && y != c.x ==> y < |m| && y < |w| && w[y] == m[y]
    ensures RepC(w, s, newRoot, c, newTop)
  {
    match c
    case Top =>
    case InL(up, x, _, r) =>
      RepFrame(m, w, s, r);
      RepCFrame(m, w, s, root, up, x);
    case InR(l, x, _, up) =>
      RepFrame(m, w, s, l);
      RepCFrame(m, w, s, root, up, x);
  }

  // ----- moving the focus -----

  lemma FocusUp(m: Mem, s: Node, root: Node, c: Ctx, t: Tree)
    requires Linked(m, s, root, c, t) && !c.Top?
    ensures c.InL? ==> Linked(m, s, root, c.up, Bin(t, c.x, c.red, c.r))
    ensures c.InR? ==> Linked(m, s, root, c.up, Bin(c.l, c.x, c.red, t))
  {
  }

  lemma FocusLeft(m: Mem, s: Node, root: Node, c: Ctx, t: Tree)
    requires Linked(m, s, root, c, t) && t.Bin?
    ensures Linked(m, s, root, InL(c, t.x, t.red, t.r), t.l)
  {
  }

  lemma FocusRight(m: Mem, s: Node, root: Node, c: Ctx, t: Tree)
    requires Linked(m, s, root, c, t) && t.Bin?
    ensures Linked(m, s, root, InR(t.l, t.x, t.red, c), t.r)
  {
  }

  lemma {:induction false} FocusTop(m: Mem, s: Node, root: Node, c: Ctx, t: Tree)
    requires Linked(m, s, root, c, t)
    ensures Linked(m, s, root, Top, Plug(c, t))
    decreases Depth(c)
  {
    match c
    case Top =>
    case InL(up, x, red, r) =>
      FocusUp(m, s, root, c, t);
      FocusTop(m, s, root, up, Bin(t, x, red, r));
    case InR(l, x, red, up) =>
      FocusUp(m, s, root, c, t);
      FocusTop(m, s, root, up, Bin(l, x, red, t));
  }

  /** Bring a node of the tree into focus. */
  lemma {:induction false} FocusOn(m: Mem, s: Node, root: Node, c: Ctx, t: Tree, z: Node) returns (d: Ctx, u: Tree)
    requires Linked(m, s, root, c, t) && z in Elems(t)
    ensures Linked(m, s, root, d, u) && u.Bin? && u.x == z && Plug(d, u) == Plug(c, t)
    decreases t
  {
    if t.x == z {
      d, u := c, t;
    } else if z in Elems(t.l) {
      FocusLeft(m, s, root, c, t);
      d, u := FocusOn(m, s, root, InL(c, t.x, t.red, t.r), t.l, z);
    } else {
      FocusRight(m, s, root, c, t);
      d, u := FocusOn(m, s, root, InR(t.l, t.x, t.red, c), t.r, z);
    }
  }

  // ----- colouring -----

  function Paint(t: Tree, x: Node, red: bool): Tree {
    match t
    case Leaf => Leaf
    case Bin(l, y, c, r) => Bin(Paint(l, x, red), y, if y == x then red else c, Paint(r, x, red))
  }

  lemma {:induction false} PaintSame(t: Tree, x: Node, red: bool)
    ensures Inorder(Paint(t, x, red)) == Inorder(t) && Elems(Paint(t, x, red)) == Elems(t)
    ensures Paint(t, x, red).Bin? == t.Bin? && (t.Bin? ==> Paint(t, x, red).x == t.x)
    ensures x !in Elems(t) ==> Paint(t, x, red) == t
  {
    if t.Bin? {
      PaintSame(t.l, x, red);
      PaintSame(t.r, x, red);
    }
  }

  lemma {:induction false} PaintRep(m: Mem, s: Node, t: Tree, x: Node, red: bool)
    requires Rep(m, s, t) && x < |m|
    ensures Rep(m[x := m[x].(red := red)], s, Paint(t, x, red))
  {
    if t.Bin? {
      PaintSame(t.l, x, red);
      PaintSame(t.r, x, red);
      PaintRep(m, s, t.l, x, red);
      PaintRep(m, s, t.r, x, red);
    }
  }

  /** Colouring a node of the focused subtree. */
  lemma PaintLinked(m: Mem, s: Node, root: Node, c: Ctx, t: Tree, x: Node, red: bool)
    requires Linked(m, s, root, c, t) && x in Elems(t)
    ensures x < |m| && Linked(m[x := m[x].(red := red)], s, root, c, Paint(t, x, red))
  {
    RepWithin(m, s, t);
    RepCWithin(m, s, root, c, RootOf(s, t));
    PaintSame(t, x, red);
    PaintRep(m, s, t, x, red);
    RepCFrame(m, m[x := m[x].(red := red)], s, root, c, RootOf(s, t));
  }

  // ----- rotations -----

  function RotatedLeft(t: Tree): Tree
    requires t.Bin? && t.r.Bin?
  {
    Bin(Bin(t.l, t.x, t.red, t.r.l), t.r.x, t.r.red, t.r.r)
  }

  function RotatedRight(t: Tree): Tree
    requires t.Bin? && t.l.Bin?
  {
    Bin(t.l.l, t.l.x, t.l.red, Bin(t.l.r, t.x, t.red, t.r))
  }

  lemma RotateInorder(t: Tree)
    requires t.Bin? && t.r.Bin?
    ensures RotatedRight(RotatedLeft(t)) == t && Inorder(RotatedLeft(t)) == Inorder(t)
    ensures Elems(RotatedLeft(t)) == Elems(t)
  {
    var a, b, d := Inorder(t.l), Inorder(t.r.l), Inorder(t.r.r);
    assert Inorder(t) == a + [t.x] + (b + [t.r.x] + d);
    assert Inorder(RotatedLeft(t)) == (a + [t.x] + b) + [t.r.x] + d;
    assert a + [t.x] + (b + [t.r.x] + d) == (a + [t.x] + b) + [t.r.x] + d;
  }

  // The link above the focus now leads to `y`.
  ghost predicate LinkAbove(m: Mem, w: Mem, c: Ctx, root: Node, newRoot: Node, y: Node) {
    match c
    case Top => newRoot == y
    case InL(_, p, _, _) => newRoot == root && p < |m| && p < |w| && w[p] == m[p].(left := y)
    case InR(_, p, _, _) => newRoot == root && p < |m| && p < |w| && w[p] == m[p].(right := y)
  }

  // The six links a rotation of `x` and `y`, with `b` between them, writes.
  ghost predicate Rewritten(m: Mem, w: Mem, s: Node, c: Ctx, root: Node, newRoot: Node,
                            x: Node, y: Node, b: Node, left: bool) {
    && |m| == |w| && x < |m| && y < |m| && b < |m|
    && w[x] == (if left then m[x].(right := b, parent := y) else m[x].(left := b, parent := y))
    && w[y] == (if left then m[y].(left := x, parent := m[x].parent) else m[y].(right := x, parent := m[x].parent))
    && (b != s ==> w[b] == m[b].(parent := x))
    && LinkAbove(m, w, c, root, newRoot, y)
    && forall z: nat :: z < |m| && z != x && z != y && (z != b || b == s) && (c.Top? || z != c.x) ==> w[z] == m[z]
  }

  lemma LeftRotation(m: Mem, w: Mem, s: Node, root: Node, newRoot: Node, c: Ctx, t: Tree)
    requires Linked(m, s, root, c, t) && t.Bin? && t.r.Bin?
    requires Rewritten(m, w, s, c, root, newRoot, t.x, t.r.x, RootOf(s, t.r.l), true)
    ensures Linked(w, s, newRoot, c, RotatedLeft(t))
  {
    RepWithin(m, s, t);
    RepCWithin(m, s, root, c, t.x);
    RotateInorder(t);
    RotateLeftRep(m, w, s, root, newRoot, c, t);
    RotateAbove(m, w, s, root, newRoot, c, t, t.r.x, RootOf(s, t.r.l), true);
  }

  lemma RotateLeftRep(m: Mem, w: Mem, s: Node, root: Node, newRoot: Node, c: Ctx, t: Tree)
    requires Rep(m, s, t) && t.Bin? && t.r.Bin? && Elems(t) !! ElemsC(c) && s !in Elems(t)
    requires Rewritten(m, w, s, c, root, newRoot, t.x, t.r.x, RootOf(s, t.r.l), true)
    ensures Rep(w, s, RotatedLeft(t))
  {
    assert Rep(m, s, t.r) && Elems(t.r) == Elems(t.r.l) + {t.r.x} + Elems(t.r.r);
    assert c.Top? || c.x in ElemsC(c);
    Untouched(m, w, s, t.l, c, root, newRoot, t.x, t.r.x, RootOf(s, t.r.l), true);
    Untouched(m, w, s, t.r.l, c, root, newRoot, t.x, t.r.x, RootOf(s, t.r.l), true);
    Untouched(m, w, s, t.r.r, c, root, newRoot, t.x, t.r.x, RootOf(s, t.r.l), true);
  }

  lemma RightRotation(m: Mem, w: Mem, s: Node, root: Node, newRoot: Node, c: Ctx, t: Tree)
    requires Linked(m, s, root, c, t) && t.Bin? && t.l.Bin?
    requires Rewritten(m, w, s, c, root, newRoot, t.x, t.l.x, RootOf(s, t.l.r), false)
    ensures Linked(w, s, newRoot, c, RotatedRight(t))
  {
    RepWithin(m, s, t);
    RepCWithin(m, s, root, c, t.x);
    RotateInorder(RotatedRight(t));
    RotateRightRep(m, w, s, root, newRoot, c, t);
    RotateAbove(m, w, s, root, newRoot, c, t, t.l.x, RootOf(s, t.l.r), false);
  }

  lemma RotateRightRep(m: Mem, w: Mem, s: Node, root: Node, newRoot: Node, c: Ctx, t: Tree)
    requires Rep(m, s, t) && t.Bin? && t.l.Bin? && Elems(t) !! ElemsC(c) && s !in Elems(t)
    requires Rewritten(m, w, s, c, root, newRoot, t.x, t.l.x, RootOf(s, t.l.r), false)
    ensures Rep(w, s, RotatedRight(t))
  {
    assert Rep(m, s, t.l) && Elems(t.l) == Elems(t.l.l) + {t.l.x} + Elems(t.l.r);
    assert c.Top? || c.x in ElemsC(c);
    Untouched(m, w, s, t.r, c, root, newRoot, t.x, t.l.x, RootOf(s, t.l.r), false);
    Untouched(m, w, s, t.l.l, c, root, newRoot, t.x, t.l.x, RootOf(s, t.l.r), false);
    Untouched(m, w, s, t.l.r, c, root, newRoot, t.x, t.l.x, RootOf(s, t.l.r), false);
  }

  /** A subtree that holds neither rotated node keeps its links. */
  lemma Untouched(m: Mem, w: Mem, s: Node, u: Tree, c: Ctx, root: Node, newRoot: Node,
                  x: Node, y: Node, b: Node, left: bool)
    requires Rep(m, s, u) && Rewritten(m, w, s, c, root, newRoot, x, y, b, left)
    requires x !in Elems(u) && y !in Elems(u) && (b in Elems(u) ==> u.x == b) && (c.Top? || c.x !in Elems(u))
    ensures Rep(w, s, u)
  {
    RepWithin(m, s, u);
    RepFrame(m, w, s, u);
  }

  lemma RotateAbove(m: Mem, w: Mem, s: Node, root: Node, newRoot: Node, c: Ctx, t: Tree, y: Node, b: Node, left: bool)
    requires t.Bin? && RepC(m, s, root, c, t.x) && y in Elems(t) && (b == s || b in Elems(t)) && t.x != s && y != s
    requires s !in ElemsC(c) && Elems(t) !! ElemsC(c) && Within(m, ElemsC(c))
    requires Rewritten(m, w, s, c, root, newRoot, t.x, y, b, left)
    ensures RepC(w, s, newRoot, c, y)
  {
    assert c.Top? || c.x in ElemsC(c);
    Relink(m, w, s, root, newRoot, c, t.x, y);
  }
}
