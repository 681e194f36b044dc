/** Deletion: taking a node out of the links, and repairing a subtree that is one black node short. */
module RBDelete {
  import opened RBShape
  import opened RBRules
  import opened RBOrder
  import opened RBFacts

  /** What the code reads around a focus that is one black node short: where it hangs, its sibling and
      the sibling's children. An empty focus is found through the parent link of the sentinel. */
  lemma Kin(m: Mem, s: Node, root: Node, c: Ctx, t: Tree, h: nat)
    requires Linked(m, s, root, c, t) && Short(c, t, h) && !c.Top? && (t.Leaf? ==> m[s].parent == c.x)
    ensures Sibling(c).Bin? && c.x < |m| && m[c.x].red == c.red && c.x != s
    ensures RootOf(s, t) < |m| && m[RootOf(s, t)].parent == c.x && (c.InL? <==> m[c.x].left == RootOf(s, t))
    ensures (if c.InL? then m[c.x].right else m[c.x].left) == Sibling(c).x < |m|
    ensures m[Sibling(c).x].red == IsRed(Sibling(c))
    ensures 0 <= m[Sibling(c).x].left == RootOf(s, Sibling(c).l) < |m|
    ensures 0 <= m[Sibling(c).x].right == RootOf(s, Sibling(c).r) < |m|
    ensures m[m[Sibling(c).x].left].red == IsRed(Sibling(c).l) && m[m[Sibling(c).x].right].red == IsRed(Sibling(c).r)
    ensures Linked(m, s, root, c.up, Parental(c, t))
  {
    SiblingExists(c, t, h);
    FocusUp(m, s, root, c, t);
    Below(m, s, Parental(c, t));
    Below(m, s, Sibling(c));
    ParentOfHole(m, s, root, c, t);
  }

  lemma ParentOfHole(m: Mem, s: Node, root: Node, c: Ctx, t: Tree)
    requires Linked(m, s, root, c, t) && !c.Top? && (t.Leaf? ==> m[s].parent == c.x) && Sibling(c).Bin?
    ensures RootOf(s, t) < |m| && m[RootOf(s, t)].parent == c.x < |m|
    ensures c.InL? <==> m[c.x].left == RootOf(s, t)
  {
    if t.Bin? {
      Around(m, s, root, c, t);
    }
  }

  lemma FarColours(m: Mem, s: Node, root: Node, c: Ctx, t: Tree, red: bool)
    requires Linked(m, s, root, c, t) && t.Bin?
    ensures t.l.Bin? && t.l.l.Bin? ==>
      t.l.l.x in Elems(t) && Paint(t, t.l.l.x, red) == t.(l := t.l.(l := t.l.l.(red := red)))
    ensures t.l.Bin? && t.l.r.Bin? ==>
      t.l.r.x in Elems(t) && Paint(t, t.l.r.x, red) == t.(l := t.l.(r := t.l.r.(red := red)))
    ensures t.r.Bin? && t.r.l.Bin? ==>
      t.r.l.x in Elems(t) && Paint(t, t.r.l.x, red) == t.(r := t.r.(l := t.r.l.(red := red)))
    ensures t.r.Bin? && t.r.r.Bin? ==>
      t.r.r.x in Elems(t) && Paint(t, t.r.r.x, red) == t.(r := t.r.(r := t.r.r.(red := red)))
  {
    PaintFar(m, s, t, red);
  }

  lemma RepairInorder(c: Ctx, t: Tree)
    requires !c.Top? && Sibling(c).Bin?
    ensures c.InL? && c.r.r.Bin? ==>
      Inorder(Plug(c.up, Bin(Bin(t, c.x, false, c.r.l), c.r.x, c.red, Blacken(c.r.r)))) == Inorder(Plug(c, t))
    ensures c.InR? && c.l.l.Bin? ==>
      Inorder(Plug(c.up, Bin(Blacken(c.l.l), c.l.x, c.red, Bin(c.l.r, c.x, false, t)))) == Inorder(Plug(c, t))
  {
    if c.InL? && c.r.r.Bin? {
      var p := Bin(t, c.x, false, Bin(c.r.l, c.r.x, c.red, Blacken(c.r.r)));
      assert Inorder(p.r) == Inorder(c.r);
      RotateInorder(p);
      PlugInorder(c.up, Parental(c, t), RotatedLeft(p));
    }
    if c.InR? && c.l.l.Bin? {
      var p := Bin(Bin(Blacken(c.l.l), c.l.x, c.red, c.l.r), c.x, false, t);
      assert Inorder(p.l) == Inorder(c.l);
      RotateInorder(RotatedRight(p));
      PlugInorder(c.up, Parental(c, t), RotatedRight(p));
    }
  }

  /** A repaired subtree under good surroundings: the whole tree is in order. */
  lemma Whole(m: Mem, s: Node, root: Node, c: Ctx, u: Tree, k: nat) returns (h: nat)
    requires Linked(m, s, root, c, u) && Good(u, k) && GoodC(c, k) && (IsRed(u) ==> UnderBlack(c))
    ensures Linked(m, s, root, Top, Plug(c, u)) && Short(Top, Plug(c, u), h)
    ensures root == RootOf(s, Plug(c, u)) && root < |m|
  {
    h := Assemble(c, u, k);
    FocusTop(m, s, root, c, u);
    AtRoot(m, s, root, Plug(c, u));
  }

  // Where the fixup stands: its node is the root, or the node above can be reached from it.
  lemma ShortHere(m: Mem, s: Node, root: Node, c: Ctx, t: Tree, h: nat)
    requires Linked(m, s, root, c, t) && Short(c, t, h) && (!c.Top? && t.Leaf? ==> m[s].parent == c.x)
    ensures RootOf(s, t) < |m| && (c.Top? <==> RootOf(s, t) == root) && m[RootOf(s, t)].red == IsRed(t)
    ensures !c.Top? ==> m[RootOf(s, t)].parent == c.x < |m| && (c.InL? <==> m[c.x].left == RootOf(s, t))
  {
    if !c.Top? {
      Kin(m, s, root, c, t, h);
    }
    if t.Bin? {
      Around(m, s, root, c, t);
    } else {
      RepCWithin(m, s, root, c, s);
      RootAbove(m, s, root, c, s);
    }
  }

  lemma SentinelIsBlack(m: Mem, s: Node, root: Node, c: Ctx, t: Tree)
    requires Linked(m, s, root, c, t)
    ensures s < |m| && !m[s].red && s !in Elems(t)
  {
  }

  // ----- the successor takes the place of a node -----

  // Up the left links: the place whose right subtree we are in.
  function Seat(c: Ctx): Ctx {
    if c.InL? then Seat(c.up) else c
  }

  /** The same surroundings with `y` on the seat. */
  function Reseat(c: Ctx, y: Node): Ctx {
    match c
    case Top => Top
    case InL(up, x, red, r) => InL(Reseat(up, y), x, red, r)
    case InR(l, x, red, up) => InR(l, y, red, up)
  }

  lemma {:induction false} ReseatOrder(c: Ctx, y: Node)
    requires Seat(c).InR?
    ensures Before(c) == Before(Seat(c).up) + Inorder(Seat(c).l) + [Seat(c).x]
    ensures Before(Reseat(c, y)) == Before(Seat(c).up) + Inorder(Seat(c).l) + [y]
    ensures After(Reseat(c, y)) == After(c)
  {
    if c.InL? {
      ReseatOrder(c.up, y);
    }
  }

  lemma {:induction false} ReseatGood(c: Ctx, y: Node, h: nat)
    requires GoodC(c, h)
    ensures GoodC(Reseat(c, y), h)
    ensures UnderBlack(Reseat(c, y)) == UnderBlack(c) && UnderRed(Reseat(c, y)) == UnderRed(c)
    decreases c
  {
    if c.InL? {
      ReseatGood(c.up, y, if c.red then h else h + 1);
    }
  }

  lemma {:induction false} SeatLinks(m: Mem, s: Node, root: Node, c: Ctx, top: Node)
    requires RepC(m, s, root, c, top) && Seat(c).InR?
    ensures ({Seat(c).x} + Elems(Seat(c).l) + ElemsC(Seat(c).up)) <= ElemsC(c) && Seat(c).x < |m|
    ensures m[Seat(c).x].left == RootOf(s, Seat(c).l) && RepC(m, s, root, Seat(c).up, Seat(c).x)
    ensures Seat(c).x !in ElemsC(Seat(c).up) && Seat(c).x !in Elems(Seat(c).l) && Elems(Seat(c).l) !! ElemsC(Seat(c).up)
    ensures Seat(c).x != s && Rep(m, s, Seat(c).l)
    ensures if c.InR? then m[Seat(c).x].right == top else m[Seat(c).x].right in ElemsC(c)
  {
    if c.InL? {
      SeatLinks(m, s, root, c.up, c.x);
    }
  }

  lemma SeatBelow(m: Mem, s: Node, root: Node, c: Ctx, t: Tree)
    requires Linked(m, s, root, c, t) && Seat(c).InR? && t.Bin?
    ensures t.x != Seat(c).x && !c.Top?
  {
    SeatLinks(m, s, root, c, t.x);
    RootIn(t);
  }

  lemma {:induction false} ReseatElems(c: Ctx, y: Node)
    requires Seat(c).InR?
    ensures ElemsC(Reseat(c, y)) <= ElemsC(c) + {y}
  {
    if c.InL? {
      ReseatElems(c.up, y);
    }
  }

  // ----- the links -----

  // A node with one empty side: what hangs on the other side can take its place.
  ghost predicate OneSided(u: Tree, q: Tree) {
    u.Bin? && ((u.l.Leaf? && q == u.r) || (u.r.Leaf? && q == u.l))
  }

  // The place of the focus is taken by `temp`, whose parent link is set even if it is the sentinel.
  function SpliceWrites(m: Mem, c: Ctx, temp: Node): Mem
    requires !c.Top? && c.x < |m| && temp < |m|
  {
    var w := Hung(m, c, temp);
    w[temp := w[temp].(parent := c.x)]
  }

  lemma RootIn(t: Tree)
    ensures t.Bin? ==> t.x in Elems(t)
  {
  }

  lemma SpliceBelow(m: Mem, s: Node, c: Ctx, q: Tree)
    requires Rep(m, s, q) && s < |m| && !c.Top? && c.x < |m| && c.x !in Elems(q)
    ensures RootOf(s, q) < |m| && Rep(SpliceWrites(m, c, RootOf(s, q)), s, q)
  {
    hide Rep, Elems;
    RepWithin(m, s, q);
    RootIn(q);
    RepFrame(m, SpliceWrites(m, c, RootOf(s, q)), s, q);
  }

  lemma SpliceAbove(m: Mem, s: Node, root: Node, c: Ctx, z: Node, temp: Node)
    requires RepC(m, s, root, c, z) && !c.Top? && s < |m| && temp < |m| && temp !in ElemsC(c)
    ensures c.x < |m| && RepC(SpliceWrites(m, c, temp), s, root, c, temp)
  {
    RepCWithin(m, s, root, c, z);
    assert c.x in ElemsC(c);
    Relink(m, SpliceWrites(m, c, temp), s, root, root, c, z, temp);
  }

  /** Splicing out a node with one empty side. */
  lemma SpliceLinks(m: Mem, s: Node, root: Node, c: Ctx, u: Tree, q: Tree)
    requires Linked(m, s, root, c, u) && OneSided(u, q) && !c.Top?
    ensures c.x < |m| && RootOf(s, q) < |m|
    ensures Linked(SpliceWrites(m, c, RootOf(s, q)), s, root, c, q)
    ensures u.x !in Elems(q) && u.x !in ElemsC(c) && u.x != s
  {
    assert Elems(q) <= Elems(u) && c.x in ElemsC(c) && (q.Bin? ==> q.x in Elems(q));
    RepCWithin(m, s, root, c, u.x);
    SpliceBelow(m, s, c, q);
    SpliceAbove(m, s, root, c, u.x, RootOf(s, q));
  }

  // The record of a node that has left the tree.
  function Cleared(red: bool): Cell {
    Cell(0, NULL, NULL, NULL, red)
  }

  lemma ClearLinks(m: Mem, s: Node, root: Node, c: Ctx, q: Tree, z: Node, cell: Cell)
    requires Linked(m, s, root, c, q) && z !in Elems(q) && z !in ElemsC(c) && z != s && z < |m|
    ensures Linked(m[z := cell], s, root, c, q)
  {
    RepWithin(m, s, q);
    RepCWithin(m, s, root, c, RootOf(s, q));
    RepFrame(m, m[z := cell], s, q);
    RepCFrame(m, m[z := cell], s, root, c, RootOf(s, q));
  }

  // `y` has got the links and the colour of `z`, and the three neighbours of `z` know it.
  ghost predicate Swapped(m: Mem, w: Mem, s: Node, root: Node, newRoot: Node, d: Ctx, z: Node, y: Node) {
    && |w| == |m| && z < |m| && y < |m|
    && w[y] == m[z].(key := m[y].key)
    && (m[z].left != s && 0 <= m[z].left < |m| ==> w[m[z].left] == m[m[z].left].(parent := y))
    && (m[z].right != s && 0 <= m[z].right < |m| ==> w[m[z].right] == m[m[z].right].(parent := y))
    && LinkAbove(m, w, d, root, newRoot, y)
    && forall x :: 0 <= x < |m| && x !in {y, z, m[z].left, m[z].right, s} && (d.Top? || x != d.x) ==> w[x] == m[x]
  }

  lemma ReseatHere(m: Mem, w: Mem, s: Node, root: Node, newRoot: Node, c: Ctx, top: Node, y: Node)
    requires RepC(m, s, root, c, top) && c.InR? && s < |m|
    requires Swapped(m, w, s, root, newRoot, c.up, c.x, y)
    requires y != s && y !in ElemsC(c) && y != top && top !in ElemsC(c) && top < |m|
    ensures RepC(w, s, newRoot, Reseat(c, y), top)
  {
    RepCWithin(m, s, root, c, top);
    RepCWithin(m, s, root, c.up, c.x);
    assert c.l.Bin? ==> c.l.x in Elems(c.l);
    assert c.up.Top? || c.up.x in ElemsC(c.up);
    assert SameIn(m, w, c.l);
    RepFrame(m, w, s, c.l);
    Relink(m, w, s, root, newRoot, c.up, c.x, y);
  }

  // A node away from the seat, its child and its surroundings is not written.
  lemma AwayFromSeat(m: Mem, w: Mem, s: Node, root: Node, newRoot: Node, c: Ctx, top: Node, y: Node, x: Node)
    requires RepC(m, s, root, c, top) && Seat(c).InR?
    requires Swapped(m, w, s, root, newRoot, Seat(c).up, Seat(c).x, y)
    requires x < |m| && x !in ElemsC(c) && x != top && x != y && x != s
    ensures w[x] == m[x]
  {
    hide RepC, ElemsC;
    SeatLinks(m, s, root, c, top);
    RootIn(Seat(c).l);
    ParentIn(Seat(c).up);
  }

  lemma ParentIn(c: Ctx)
    ensures !c.Top? ==> c.x in ElemsC(c)
  {
  }

  lemma ReseatAbove(m: Mem, w: Mem, s: Node, root: Node, newRoot: Node, c: Ctx, top: Node, y: Node)
    requires RepC(m, s, root, c, top) && c.InL? && Seat(c).InR? && s < |m|
    requires Swapped(m, w, s, root, newRoot, Seat(c).up, Seat(c).x, y)
    requires y != s && y !in ElemsC(c) && y != top && top !in ElemsC(c) && top < |m|
    requires |w| == |m| && (top != s ==> w[top].parent == m[top].parent)
    requires w[c.x].left == m[c.x].left && w[c.x].right == m[c.x].right && w[c.x].red == m[c.x].red
    requires RepC(w, s, newRoot, Reseat(c.up, y), c.x)
    ensures RepC(w, s, newRoot, Reseat(c, y), top)
  {
    hide Swapped;
    ReseatElems(c.up, y);
    RepWithin(m, s, c.r);
    forall x | x in Elems(c.r)
      ensures w[x] == m[x]
    {
      AwayFromSeat(m, w, s, root, newRoot, c.up, c.x, y, x);
    }
    RootIn(c.r);
    RepFrame(m, w, s, c.r);
  }

  lemma {:induction false} ReseatRep(m: Mem, w: Mem, s: Node, root: Node, newRoot: Node, c: Ctx, top: Node, y: Node)
    requires RepC(m, s, root, c, top) && Seat(c).InR? && s < |m|
    requires Swapped(m, w, s, root, newRoot, Seat(c).up, Seat(c).x, y)
    requires y != s && y !in ElemsC(c) && y != top && top !in ElemsC(c) && top < |m|
    requires top != s && c.InL? ==> w[top].parent == m[top].parent
    ensures RepC(w, s, newRoot, Reseat(c, y), top)
    decreases c
  {
    if c.InR? {
      ReseatHere(m, w, s, root, newRoot, c, top, y);
    } else {
      NearSeat(m, w, s, root, newRoot, c, top, y);
      ReseatRep(m, w, s, root, newRoot, c.up, c.x, y);
      ReseatAbove(m, w, s, root, newRoot, c, top, y);
    }
  }

  // Between the seat and the focus only the child of the seat gets a new parent.
  lemma NearSeat(m: Mem, w: Mem, s: Node, root: Node, newRoot: Node, c: Ctx, top: Node, y: Node)
    requires RepC(m, s, root, c, top) && c.InL? && Seat(c).InR? && s < |m|
    requires Swapped(m, w, s, root, newRoot, Seat(c).up, Seat(c).x, y)
    requires y != s && y !in ElemsC(c)
    ensures RepC(m, s, root, c.up, c.x) && c.x !in ElemsC(c.up) && c.x < |m| && c.x != s && y != c.x
    ensures y !in ElemsC(c.up)
    ensures c.up.InL? ==> w[c.x].parent == m[c.x].parent
    ensures w[c.x].left == m[c.x].left && w[c.x].right == m[c.x].right && w[c.x].red == m[c.x].red
  {
    SeatLinks(m, s, root, c.up, c.x);
    RootIn(Seat(c).l);
    ParentIn(Seat(c).up);
  }

  lemma SwapBelow(m: Mem, w: Mem, s: Node, root: Node, newRoot: Node, c: Ctx, q: Tree, y: Node)
    requires Linked(m, s, root, c, q) && Seat(c).InR? && Swapped(m, w, s, root, newRoot, Seat(c).up, Seat(c).x, y)
    requires y !in Elems(q) && y != s
    ensures Rep(w, s, q) && (q.Bin? && c.InL? ==> w[q.x].parent == m[q.x].parent)
  {
    RepWithin(m, s, q);
    RootIn(q);
    ParentIn(c);
    SeatLinks(m, s, root, c, RootOf(s, q));
    forall x | x in Elems(q) && (x != q.x || c.InL?)
      ensures x < |w| && w[x] == m[x]
    {
      if c.InL? {
        AwayFromSeat(m, w, s, root, newRoot, c.up, c.x, y, x);
      } else {
        AwayFromSeat(m, w, s, root, newRoot, c, RootOf(s, q), y, x);
      }
    }
    RepFrame(m, w, s, q);
  }

  /** The successor `y`, spliced out before, sits on the place of the node above. */
  lemma SwapLinks(m: Mem, w: Mem, s: Node, root: Node, newRoot: Node, c: Ctx, q: Tree, y: Node)
    requires Linked(m, s, root, c, q) && Seat(c).InR? && Swapped(m, w, s, root, newRoot, Seat(c).up, Seat(c).x, y)
    requires y !in Elems(q) && y !in ElemsC(c) && y != s && !w[s].red
    ensures Linked(w, s, newRoot, Reseat(c, y), q)
    ensures Seat(c).x !in Elems(q) && Seat(c).x !in ElemsC(Reseat(c, y)) && Seat(c).x != s
  {
    hide Swapped, Rep, RepC;
    assert |w| == |m| && y < |m| by { SwappedBounds(m, w, s, root, newRoot, Seat(c).up, Seat(c).x, y); }
    RepWithin(m, s, q);
    RootIn(q);
    SeatLinks(m, s, root, c, RootOf(s, q));
    ReseatElems(c, y);
    SeatIsFree(m, s, root, c, RootOf(s, q), y);
    SwapBelow(m, w, s, root, newRoot, c, q, y);
    ReseatRep(m, w, s, root, newRoot, c, RootOf(s, q), y);
  }

  lemma {:induction false} SeatIsFree(m: Mem, s: Node, root: Node, c: Ctx, top: Node, y: Node)
    requires RepC(m, s, root, c, top) && Seat(c).InR? && y !in ElemsC(c)
    ensures Seat(c).x !in ElemsC(Reseat(c, y))
  {
    SeatLinks(m, s, root, c, top);
    if c.InL? {
      SeatLinks(m, s, root, c.up, c.x);
      SeatIsFree(m, s, root, c.up, c.x, y);
    }
  }

  lemma SwappedBounds(m: Mem, w: Mem, s: Node, root: Node, newRoot: Node, d: Ctx, z: Node, y: Node)
    requires Swapped(m, w, s, root, newRoot, d, z, y)
    ensures |w| == |m| && y < |m|
  {
  }

  // The records written when `y` takes the place of `z` are different, but for `temp`, which may be
  // the right child of `z`.
  ghost predicate SwapPlaces(m: Mem, s: Node, root: Node, d: Ctx, z: Node, y: Node, temp: Node) {
    && s < |m| && z < |m| && y < |m| && temp < |m| && 0 <= m[z].left < |m| && 0 <= m[z].right < |m|
    && !m[s].red && z != y && z != s && y != s && temp != z && temp != y && (temp != s ==> temp != m[z].left)
    && m[z].left != z && m[z].left != y && m[z].right != z && m[z].right != y
    && (m[z].left != s ==> m[z].left != m[z].right)
    && (d.Top? <==> root == z)
    && (!d.Top? ==>
          && d.x < |m| && d.x != s && d.x != z && d.x != y && d.x != temp && d.x != m[z].left && d.x != m[z].right
          && m[z].parent == d.x && (d.InL? <==> m[d.x].left == z) && (d.InR? <==> m[d.x].right == z))
  }

  lemma SeatParent(m: Mem, s: Node, root: Node, d: Ctx, z: Node)
    requires RepC(m, s, root, d, z) && z != s && z !in ElemsC(d)
    ensures d.Top? <==> root == z
    ensures !d.Top? ==> d.x < |m| && m[z].parent == d.x && d.x != s && d.x in ElemsC(d)
    ensures !d.Top? ==> (d.InL? <==> m[d.x].left == z) && (d.InR? <==> m[d.x].right == z)
  {
    RootAbove(m, s, root, d, z);
    if d.InL? {
      RootIn(d.r);
    }
    if d.InR? {
      RootIn(d.l);
    }
  }

  lemma SwapPlaced(m: Mem, s: Node, root: Node, c: Ctx, q: Tree, y: Node)
    requires Linked(m, s, root, c, q) && Seat(c).InR? && y < |m|
    requires y !in Elems(q) && y !in ElemsC(c) && y != s
    ensures SwapPlaces(m, s, root, Seat(c).up, Seat(c).x, y, RootOf(s, q))
    ensures (c.x == Seat(c).x <==> c.InR?) && c.x in ElemsC(c)
    ensures c.InR? <==> m[Seat(c).x].right == RootOf(s, q)
  {
    RepWithin(m, s, q);
    RepCWithin(m, s, root, c, RootOf(s, q));
    RootIn(q);
    SeatLinks(m, s, root, c, RootOf(s, q));
    RepWithin(m, s, Seat(c).l);
    RootIn(Seat(c).l);
    SeatParent(m, s, root, Seat(c).up, Seat(c).x);
    ParentIn(c);
    if c.InL? {
      SeatLinks(m, s, root, c.up, c.x);
    }
    SeatRight(m, s, root, c, RootOf(s, q));
  }

  lemma {:induction false} SeatRight(m: Mem, s: Node, root: Node, c: Ctx, top: Node)
    requires RepC(m, s, root, c, top) && Seat(c).InR? && top !in ElemsC(c)
    ensures Seat(c).x < |m|
    ensures m[Seat(c).x].right != Seat(c).x && m[Seat(c).x].right !in Elems(Seat(c).l)
    ensures m[Seat(c).x].right !in ElemsC(Seat(c).up)
  {
    SeatLinks(m, s, root, c, top);
    if c.InL? {
      SeatRight(m, s, root, c.up, c.x);
    }
  }

  /** Deletion keeps all keys but that of the deleted node, which becomes 0. */
  ghost predicate OnlyClears(m: Mem, w: Mem, z: Node) {
    && |w| == |m| && z < |m| && w[z].key == 0
    && forall x :: 0 <= x < |m| && x != z ==> w[x].key == m[x].key
  }

  // The writes that put `y` on the place of `z`, in order; `p` is the new parent of `temp`.
  function SwapWrites(m: Mem, s: Node, d: Ctx, z: Node, y: Node, temp: Node, p: Node): Mem
    requires z < |m| && y < |m| && temp < |m| && 0 <= m[z].left < |m| && 0 <= m[z].right < |m|
    requires (!d.Top? ==> d.x < |m|)
    requires z != temp
  {
    Told(Moved(m, d, z, y, temp, p), s, z, y, m[z].left, m[z].right)
  }

  function Moved(m: Mem, d: Ctx, z: Node, y: Node, temp: Node, p: Node): Mem
    requires z < |m| && y < |m| && temp < |m| && (!d.Top? ==> d.x < |m|)
  {
    var m := m[temp := m[temp].(parent := p)];
    var m := m[y := m[z].(key := m[y].key)];
    Hung(m, d, y)
  }

  function Told(m: Mem, s: Node, z: Node, y: Node, l: Node, r: Node): Mem
    requires z < |m| && l < |m| && r < |m|
  {
    var m := if l != s then m[l := m[l].(parent := y)] else m;
    var m := if r != s then m[r := m[r].(parent := y)] else m;
    m[z := Cleared(m[z].red)]
  }

  // What one record holds after these writes.
  function SwappedAt(m: Mem, s: Node, d: Ctx, z: Node, y: Node, temp: Node, p: Node, x: Node): Cell
    requires z < |m| && y < |m| && x < |m|
  {
    if x == z then Cleared(m[z].red)
    else if x == y then m[z].(key := m[y].key)
    else if x != s && (x == m[z].left || x == m[z].right) then m[x].(parent := y)
    else if !d.Top? && x == d.x then (if d.InL? then m[x].(left := y) else m[x].(right := y))
    else if x == temp then m[x].(parent := p)
    else m[x]
  }

  lemma MovedOne(m: Mem, s: Node, root: Node, d: Ctx, z: Node, y: Node, temp: Node, p: Node, x: Node)
    requires SwapPlaces(m, s, root, d, z, y, temp) && x < |m|
    ensures var w := Moved(m, d, z, y, temp, p);
      && |w| == |m| && w[z] == m[z] && w[y] == m[z].(key := m[y].key)
      && (x != z && x != y && (d.Top? || x != d.x) ==> w[x] == if x == temp then m[x].(parent := p) else m[x])
      && (!d.Top? && x == d.x ==> w[x] == if d.InL? then m[x].(left := y) else m[x].(right := y))
  {
  }

  lemma SwapOne(m: Mem, s: Node, root: Node, d: Ctx, z: Node, y: Node, temp: Node, p: Node, x: Node)
    requires SwapPlaces(m, s, root, d, z, y, temp) && x < |m|
    ensures |SwapWrites(m, s, d, z, y, temp, p)| == |m|
    ensures SwapWrites(m, s, d, z, y, temp, p)[x] == SwappedAt(m, s, d, z, y, temp, p, x)
  {
    hide Moved;
    MovedOne(m, s, root, d, z, y, temp, p, x);
  }

  lemma SwapAll(m: Mem, s: Node, root: Node, d: Ctx, z: Node, y: Node, temp: Node, p: Node)
    requires SwapPlaces(m, s, root, d, z, y, temp)
    ensures |SwapWrites(m, s, d, z, y, temp, p)| == |m|
    ensures forall x :: 0 <= x < |m| ==> SwapWrites(m, s, d, z, y, temp, p)[x] == SwappedAt(m, s, d, z, y, temp, p, x)
  {
    hide SwapWrites, SwappedAt;
    SwapOne(m, s, root, d, z, y, temp, p, z);
    forall x | 0 <= x < |m|
      ensures SwapWrites(m, s, d, z, y, temp, p)[x] == SwappedAt(m, s, d, z, y, temp, p, x)
    {
      SwapOne(m, s, root, d, z, y, temp, p, x);
    }
  }

  lemma SwapWritten(m: Mem, s: Node, root: Node, newRoot: Node, d: Ctx, z: Node, y: Node, temp: Node, p: Node)
    requires SwapPlaces(m, s, root, d, z, y, temp) && newRoot == (if d.Top? then y else root)
    requires if temp == m[z].right then p == y else temp == s || p == m[temp].parent
    ensures Swapped(m, SwapWrites(m, s, d, z, y, temp, p), s, root, newRoot, d, z, y)
  {
    hide SwapWrites;
    SwapAll(m, s, root, d, z, y, temp, p);
  }

  lemma SwapClears(m: Mem, s: Node, root: Node, d: Ctx, z: Node, y: Node, temp: Node, p: Node)
    requires SwapPlaces(m, s, root, d, z, y, temp)
    ensures var w := SwapWrites(m, s, d, z, y, temp, p);
      OnlyClears(m, w, z) && w[z] == Cleared(w[z].red) && !w[s].red && (temp == s ==> w[s].parent == p)
  {
    hide SwapWrites;
    SwapAll(m, s, root, d, z, y, temp, p);
  }

  // ----- order and rules -----

  /** `w` is `s` without its element `x` at place `i`. */
  ghost predicate Without(s: seq<Node>, i: nat, x: Node, w: seq<Node>) {
    i < |s| && s[i] == x && w == s[..i] + s[i + 1..]
  }

  lemma Dropped(a: seq<Node>, x: Node, b: seq<Node>)
    ensures Without(a + [x] + b, |a|, x, a + b)
  {
    var s := a + [x] + b;
    assert s[..|a|] == a && s[|a| + 1..] == b;
  }

  lemma Regroup(a: seq<Node>, l: seq<Node>, x: Node, r: seq<Node>, b: seq<Node>)
    ensures a + (l + [x] + r) + b == (a + l) + [x] + (r + b)
    ensures a + (l + r) + b == (a + l) + (r + b)
  {
  }

  lemma DropSelf(a: seq<Node>, l: seq<Node>, x: Node, r: seq<Node>, b: seq<Node>)
    ensures Without(a + (l + [x] + r) + b, |a| + |l|, x, a + (l + r) + b)
  {
    hide Without;
    Regroup(a, l, x, r, b);
    Dropped(a + l, x, r + b);
  }

  lemma OneSidedOrder(u: Tree, q: Tree)
    requires OneSided(u, q)
    ensures Inorder(u) == Inorder(u.l) + [u.x] + Inorder(u.r) && Inorder(q) == Inorder(u.l) + Inorder(u.r)
  {
  }

  lemma OrderSelf(c: Ctx, u: Tree, q: Tree)
    requires OneSided(u, q)
    ensures Without(Inorder(Plug(c, u)), |Before(c)| + |Inorder(u.l)|, u.x, Inorder(Plug(c, q)))
  {
    hide Without, Inorder, Plug, Before, After;
    InorderPlug(c, u);
    InorderPlug(c, q);
    OneSidedOrder(u, q);
    DropSelf(Before(c), Inorder(u.l), u.x, Inorder(u.r), After(c));
  }

  lemma DropSeat(a: seq<Node>, x: Node, y: Node, r: seq<Node>, b: seq<Node>)
    ensures Without((a + [x]) + ([y] + r) + b, |a|, x, (a + [y]) + r + b)
  {
    hide Without;
    assert (a + [x]) + ([y] + r) + b == a + [x] + ([y] + r + b);
    Dropped(a, x, [y] + r + b);
    assert (a + [y]) + r + b == a + ([y] + r + b);
  }

  lemma OrderVia(c: Ctx, u: Tree)
    requires u.Bin? && u.l.Leaf? && Seat(c).InR?
    ensures |Before(c)| > 0
    ensures Without(Inorder(Plug(c, u)), |Before(c)| - 1, Seat(c).x, Inorder(Plug(Reseat(c, u.x), u.r)))
  {
    hide Without, Plug, Before, After, Seat, Reseat;
    InorderPlug(c, u);
    InorderPlug(Reseat(c, u.x), u.r);
    ReseatOrder(c, u.x);
    assert Inorder(u) == [u.x] + Inorder(u.r);
    DropSeat(Before(Seat(c).up) + Inorder(Seat(c).l), Seat(c).x, u.x, Inorder(u.r), After(c));
  }

  /** What is left after a red or a black node was spliced out. */
  predicate Spliced(c: Ctx, q: Tree, h: nat, red: bool) {
    if red then Good(q, h) && GoodC(c, h) && !IsRed(q) && UnderBlack(c) else Short(c, q, h)
  }

  lemma SpliceRules(c: Ctx, u: Tree, q: Tree) returns (h: nat)
    requires RedBlack(Plug(c, u)) && OneSided(u, q)
    ensures Spliced(c, q, h, u.red)
  {
    var hh: nat :| Good(Plug(c, u), hh);
    var k := Disassemble(c, u, hh);
    h := if u.red then k else k - 1;
  }

  lemma SplicedReseat(c: Ctx, q: Tree, h: nat, red: bool, y: Node)
    requires Spliced(c, q, h, red)
    ensures Spliced(Reseat(c, y), q, h, red)
  {
    ReseatGood(c, y, if red then h else h + 1);
  }

  lemma SplicedRed(c: Ctx, q: Tree, h: nat)
    requires Spliced(c, q, h, true)
    ensures RedBlack(Plug(c, q))
  {
    var hh := Assemble(c, q, h);
  }

  /** A node under the root with one child at most: the child takes over and turns black. */
  lemma SplicedRoot(u: Tree, q: Tree)
    requires RedBlack(u) && OneSided(u, q)
    ensures RedBlack(Blacken(q))
  {
    var hh: nat :| Good(u, hh);
    var k := BlackenGood(q, hh - 1);
  }

  lemma RootLinks(m: Mem, s: Node, root: Node, u: Tree, q: Tree)
    requires Linked(m, s, root, Top, u) && OneSided(u, q)
    ensures Linked(m, s, RootOf(s, q), Top, q) && RootOf(s, q) < |m| && s < |m| && !m[s].red
    ensures u.x !in Elems(q) && Elems(Blacken(q)) == Elems(q) && u.x < |m| && u.x != s
  {
    RepWithin(m, s, u);
    RootIn(q);
  }

  // ----- what the two operations do together -----

  /** A linked tree holds every node once. */
  lemma {:induction false} NodesAreDistinct(m: Mem, s: Node, t: Tree)
    requires Rep(m, s, t)
    ensures forall i, j :: 0 <= i < j < |Inorder(t)| ==> Inorder(t)[i] != Inorder(t)[j]
  {
    if t.Bin? {
      NodesAreDistinct(m, s, t.l);
      NodesAreDistinct(m, s, t.r);
      ElemsInorder(t.l);
      ElemsInorder(t.r);
      DistinctParts(Inorder(t.l), t.x, Inorder(t.r));
    }
  }

  lemma DistinctParts(a: seq<Node>, x: Node, b: seq<Node>)
    requires forall i, j :: 0 <= i < j < |a| ==> a[i] != a[j]
    requires forall i, j :: 0 <= i < j < |b| ==> b[i] != b[j]
    requires x !in a && x !in b && forall y :: y in a ==> y !in b
    ensures var s := a + [x] + b;
      forall i, j :: 0 <= i < j < |s| ==> s[i] != s[j]
  {
    var s := a + [x] + b;
    forall i, j | 0 <= i < j < |s|
      ensures s[i] != s[j]
    {
      if i < |a| {
        assert s[i] in a;
      }
      if j > |a| {
        assert s[j] == b[j - |a| - 1] && s[j] in b;
      }
    }
  }

  lemma OnlyThere(s: seq<Node>, i: nat, x: Node)
    requires i <= |s| && x !in s
    ensures var t := s[..i] + [x] + s[i..];
      forall k :: 0 <= k < |t| && k != i ==> t[k] != x
  {
    var t := s[..i] + [x] + s[i..];
    forall k | 0 <= k < |t| && k != i
      ensures t[k] != x
    {
      assert t[k] == if k < i then s[k] else s[k - 1];
    }
  }

  /** Deleting a node that was just inserted brings the old contents back. */
  lemma DeleteUndoesInsert(s: seq<Node>, i: nat, x: Node, j: nat, w: seq<Node>)
    requires i <= |s| && x !in s && Without(s[..i] + [x] + s[i..], j, x, w)
    ensures j == i && w == s
  {
    var t := s[..i] + [x] + s[i..];
    OnlyThere(s, i, x);
    assert t[..i] == s[..i] && t[i + 1..] == s[i..];
  }

  /** Deletion keeps the others in order, also around the clock. */
  lemma DeleteKeepsOrder(m: Mem, w: Mem, base: nat, s: seq<Node>, i: nat, x: Node, r: seq<Node>)
    requires OnlyClears(m, w, x) && Without(s, i, x, r) && x !in r && Sorted(m, base, s)
    ensures Sorted(w, base, r)
  {
    assert s == s[..i] + [x] + s[i + 1..];
    SortedRemove(m, base, s[..i], x, s[i + 1..]);
    assert forall k :: 0 <= k < |r| && r[k] < |m| ==> w[r[k]].key == m[r[k]].key;
  }
}
