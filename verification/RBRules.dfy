/** The colour rules, their heights, and what each rebalancing step does to them. */
module RBRules {
  import opened Words
  import opened RBShape

  predicate IsRed(t: Tree) {
    t.Bin? && t.red
  }

  /** Equal black heights, and no red node with a red child. */
  predicate Good(t: Tree, h: nat) {
    match t
    case Leaf => h == 0
    case Bin(l, _, red, r) =>
      if red then !IsRed(l) && !IsRed(r) && Good(l, h) && Good(r, h)
      else h > 0 && Good(l, h - 1) && Good(r, h - 1)
  }

  // The node above the focus exists and is black, or is red.
  predicate UnderBlack(c: Ctx) {
    !c.Top? && !c.red
  }

  predicate UnderRed(c: Ctx) {
    !c.Top? && c.red
  }

  /** The surroundings obey the rules for a focus of black height `h`; a red node is never the root. */
  predicate GoodC(c: Ctx, h: nat) {
    match c
    case Top => true
    case InL(up, _, red, r) =>
      Good(r, h) && (if red then UnderBlack(up) && !IsRed(r) && GoodC(up, h) else GoodC(up, h + 1))
    case InR(l, _, red, up) =>
      Good(l, h) && (if red then UnderBlack(up) && !IsRed(l) && GoodC(up, h) else GoodC(up, h + 1))
  }

  ghost predicate RedBlack(t: Tree) {
    !IsRed(t) && exists h :: Good(t, h)
  }

  /** Good surroundings around a good focus make a good tree, with a black root if there is a node above. */
  lemma {:induction false} Assemble(c: Ctx, t: Tree, h: nat) returns (hh: nat)
    requires Good(t, h) && GoodC(c, h) && (IsRed(t) ==> !UnderRed(c))
    ensures Good(Plug(c, t), hh) && (!c.Top? ==> !IsRed(Plug(c, t)))
    decreases Depth(c)
  {
    match c
    case Top => hh := h;
    case InL(up, x, red, r) => hh := Assemble(up, Bin(t, x, red, r), if red then h else h + 1);
    case InR(l, x, red, up) => hh := Assemble(up, Bin(l, x, red, t), if red then h else h + 1);
  }

  lemma {:induction false} Disassemble(c: Ctx, t: Tree, hh: nat) returns (h: nat)
    requires Good(Plug(c, t), hh) && !IsRed(Plug(c, t))
    ensures Good(t, h) && GoodC(c, h) && (IsRed(t) ==> UnderBlack(c))
    decreases Depth(c)
  {
    match c
    case Top => h := hh;
    case InL(up, x, red, r) =>
      var k := Disassemble(up, Bin(t, x, red, r), hh);
      h := if red then k else k - 1;
    case InR(l, x, red, up) =>
      var k := Disassemble(up, Bin(l, x, red, t), hh);
      h := if red then k else k - 1;
  }

  function Blacken(t: Tree): Tree {
    if t.Leaf? then t else t.(red := false)
  }

  lemma BlackenGood(t: Tree, h: nat) returns (k: nat)
    requires Good(t, h)
    ensures Good(Blacken(t), k) && !IsRed(Blacken(t)) && k == (if IsRed(t) then h + 1 else h)
  {
    k := if IsRed(t) then h + 1 else h;
  }

  // ----- height -----

  function Height(t: Tree): nat {
    match t
    case Leaf => 0
    case Bin(l, _, _, r) => 1 + if Height(l) > Height(r) then Height(l) else Height(r)
  }

  lemma {:induction false} HeightOfGood(t: Tree, h: nat)
    requires Good(t, h)
    ensures Pow2(h) <= |Inorder(t)| + 1
    ensures Height(t) <= 2 * h + (if IsRed(t) then 1 else 0)
  {
    if t.Bin? {
      var k := if t.red then h else h - 1;
      HeightOfGood(t.l, k);
      HeightOfGood(t.r, k);
    }
  }

  lemma {:induction false} PowMonotone(a: nat, b: nat)
    requires a <= b
    ensures Pow2(a) <= Pow2(b)
  {
    if a < b {
      PowMonotone(a, b - 1);
    }
  }

  /** A tree of n nodes is at most 2 * log2(n + 1) high. */
  lemma HeightIsLogarithmic(t: Tree)
    requires RedBlack(t)
    ensures Pow2((Height(t) + 1) / 2) <= |Inorder(t)| + 1
  {
    var h :| Good(t, h);
    HeightOfGood(t, h);
    PowMonotone((Height(t) + 1) / 2, h);
  }

  // ----- insertion -----

  /** During insertion the focus is red and good; only its red parent, if it has one, may be wrong. */
  predicate InsertState(c: Ctx, t: Tree, h: nat) {
    IsRed(t) && Good(t, h) && GoodC(c, h)
  }

  // The part of the tree from the grandparent down.
  function Grand(c: Ctx, t: Tree): Tree
    requires !c.Top? && !c.up.Top?
  {
    var p := Parental(c, t);
    if c.up.InL? then Bin(p, c.up.x, c.up.red, c.up.r) else Bin(c.up.l, c.up.x, c.up.red, p)
  }

  function Parental(c: Ctx, t: Tree): (p: Tree)
    requires !c.Top?
    ensures p.Bin?
  {
    if c.InL? then Bin(t, c.x, c.red, c.r) else Bin(c.l, c.x, c.red, t)
  }

  function Uncle(c: Ctx): Tree
    requires !c.Top? && !c.up.Top?
  {
    if c.up.InL? then c.up.r else c.up.l
  }

  lemma GrandIsBlack(c: Ctx, t: Tree, h: nat)
    requires InsertState(c, t, h) && UnderRed(c)
    ensures !c.up.Top? && !c.up.red && Good(Uncle(c), h) && GoodC(c.up.up, h + 1) && GoodC(c.up, h)
  {
    assert GoodC(c.up, h);
  }

  // Parent and uncle become black, the grandparent red: two red-black levels swap colours.
  function Recolored(c: Ctx, t: Tree): Tree
    requires !c.Top? && !c.up.Top?
  {
    var p := Blacken(Parental(c, t));
    if c.up.InL? then Bin(p, c.up.x, true, Blacken(c.up.r)) else Bin(Blacken(c.up.l), c.up.x, true, p)
  }

  lemma RecolorKeeps(c: Ctx, t: Tree, h: nat)
    requires InsertState(c, t, h) && UnderRed(c) && IsRed(Uncle(c))
    ensures InsertState(c.up.up, Recolored(c, t), h + 1)
  {
    GrandIsBlack(c, t, h);
  }

  /** The focus is the outer grandchild and its uncle is black: recolour and rotate at the grandparent. */
  lemma RotateEndsInsert(c: Ctx, t: Tree, h: nat)
    requires InsertState(c, t, h) && UnderRed(c) && !IsRed(Uncle(c))
    requires !c.up.Top? && (c.InL? <==> c.up.InL?)
    ensures c.InL? ==> InsertState(InL(c.up.up, c.x, false, Bin(c.r, c.up.x, true, c.up.r)), t, h)
    ensures c.InR? ==> InsertState(InR(Bin(c.up.l, c.up.x, true, c.l), c.x, false, c.up.up), t, h)
  {
    GrandIsBlack(c, t, h);
  }

  /** The focus is the inner grandchild: one rotation makes the old parent the outer grandchild. */
  lemma TurnOutward(c: Ctx, t: Tree, h: nat)
    requires InsertState(c, t, h) && UnderRed(c) && !c.up.Top?
    ensures c.InR? && c.up.InL? ==>
      InsertState(InL(c.up, t.x, true, t.r), Bin(c.l, c.x, true, t.l), h)
    ensures c.InL? && c.up.InR? ==>
      InsertState(InR(t.l, t.x, true, c.up), Bin(t.r, c.x, true, c.r), h)
  {
  }

  // ----- deletion -----

  /** During the delete fixup the focus is one black short: it should have height h + 1. A red focus
      only has to be painted black. */
  predicate Short(c: Ctx, t: Tree, h: nat) {
    GoodC(c, h + 1) && (if IsRed(t) then Good(Blacken(t), h + 1) else Good(t, h))
  }

  function Sibling(c: Ctx): Tree
    requires !c.Top?
  {
    if c.InL? then c.r else c.l
  }

  lemma SiblingExists(c: Ctx, t: Tree, h: nat)
    requires Short(c, t, h) && !c.Top?
    ensures Sibling(c).Bin? && Good(Sibling(c), h + 1)
    ensures IsRed(Sibling(c)) ==>
      !c.red && Sibling(c).l.Bin? && Sibling(c).r.Bin? && !IsRed(Sibling(c).l) && !IsRed(Sibling(c).r)
  {
    var w := Sibling(c);
    assert Good(w, h + 1);
    if IsRed(w) {
      assert Good(w.l, h + 1) && Good(w.r, h + 1);
    }
  }

  /** A red sibling: after recolouring and one rotation the focus has a black sibling. */
  lemma RedSibling(c: Ctx, t: Tree, h: nat)
    requires Short(c, t, h) && !IsRed(t) && !c.Top? && IsRed(Sibling(c))
    ensures c.InL? ==> Short(InL(InL(c.up, c.r.x, false, c.r.r), c.x, true, c.r.l), t, h)
    ensures c.InR? ==> Short(InR(c.l.r, c.x, true, InR(c.l.l, c.l.x, false, c.up)), t, h)
  {
    SiblingExists(c, t, h);
    assert GoodC(c.up, h + 2);
  }

  /** A black sibling with two black children turns red and the shortage moves to the parent. */
  lemma PassUp(c: Ctx, t: Tree, h: nat)
    requires Short(c, t, h) && !IsRed(t) && !c.Top? && !IsRed(Sibling(c))
    requires Sibling(c).Bin? && !IsRed(Sibling(c).l) && !IsRed(Sibling(c).r)
    ensures c.InL? ==> Short(c.up, Bin(t, c.x, c.red, c.r.(red := true)), if c.red then h else h + 1)
    ensures c.InR? ==> Short(c.up, Bin(c.l.(red := true), c.x, c.red, t), if c.red then h else h + 1)
  {
  }

  /** A black sibling whose near child alone is red: one rotation makes the far child red. */
  lemma FarChildRed(c: Ctx, t: Tree, h: nat)
    requires Short(c, t, h) && !IsRed(t) && !c.Top? && !IsRed(Sibling(c)) && Sibling(c).Bin?
    ensures c.InL? && IsRed(c.r.l) && !IsRed(c.r.r) ==>
      Short(InL(c.up, c.x, c.red, Bin(c.r.l.l, c.r.l.x, false, Bin(c.r.l.r, c.r.x, true, c.r.r))), t, h)
    ensures c.InR? && IsRed(c.l.r) && !IsRed(c.l.l) ==>
      Short(InR(Bin(Bin(c.l.l, c.l.x, true, c.l.r.l), c.l.r.x, false, c.l.r.r), c.x, c.red, c.up), t, h)
  {
    var w := Sibling(c);
    assert Good(w, h + 1) && Good(w.l, h) && Good(w.r, h);
    if c.InL? && IsRed(w.l) {
      assert Good(w.l.l, h) && Good(w.l.r, h);
      assert Good(Bin(w.l.r, w.x, true, w.r), h) || IsRed(w.r);
    }
    if c.InR? && IsRed(w.r) {
      assert Good(w.r.l, h) && Good(w.r.r, h);
      assert Good(Bin(w.l, w.x, true, w.r.l), h) || IsRed(w.l);
    }
  }

  /** A black sibling with a red far child: the last rotation repairs the tree. */
  lemma Repaired(c: Ctx, t: Tree, h: nat)
    requires Short(c, t, h) && !IsRed(t) && !c.Top? && !IsRed(Sibling(c)) && Sibling(c).Bin?
    ensures c.InL? && IsRed(c.r.r) ==>
      var u := Bin(Bin(t, c.x, false, c.r.l), c.r.x, c.red, Blacken(c.r.r));
      var k := if c.red then h + 1 else h + 2;
      Good(u, k) && GoodC(c.up, k) && (IsRed(u) ==> UnderBlack(c.up))
    ensures c.InR? && IsRed(c.l.l) ==>
      var u := Bin(Blacken(c.l.l), c.l.x, c.red, Bin(c.l.r, c.x, false, t));
      var k := if c.red then h + 1 else h + 2;
      Good(u, k) && GoodC(c.up, k) && (IsRed(u) ==> UnderBlack(c.up))
  {
    var w := Sibling(c);
    assert Good(w, h + 1) && Good(w.l, h) && Good(w.r, h);
    if c.InL? && IsRed(w.r) {
      assert Good(Bin(t, c.x, false, w.l), h + 1) && Good(Blacken(w.r), h + 1);
    }
    if c.InR? && IsRed(w.l) {
      assert Good(Bin(w.r, c.x, false, t), h + 1) && Good(Blacken(w.l), h + 1);
    }
  }

  /** Painting the focus black ends the fixup. */
  lemma EndShort(c: Ctx, t: Tree, h: nat)
    requires Short(c, t, h) && (IsRed(t) || c.Top?)
    ensures RedBlack(Plug(c, Blacken(t)))
  {
    if IsRed(t) {
      var hh := Assemble(c, Blacken(t), h + 1);
    } else {
      assert Good(t, h);
    }
  }
}
