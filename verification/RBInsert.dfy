/** Insertion: the walk down to the place of a node, and the rebalancing on the way up. */
module RBInsert {
  import opened RBShape
  import opened RBRules
  import opened RBOrder
  import opened RBFacts

  // ----- walking down -----

  // All nodes passed on the left are not greater than the new one, all on the right are greater.
  ghost predicate Between(m: Mem, base: nat, c: Ctx, node: Node) {
    node < |m| && UpTo(m, base, Before(c), Rank(base, m[node].key)) && Past(m, base, After(c), Rank(base, m[node].key))
  }

  lemma WalkLeft(m: Mem, timer: bool, base: nat, c: Ctx, t: Tree, node: Node)
    requires t.Bin? && t.x < |m| && Comparable(m, timer, base, Inorder(Plug(c, t)), node) && Between(m, base, c, node)
    requires Less(timer, m[node].key, m[t.x].key)
    ensures Between(m, base, InL(c, t.x, t.red, t.r), node)
  {
    InorderPlug(c, t);
    SortedParts(m, base, Before(c), Inorder(t.l), t.x, Inorder(t.r), After(c));
    assert t.x in Inorder(t);
    LessIsRank(timer, base, m[node].key, m[t.x].key);
  }

  lemma WalkRight(m: Mem, timer: bool, base: nat, c: Ctx, t: Tree, node: Node)
    requires t.Bin? && t.x < |m| && Comparable(m, timer, base, Inorder(Plug(c, t)), node) && Between(m, base, c, node)
    requires !Less(timer, m[node].key, m[t.x].key)
    ensures Between(m, base, InR(t.l, t.x, t.red, c), node)
  {
    InorderPlug(c, t);
    SortedParts(m, base, Before(c), Inorder(t.l), t.x, Inorder(t.r), After(c));
    assert t.x in Inorder(t);
    LessIsRank(timer, base, m[node].key, m[t.x].key);
  }

  // Wherever the keys can be compared, the focus is the place for the node.
  ghost predicate Fits(m: Mem, timer: bool, c: Ctx, t: Tree, node: Node) {
    forall base :: Comparable(m, timer, base, Inorder(Plug(c, t)), node) ==> Between(m, base, c, node)
  }

  lemma FitsTop(m: Mem, timer: bool, t: Tree, node: Node)
    requires node < |m|
    ensures Fits(m, timer, Top, t, node)
  {
  }

  lemma FitsLeft(m: Mem, timer: bool, c: Ctx, t: Tree, node: Node)
    requires t.Bin? && t.x < |m| && node < |m| && Fits(m, timer, c, t, node)
    requires Less(timer, m[node].key, m[t.x].key)
    ensures Fits(m, timer, InL(c, t.x, t.red, t.r), t.l, node)
  {
    forall base | Comparable(m, timer, base, Inorder(Plug(c, t)), node)
      ensures Between(m, base, InL(c, t.x, t.red, t.r), node)
    {
      WalkLeft(m, timer, base, c, t, node);
    }
  }

  lemma FitsRight(m: Mem, timer: bool, c: Ctx, t: Tree, node: Node)
    requires t.Bin? && t.x < |m| && node < |m| && Fits(m, timer, c, t, node)
    requires !Less(timer, m[node].key, m[t.x].key)
    ensures Fits(m, timer, InR(t.l, t.x, t.red, c), t.r, node)
  {
    forall base | Comparable(m, timer, base, Inorder(Plug(c, t)), node)
      ensures Between(m, base, InR(t.l, t.x, t.red, c), node)
    {
      WalkRight(m, timer, base, c, t, node);
    }
  }

  lemma SameKeys(m: Mem, w: Mem, timer: bool, base: nat, s: seq<Node>, node: Node)
    requires OnlyLinks(m, w)
    ensures Comparable(m, timer, base, s, node) <==> Comparable(w, timer, base, s, node)
  {
  }

  /** An empty focus that fits the node is its place in the order, whatever the links become. */
  lemma PlaceFound(m: Mem, w: Mem, timer: bool, c: Ctx, node: Node)
    requires OnlyLinks(m, w) && node < |m| && Fits(m, timer, c, Leaf, node)
    ensures Placed(w, timer, Inorder(Plug(c, Leaf)), node, |Before(c)|)
    ensures Inorder(Plug(c, Leaf)) == Before(c) + After(c)
  {
    InorderPlug(c, Leaf);
    var s := Before(c) + After(c);
    assert Before(c) + [] + After(c) == s;
    assert s[..|Before(c)|] == Before(c) && s[|Before(c)|..] == After(c);
    forall base | Comparable(w, timer, base, s, node)
      ensures Between(w, base, c, node) && Sorted(w, base, Before(c) + [node] + After(c))
    {
      SameKeys(m, w, timer, base, s, node);
      assert Between(m, base, c, node);
      SortedInsert(w, base, Before(c), node, After(c));
    }
  }

  /** Hanging a fresh red node below a free side of `t`'s root. */
  lemma AttachLeft(m: Mem, w: Mem, s: Node, root: Node, c: Ctx, t: Tree, node: Node)
    requires Linked(m, s, root, c, t) && t.Bin? && t.l.Leaf? && |w| == |m|
    requires node < |m| && node != s && node !in Elems(t) && node !in ElemsC(c)
    requires t.x < |m| && w[t.x] == m[t.x].(left := node)
    requires w[node].left == s && w[node].right == s && w[node].parent == t.x && w[node].red
    requires forall z :: 0 <= z < |m| && z != t.x && z != node ==> w[z] == m[z]
    ensures Linked(w, s, root, InL(c, t.x, t.red, t.r), Bin(Leaf, node, true, Leaf))
  {
    RepWithin(m, s, t);
    RepCWithin(m, s, root, c, t.x);
    RepFrame(m, w, s, t.r);
    RepCFrame(m, w, s, root, c, t.x);
  }

  lemma AttachRight(m: Mem, w: Mem, s: Node, root: Node, c: Ctx, t: Tree, node: Node)
    requires Linked(m, s, root, c, t) && t.Bin? && t.r.Leaf? && |w| == |m|
    requires node < |m| && node != s && node !in Elems(t) && node !in ElemsC(c)
    requires t.x < |m| && w[t.x] == m[t.x].(right := node)
    requires w[node].left == s && w[node].right == s && w[node].parent == t.x && w[node].red
    requires forall z :: 0 <= z < |m| && z != t.x && z != node ==> w[z] == m[z]
    ensures Linked(w, s, root, InR(t.l, t.x, t.red, c), Bin(Leaf, node, true, Leaf))
  {
    RepWithin(m, s, t);
    RepCWithin(m, s, root, c, t.x);
    RepFrame(m, w, s, t.l);
    RepCFrame(m, w, s, root, c, t.x);
  }

  // ----- looking up -----

  /** What the code reads around a focus whose parent is red: the grandparent, the side, the uncle. */
  lemma Elders(m: Mem, s: Node, root: Node, c: Ctx, t: Tree, h: nat)
    requires Linked(m, s, root, c, t) && InsertState(c, t, h) && UnderRed(c)
    ensures !c.up.Top? && t.x < |m| && c.x < |m| && c.up.x < |m| && s < |m| && !m[s].red
    ensures m[t.x].parent == c.x && m[c.x].parent == c.up.x && c.x != s
    ensures (c.InL? <==> m[c.x].left == t.x) && (c.InR? <==> m[c.x].right == t.x)
    ensures c.up.InL? <==> m[c.up.x].left == c.x
    ensures c.up.InL? ==> m[c.up.x].right == RootOf(s, Uncle(c))
    ensures c.up.InR? ==> m[c.up.x].left == RootOf(s, Uncle(c))
    ensures RootOf(s, Uncle(c)) < |m| && m[RootOf(s, Uncle(c))].red == IsRed(Uncle(c))
    ensures Linked(m, s, root, c.up, Parental(c, t)) && Linked(m, s, root, c.up.up, Grand(c, t))
  {
    GrandIsBlack(c, t, h);
    Around(m, s, root, c, t);
    FocusUp(m, s, root, c, t);
    Around(m, s, root, c.up, Parental(c, t));
    FocusUp(m, s, root, c.up, Parental(c, t));
    Below(m, s, Grand(c, t));
    if Uncle(c).Bin? {
      Below(m, s, Uncle(c));
    }
  }

  lemma RecolorInorder(c: Ctx, t: Tree)
    requires !c.Top? && !c.up.Top?
    ensures Inorder(Plug(c.up.up, Recolored(c, t))) == Inorder(Plug(c, t))
  {
    PlugInorder(c.up.up, Recolored(c, t), Grand(c, t));
  }

  /** An empty place in a red-black tree takes a red leaf. */
  lemma LeafPlace(c: Ctx, node: Node) returns (h: nat)
    requires RedBlack(Plug(c, Leaf))
    ensures InsertState(c, Bin(Leaf, node, true, Leaf), h)
  {
    var hh :| Good(Plug(c, Leaf), hh);
    h := Disassemble(c, Leaf, hh);
  }

  lemma InsertEnds(c: Ctx, t: Tree, h: nat)
    requires InsertState(c, t, h) && !UnderRed(c)
    ensures Plug(c, t).Bin? && RedBlack(Blacken(Plug(c, t))) && Inorder(Blacken(Plug(c, t))) == Inorder(Plug(c, t))
  {
    var hh := Assemble(c, t, h);
    hh := BlackenGood(Plug(c, t), hh);
    ElemsPlug(c, t);
  }

  lemma AloneInTree(m: Mem, w: Mem, s: Node, timer: bool, node: Node)
    requires s < |m| && node < |m| && node != s && !m[s].red
    requires w == m[node := Cell(m[node].key, s, s, NULL, false)]
    ensures Linked(w, s, node, Top, Bin(Leaf, node, false, Leaf)) && RedBlack(Bin(Leaf, node, false, Leaf))
    ensures Placed(w, timer, [], node, 0)
  {
    assert Good(Bin(Leaf, node, false, Leaf), 1);
    assert [] + [node] + [] == [node];
  }

  lemma InsertHere(m: Mem, s: Node, root: Node, c: Ctx, t: Tree, h: nat)
    requires Linked(m, s, root, c, t) && InsertState(c, t, h)
    ensures t.Bin? && t.x < |m| && (c.Top? <==> t.x == root)
    ensures !c.Top? ==> m[t.x].parent == c.x < |m| && m[c.x].red == c.red
    ensures UnderRed(c) ==> !c.up.Top?
  {
    Around(m, s, root, c, t);
  }
}
