/** The red-black tree with parent links and one shared sentinel. */
module RBTree {
  import opened RBShape
  import opened RBRules
  import opened RBOrder
  import opened RBFacts
  import opened RBInsert
  import opened RBDelete

  class Tree {
    const pool: array<Cell>        // the memory that all nodes live in
    const sentinel: Node
    const timer: bool              // which insert function the tree was initialised with
    var root: Node

    ghost var shape: RBShape.Tree

    ghost predicate Focused(c: Ctx, t: RBShape.Tree)
      reads this, pool
    {
      Linked(pool[..], sentinel, root, c, t)
    }

    /** The links form `shape`, which obeys the colour rules; parent links are right for every node
        but the root, whose parent link is not used. */
    ghost predicate Valid()
      reads this, pool
    {
      Focused(Top, shape) && RedBlack(shape)
    }

    ghost function Contents(): seq<Node>
      reads this
    {
      Inorder(shape)
    }

    // ngx_rbtree_init: an empty tree, its sentinel black.
    constructor (memory: array<Cell>, s: Node, isTimer: bool)
      requires s < memory.Length
      modifies memory
      ensures Valid() && Contents() == [] && pool == memory && sentinel == s && timer == isTimer
      ensures memory[..] == old(memory[..])[s := old(memory[s]).(red := false)]
    {
      pool, sentinel, timer := memory, s, isTimer;
      root, shape := s, Leaf;
      new;
      memory[s] := memory[s].(red := false);
      assert Good(shape, 0);
    }

    // ngx_rbt_red and ngx_rbt_black
    method SetRed(x: Node, red: bool, ghost c: Ctx, ghost t: RBShape.Tree)
      requires Focused(c, t) && x in Elems(t)
      modifies pool
      ensures Focused(c, Paint(t, x, red)) && OnlyLinks(old(pool[..]), pool[..])
      ensures x < pool.Length && pool[..] == old(pool[..])[x := old(pool[x]).(red := red)]
    {
      PaintLinked(pool[..], sentinel, root, c, t, x, red);
      pool[x] := pool[x].(red := red);
    }

    // Where node hung below its parent, `temp` hangs now; without a parent, the root is `temp`.
    // (The right rotation of the source tests the two sides in the other order.)
    method HangBelow(node: Node, temp: Node, ghost c: Ctx)
      requires node < pool.Length && (c.Top? <==> node == root)
      requires !c.Top? ==>
        && c.x < pool.Length && pool[node].parent == c.x
        && (c.InL? <==> pool[c.x].left == node) && (c.InR? <==> pool[c.x].right == node)
      modifies this`root, pool
      ensures root == (if c.Top? then temp else old(root))
      ensures pool[..] == Hung(old(pool[..]), c, temp)
    {
      var parent := pool[node].parent;
      if node == root {
        root := temp;
      } else if node == pool[parent].left {
        pool[parent] := pool[parent].(left := temp);
      } else {
        pool[parent] := pool[parent].(right := temp);
      }
    }

    method LeftRotate(node: Node, ghost c: Ctx, ghost t: RBShape.Tree)
      requires Focused(c, t) && t.Bin? && t.x == node && t.r.Bin?
      modifies this`root, pool
      ensures Focused(c, RotatedLeft(t)) && OnlyLinks(old(pool[..]), pool[..])
      ensures pool[sentinel] == old(pool[sentinel])
    {
      hide Linked, Rewritten;
      ghost var m, r0 := pool[..], root;
      LeftPlaces(m, sentinel, root, c, t);
      var temp := pool[node].right;
      pool[node] := pool[node].(right := pool[temp].left);
      if pool[temp].left != sentinel {
        pool[pool[temp].left] := pool[pool[temp].left].(parent := node);
      }
      pool[temp] := pool[temp].(parent := pool[node].parent);
      HangBelow(node, temp, c);
      pool[temp] := pool[temp].(left := node);
      pool[node] := pool[node].(parent := temp);
      assert pool[..] == LeftWrites(m, sentinel, c, node, temp);
      LeftWritten(m, sentinel, r0, root, c, t);
      LeftRotation(m, pool[..], sentinel, r0, root, c, t);
    }

    method RightRotate(node: Node, ghost c: Ctx, ghost t: RBShape.Tree)
      requires Focused(c, t) && t.Bin? && t.x == node && t.l.Bin?
      modifies this`root, pool
      ensures Focused(c, RotatedRight(t)) && OnlyLinks(old(pool[..]), pool[..])
      ensures pool[sentinel] == old(pool[sentinel])
    {
      hide Linked, Rewritten;
      ghost var m, r0 := pool[..], root;
      RightPlaces(m, sentinel, root, c, t);
      var temp := pool[node].left;
      pool[node] := pool[node].(left := pool[temp].right);
      if pool[temp].right != sentinel {
        pool[pool[temp].right] := pool[pool[temp].right].(parent := node);
      }
      pool[temp] := pool[temp].(parent := pool[node].parent);
      HangBelow(node, temp, c);
      pool[temp] := pool[temp].(right := node);
      pool[node] := pool[node].(parent := temp);
      assert pool[..] == RightWrites(m, sentinel, c, node, temp);
      RightWritten(m, sentinel, r0, root, c, t);
      RightRotation(m, pool[..], sentinel, r0, root, c, t);
    }

    // ----- insertion -----

    // The new node goes down to a free place, as a red leaf. (One method for the two insert functions,
    // which differ in the comparison.)
    method InsertValue(root0: Node, node: Node) returns (ghost c: Ctx)
      requires Valid() && root0 == root && root != sentinel
      requires node < pool.Length && node != sentinel && node !in Elems(shape)
      modifies pool
      ensures Plug(c, Leaf) == shape && Fits(old(pool[..]), timer, c, Leaf, node)
      ensures Focused(c, Bin(Leaf, node, true, Leaf)) && OnlyLinks(old(pool[..]), pool[..])
    {
      hide Linked, Fits;
      ghost var m := pool[..];
      var temp := root0;
      c := Top;
      ghost var t := shape;
      FitsTop(m, timer, t, node);
      AtRoot(m, sentinel, root, t);
      var goLeft;
      while true
        invariant pool[..] == m && Focused(c, t) && t.Bin? && t.x == temp && Plug(c, t) == shape
        invariant Fits(m, timer, c, t, node)
        decreases t
      {
        FocusDown(m, sentinel, root, c, t);
        goLeft := Less(timer, pool[node].key, pool[temp].key);
        var p := if goLeft then pool[temp].left else pool[temp].right;
        if p == sentinel {
          break;
        }
        if goLeft {
          FitsLeft(m, timer, c, t, node);
          c, t := InL(c, t.x, t.red, t.r), t.l;
        } else {
          FitsRight(m, timer, c, t, node);
          c, t := InR(t.l, t.x, t.red, c), t.r;
        }
        temp := p;
      }
      ElemsPlug(c, t);
      if goLeft {
        FitsLeft(m, timer, c, t, node);
        pool[temp] := pool[temp].(left := node);
      } else {
        FitsRight(m, timer, c, t, node);
        pool[temp] := pool[temp].(right := node);
      }
      pool[node] := pool[node].(parent := temp, left := sentinel, right := sentinel, red := true);
      if goLeft {
        AttachLeft(m, pool[..], sentinel, root, c, t, node);
        c := InL(c, t.x, t.red, t.r);
      } else {
        AttachRight(m, pool[..], sentinel, root, c, t, node);
        c := InR(t.l, t.x, t.red, c);
      }
    }

    // Three colours change; the walk goes on from the grandparent.
    method Recolor(node: Node, temp: Node, ghost c: Ctx, ghost t: RBShape.Tree, ghost h: nat) returns (up: Node)
      requires Focused(c, t) && InsertState(c, t, h) && t.x == node && UnderRed(c) && !c.up.Top?
      requires IsRed(Uncle(c)) && temp == Uncle(c).x
      modifies pool
      ensures OnlyLinks(old(pool[..]), pool[..])
      ensures Focused(c.up.up, Recolored(c, t)) && up == c.up.x
    {
      hide Linked;
      Elders(pool[..], sentinel, root, c, t, h);
      ghost var g := Grand(c, t);
      Colours(pool[..], sentinel, root, c.up.up, g, false);
      SetRed(pool[node].parent, false, c.up.up, g);
      g := Paint(g, c.x, false);
      Colours(pool[..], sentinel, root, c.up.up, g, false);
      SetRed(temp, false, c.up.up, g);
      g := Paint(g, temp, false);
      Colours(pool[..], sentinel, root, c.up.up, g, true);
      SetRed(pool[pool[node].parent].parent, true, c.up.up, g);
      up := pool[pool[node].parent].parent;
    }

    // A black uncle: the inner grandchild is first turned outward.
    method TurnLeft(node: Node, ghost c: Ctx, ghost t: RBShape.Tree, ghost h: nat)
      returns (n: Node, ghost d: Ctx, ghost u: RBShape.Tree)
      requires Focused(c, t) && InsertState(c, t, h) && t.x == node && UnderRed(c) && !c.up.Top?
      requires c.InR? && c.up.InL?
      modifies this`root, pool
      ensures OnlyLinks(old(pool[..]), pool[..])
      ensures Focused(d, u) && InsertState(d, u, h) && u.x == n && UnderRed(d) && d.InL? && d.up == c.up
      ensures Inorder(Plug(d, u)) == Inorder(Plug(c, t))
    {
      hide Linked;
      Elders(pool[..], sentinel, root, c, t, h);
      n := pool[node].parent;
      ghost var p := Parental(c, t);
      LeftRotate(n, c.up, p);
      TurnOutward(c, t, h);
      RotateInorder(p);
      PlugInorder(c.up, p, RotatedLeft(p));
      FocusLeft(pool[..], sentinel, root, c.up, RotatedLeft(p));
      d, u := InL(c.up, t.x, t.red, t.r), Bin(c.l, c.x, c.red, t.l);
    }

    method TurnRight(node: Node, ghost c: Ctx, ghost t: RBShape.Tree, ghost h: nat)
      returns (n: Node, ghost d: Ctx, ghost u: RBShape.Tree)
      requires Focused(c, t) && InsertState(c, t, h) && t.x == node && UnderRed(c) && !c.up.Top?
      requires c.InL? && c.up.InR?
      modifies this`root, pool
      ensures OnlyLinks(old(pool[..]), pool[..])
      ensures Focused(d, u) && InsertState(d, u, h) && u.x == n && UnderRed(d) && d.InR? && d.up == c.up
      ensures Inorder(Plug(d, u)) == Inorder(Plug(c, t))
    {
      hide Linked;
      Elders(pool[..], sentinel, root, c, t, h);
      n := pool[node].parent;
      ghost var p := Parental(c, t);
      RightRotate(n, c.up, p);
      TurnOutward(c, t, h);
      RotateInorder(RotatedRight(p));
      PlugInorder(c.up, p, RotatedRight(p));
      FocusRight(pool[..], sentinel, root, c.up, RotatedRight(p));
      d, u := InR(t.l, t.x, t.red, c.up), Bin(t.r, c.x, c.red, c.r);
    }

    // The outer grandchild under a black uncle: two colours and one rotation, and the loop ends.
    method LiftRight(node: Node, ghost c: Ctx, ghost t: RBShape.Tree, ghost h: nat) returns (ghost d: Ctx)
      requires Focused(c, t) && InsertState(c, t, h) && t.x == node && UnderRed(c) && !c.up.Top?
      requires c.InL? && c.up.InL? && !IsRed(Uncle(c))
      modifies this`root, pool
      ensures OnlyLinks(old(pool[..]), pool[..])
      ensures Focused(d, t) && InsertState(d, t, h) && UnderBlack(d)
      ensures Inorder(Plug(d, t)) == Inorder(Plug(c, t))
    {
      hide Linked;
      Elders(pool[..], sentinel, root, c, t, h);
      RotateEndsInsert(c, t, h);
      ghost var g := Grand(c, t);
      Colours(pool[..], sentinel, root, c.up.up, g, false);
      SetRed(pool[node].parent, false, c.up.up, g);
      g := Paint(g, c.x, false);
      Colours(pool[..], sentinel, root, c.up.up, g, true);
      SetRed(pool[pool[node].parent].parent, true, c.up.up, g);
      g := Paint(g, c.up.x, true);
      RightRotate(pool[pool[node].parent].parent, c.up.up, g);
      RotateInorder(RotatedRight(g));
      PlugInorder(c.up.up, Grand(c, t), RotatedRight(g));
      FocusLeft(pool[..], sentinel, root, c.up.up, RotatedRight(g));
      d := InL(c.up.up, c.x, false, Bin(c.r, c.up.x, true, c.up.r));
    }

    method LiftLeft(node: Node, ghost c: Ctx, ghost t: RBShape.Tree, ghost h: nat) returns (ghost d: Ctx)
      requires Focused(c, t) && InsertState(c, t, h) && t.x == node && UnderRed(c) && !c.up.Top?
      requires c.InR? && c.up.InR? && !IsRed(Uncle(c))
      modifies this`root, pool
      ensures OnlyLinks(old(pool[..]), pool[..])
      ensures Focused(d, t) && InsertState(d, t, h) && UnderBlack(d)
      ensures Inorder(Plug(d, t)) == Inorder(Plug(c, t))
    {
      hide Linked;
      Elders(pool[..], sentinel, root, c, t, h);
      RotateEndsInsert(c, t, h);
      ghost var g := Grand(c, t);
      Colours(pool[..], sentinel, root, c.up.up, g, false);
      SetRed(pool[node].parent, false, c.up.up, g);
      g := Paint(g, c.x, false);
      Colours(pool[..], sentinel, root, c.up.up, g, true);
      SetRed(pool[pool[node].parent].parent, true, c.up.up, g);
      g := Paint(g, c.up.x, true);
      LeftRotate(pool[pool[node].parent].parent, c.up.up, g);
      RotateInorder(g);
      PlugInorder(c.up.up, Grand(c, t), RotatedLeft(g));
      FocusRight(pool[..], sentinel, root, c.up.up, RotatedLeft(g));
      d := InR(Bin(c.up.l, c.up.x, true, c.l), c.x, false, c.up.up);
    }

    // One round of the loop when the parent is a left child.
    method ParentOnLeft(node: Node, ghost c: Ctx, ghost t: RBShape.Tree, ghost h: nat)
      returns (n: Node, ghost d: Ctx, ghost u: RBShape.Tree, ghost k: nat)
      requires Focused(c, t) && InsertState(c, t, h) && t.x == node && UnderRed(c) && !c.up.Top? && c.up.InL?
      modifies this`root, pool
      ensures OnlyLinks(old(pool[..]), pool[..])
      ensures Focused(d, u) && InsertState(d, u, k) && u.x == n && Inorder(Plug(d, u)) == Inorder(Plug(c, t))
      ensures UnderRed(d) ==> Depth(d) < Depth(c)
    {
      hide Linked;
      Elders(pool[..], sentinel, root, c, t, h);
      n, d, u, k := node, c, t, h;
      var temp := pool[pool[pool[n].parent].parent].right;
      if pool[temp].red {
        RecolorKeeps(c, t, h);
        RecolorInorder(c, t);
        n := Recolor(n, temp, c, t, h);
        d, u, k := c.up.up, Recolored(c, t), h + 1;
      } else {
        if n == pool[pool[n].parent].right {
          n, d, u := TurnLeft(n, c, t, h);
        }
        d := LiftRight(n, d, u, h);
      }
    }

    method ParentOnRight(node: Node, ghost c: Ctx, ghost t: RBShape.Tree, ghost h: nat)
      returns (n: Node, ghost d: Ctx, ghost u: RBShape.Tree, ghost k: nat)
      requires Focused(c, t) && InsertState(c, t, h) && t.x == node && UnderRed(c) && !c.up.Top? && c.up.InR?
      modifies this`root, pool
      ensures OnlyLinks(old(pool[..]), pool[..])
      ensures Focused(d, u) && InsertState(d, u, k) && u.x == n && Inorder(Plug(d, u)) == Inorder(Plug(c, t))
      ensures UnderRed(d) ==> Depth(d) < Depth(c)
    {
      hide Linked;
      Elders(pool[..], sentinel, root, c, t, h);
      n, d, u, k := node, c, t, h;
      var temp := pool[pool[pool[n].parent].parent].left;
      if pool[temp].red {
        RecolorKeeps(c, t, h);
        RecolorInorder(c, t);
        n := Recolor(n, temp, c, t, h);
        d, u, k := c.up.up, Recolored(c, t), h + 1;
      } else {
        if n == pool[pool[n].parent].left {
          n, d, u := TurnRight(n, c, t, h);
        }
        d := LiftLeft(n, d, u, h);
      }
    }

    method Rebalance(node: Node, ghost c0: Ctx, ghost t0: RBShape.Tree, ghost h0: nat)
      requires Focused(c0, t0) && InsertState(c0, t0, h0) && t0.x == node
      modifies this, pool
      ensures Valid() && OnlyLinks(old(pool[..]), pool[..])
      ensures Contents() == Inorder(Plug(c0, t0))
    {
      hide Linked, InsertState;
      ghost var c, t, h := c0, t0, h0;
      var n := node;
      InsertHere(pool[..], sentinel, root, c, t, h);
      while n != root && pool[pool[n].parent].red
        invariant Focused(c, t) && InsertState(c, t, h) && t.Bin? && t.x == n
        invariant Inorder(Plug(c, t)) == Inorder(Plug(c0, t0)) && OnlyLinks(old(pool[..]), pool[..])
        invariant n < pool.Length && (c.Top? <==> n == root)
        invariant !c.Top? ==> pool[n].parent == c.x < pool.Length && pool[c.x].red == c.red
        decreases if UnderRed(c) then Depth(c) + 1 else 0
      {
        Elders(pool[..], sentinel, root, c, t, h);
        if pool[n].parent == pool[pool[pool[n].parent].parent].left {
          n, c, t, h := ParentOnLeft(n, c, t, h);
        } else {
          n, c, t, h := ParentOnRight(n, c, t, h);
        }
        InsertHere(pool[..], sentinel, root, c, t, h);
      }
      BlackenRoot(c, t, h);
    }

    method BlackenRoot(ghost c: Ctx, ghost t: RBShape.Tree, ghost h: nat)
      requires Focused(c, t) && InsertState(c, t, h) && !UnderRed(c)
      modifies this, pool
      ensures root == old(root) && Valid() && OnlyLinks(old(pool[..]), pool[..])
      ensures Contents() == Inorder(Plug(c, t))
    {
      hide Linked;
      FocusTop(pool[..], sentinel, root, c, t);
      InsertEnds(c, t, h);
      shape := Plug(c, t);
      AtRoot(pool[..], sentinel, root, shape);
      Colours(pool[..], sentinel, root, Top, shape, false);
      SetRed(root, false, Top, shape);
      shape := Blacken(shape);
    }

    // The first node of an empty tree.
    method InsertFirst(node: Node)
      requires Valid() && root == sentinel && node < pool.Length && node != sentinel
      modifies this, pool
      ensures Valid() && OnlyLinks(old(pool[..]), pool[..])
      ensures old(Contents()) == [] && Contents() == [node] && Placed(pool[..], timer, [], node, 0)
    {
      AtRoot(pool[..], sentinel, root, shape);
      ghost var m := pool[..];
      pool[node] := pool[node].(parent := NULL, left := sentinel, right := sentinel, red := false);
      root := node;
      shape := Bin(Leaf, node, false, Leaf);
      AloneInTree(m, pool[..], sentinel, timer, node);
    }

    /** Insertion puts the node at its place in the order and keeps the rules of the tree. */
    method Insert(node: Node) returns (ghost i: nat)
      requires Valid() && node < pool.Length && node != sentinel && node !in Contents()
      modifies this, pool
      ensures Valid() && OnlyLinks(old(pool[..]), pool[..])
      ensures Placed(pool[..], timer, old(Contents()), node, i) && i <= |old(Contents())|
      ensures Contents() == old(Contents())[..i] + [node] + old(Contents())[i..]
    {
      hide Linked, Fits, Placed;
      ghost var m, s := pool[..], shape;
      ElemsInorder(s);
      if root == sentinel {
        InsertFirst(node);
        i := 0;
        return;
      }
      ghost var c := InsertValue(root, node);
      ghost var t := Bin(Leaf, node, true, Leaf);
      ghost var h := LeafPlace(c, node);
      Rebalance(node, c, t, h);
      PlaceFound(m, pool[..], timer, c, node);
      InorderPlug(c, t);
      i := |Before(c)|;
    }

    // ----- deletion -----

    // The focus is one black short, and `temp` is its root: the node the fixup works on.
    ghost predicate Placeable(c: Ctx, t: RBShape.Tree, h: nat, temp: Node)
      reads this, pool
    {
      && Focused(c, t) && Short(c, t, h) && temp == RootOf(sentinel, t) && sentinel < pool.Length
      && (!c.Top? && t.Leaf? ==> pool[sentinel].parent == c.x)
    }

    ghost predicate Hole(c: Ctx, t: RBShape.Tree, h: nat, temp: Node)
      reads this, pool
    {
      Placeable(c, t, h, temp) && !c.Top? && !IsRed(t)
    }

    // The red sibling on the right turns black and is rotated above the parent.
    method RedOnRight(temp: Node, ghost c: Ctx, ghost t: RBShape.Tree, ghost h: nat) returns (ghost d: Ctx)
      requires Hole(c, t, h, temp) && c.InL? && IsRed(c.r)
      modifies this`root, pool
      ensures OnlyLinks(old(pool[..]), pool[..]) && Hole(d, t, h, temp)
      ensures d.InL? && d.red && !IsRed(d.r) && Inorder(Plug(d, t)) == Inorder(Plug(c, t))
    {
      hide Linked, Good;
      Kin(pool[..], sentinel, root, c, t, h);
      SiblingExists(c, t, h);
      RedSibling(c, t, h);
      ghost var p := Parental(c, t);
      Colours(pool[..], sentinel, root, c.up, p, false);
      SetRed(pool[pool[temp].parent].right, false, c.up, p);
      p := Paint(p, c.r.x, false);
      Colours(pool[..], sentinel, root, c.up, p, true);
      SetRed(pool[temp].parent, true, c.up, p);
      p := Paint(p, c.x, true);
      LeftRotate(pool[temp].parent, c.up, p);
      RotateInorder(p);
      PlugInorder(c.up, Parental(c, t), RotatedLeft(p));
      FocusLeft(pool[..], sentinel, root, c.up, RotatedLeft(p));
      d := InL(c.up, c.r.x, false, c.r.r);
      FocusLeft(pool[..], sentinel, root, d, RotatedLeft(p).l);
      d := InL(d, c.x, true, c.r.l);
    }

    // A black sibling with two black children turns red; the parent is short now.
    method PassUpFromLeft(temp: Node, ghost c: Ctx, ghost t: RBShape.Tree, ghost h: nat)
      returns (n: Node, ghost u: RBShape.Tree, ghost k: nat)
      requires Hole(c, t, h, temp) && c.InL? && c.r.Bin? && !c.r.red && !IsRed(c.r.l) && !IsRed(c.r.r)
      modifies this`root, pool
      ensures OnlyLinks(old(pool[..]), pool[..]) && Placeable(c.up, u, k, n)
      ensures IsRed(u) == c.red && Inorder(Plug(c.up, u)) == Inorder(Plug(c, t))
    {
      hide Linked, Good;
      Kin(pool[..], sentinel, root, c, t, h);
      PassUp(c, t, h);
      ghost var p := Parental(c, t);
      Colours(pool[..], sentinel, root, c.up, p, true);
      SetRed(pool[pool[temp].parent].right, true, c.up, p);
      u := Paint(p, c.r.x, true);
      PlugInorder(c.up, p, u);
      k := if c.red then h else h + 1;
      n := pool[temp].parent;
    }

    // The black sibling's near child alone is red: a rotation makes the far child red.
    method FarOnRight(temp: Node, ghost c: Ctx, ghost t: RBShape.Tree, ghost h: nat) returns (ghost d: Ctx)
      requires Hole(c, t, h, temp) && c.InL? && c.r.Bin? && !c.r.red && IsRed(c.r.l) && !IsRed(c.r.r)
      modifies this`root, pool
      ensures OnlyLinks(old(pool[..]), pool[..]) && Hole(d, t, h, temp)
      ensures d.InL? && d.up == c.up && d.r.Bin? && !d.r.red && IsRed(d.r.r)
      ensures Inorder(Plug(d, t)) == Inorder(Plug(c, t))
    {
      hide Linked, Good, GoodC, Short;
      Kin(pool[..], sentinel, root, c, t, h);
      var w := pool[pool[temp].parent].right;
      FarChildRed(c, t, h);
      ghost var p := Parental(c, t);
      FocusRight(pool[..], sentinel, root, c.up, p);
      ghost var e, q := InR(t, c.x, c.red, c.up), c.r;
      Colours(pool[..], sentinel, root, e, q, false);
      SetRed(pool[w].left, false, e, q);
      q := Paint(q, c.r.l.x, false);
      Colours(pool[..], sentinel, root, e, q, true);
      SetRed(w, true, e, q);
      q := Paint(q, c.r.x, true);
      RightRotate(w, e, q);
      RotateInorder(RotatedRight(q));
      PlugInorder(e, c.r, RotatedRight(q));
      FocusUp(pool[..], sentinel, root, e, RotatedRight(q));
      d := InL(c.up, c.x, c.red, RotatedRight(q));
      FocusLeft(pool[..], sentinel, root, c.up, Parental(d, t));
    }

    // The sibling takes the parent's colour; the parent and the far child become black.
    method ColourForLeft(temp: Node, ghost c: Ctx, ghost t: RBShape.Tree, ghost h: nat) returns (ghost p: RBShape.Tree)
      requires Hole(c, t, h, temp) && c.InL? && c.r.Bin? && !c.r.red && IsRed(c.r.r)
      modifies pool
      ensures Focused(c.up, p) && OnlyLinks(old(pool[..]), pool[..])
      ensures p == Bin(t, c.x, false, Bin(c.r.l, c.r.x, c.red, Blacken(c.r.r)))
      ensures temp < pool.Length && pool[temp].parent == c.x
    {
      hide Linked, Good, GoodC, Short, Inorder, Plug;
      Kin(pool[..], sentinel, root, c, t, h);
      var w := pool[pool[temp].parent].right;
      p := Parental(c, t);
      Colours(pool[..], sentinel, root, c.up, p, c.red);
      SetRed(w, pool[pool[temp].parent].red, c.up, p);
      p := Paint(p, c.r.x, c.red);
      Colours(pool[..], sentinel, root, c.up, p, false);
      SetRed(pool[temp].parent, false, c.up, p);
      p := Paint(p, c.x, false);
      FarColours(pool[..], sentinel, root, c.up, p, false);
      SetRed(pool[w].right, false, c.up, p);
      p := Paint(p, c.r.r.x, false);
    }

    // The far child is red: the last rotation gives the left side its missing black node.
    method RepairLeft(temp: Node, ghost c: Ctx, ghost t: RBShape.Tree, ghost h: nat)
      returns (n: Node, ghost u: RBShape.Tree, ghost k: nat)
      requires Hole(c, t, h, temp) && c.InL? && c.r.Bin? && !c.r.red && IsRed(c.r.r)
      modifies this`root, pool
      ensures OnlyLinks(old(pool[..]), pool[..]) && Placeable(Top, u, k, n)
      ensures Inorder(u) == Inorder(Plug(c, t))
    {
      hide Linked, Good, GoodC, Short, Inorder, Plug;
      Repaired(c, t, h);
      ghost var p := ColourForLeft(temp, c, t, h);
      LeftRotate(pool[temp].parent, c.up, p);
      RepairInorder(c, t);
      u := Plug(c.up, RotatedLeft(p));
      k := Whole(pool[..], sentinel, root, c.up, RotatedLeft(p), if c.red then h + 1 else h + 2);
      n := root;
    }

    // One round of the fixup when the short side is a left child.
    method ShortOnLeft(temp: Node, ghost c0: Ctx, ghost t: RBShape.Tree, ghost h: nat)
      returns (n: Node, ghost d: Ctx, ghost u: RBShape.Tree, ghost k: nat)
      requires Hole(c0, t, h, temp) && c0.InL?
      modifies this`root, pool
      ensures OnlyLinks(old(pool[..]), pool[..]) && Placeable(d, u, k, n)
      ensures Inorder(Plug(d, u)) == Inorder(Plug(c0, t))
      ensures IsRed(u) || d.Top? || Depth(d) < Depth(c0)
    {
      hide Linked, Good;
      ghost var c := c0;
      Kin(pool[..], sentinel, root, c, t, h);
      var w := pool[pool[temp].parent].right;
      if pool[w].red {
        c := RedOnRight(temp, c, t, h);
        Kin(pool[..], sentinel, root, c, t, h);
        w := pool[pool[temp].parent].right;
      }
      if !pool[pool[w].left].red && !pool[pool[w].right].red {
        d := c.up;
        n, u, k := PassUpFromLeft(temp, c, t, h);
      } else {
        if !pool[pool[w].right].red {
          c := FarOnRight(temp, c, t, h);
        }
        d := Top;
        n, u, k := RepairLeft(temp, c, t, h);
      }
    }

    // The red sibling on the left turns black and is rotated above the parent.
    method RedOnLeft(temp: Node, ghost c: Ctx, ghost t: RBShape.Tree, ghost h: nat) returns (ghost d: Ctx)
      requires Hole(c, t, h, temp) && c.InR? && IsRed(c.l)
      modifies this`root, pool
      ensures OnlyLinks(old(pool[..]), pool[..]) && Hole(d, t, h, temp)
      ensures d.InR? && d.red && !IsRed(d.l) && Inorder(Plug(d, t)) == Inorder(Plug(c, t))
    {
      hide Linked, Good;
      Kin(pool[..], sentinel, root, c, t, h);
      SiblingExists(c, t, h);
      RedSibling(c, t, h);
      ghost var p := Parental(c, t);
      Colours(pool[..], sentinel, root, c.up, p, false);
      SetRed(pool[pool[temp].parent].left, false, c.up, p);
      p := Paint(p, c.l.x, false);
      Colours(pool[..], sentinel, root, c.up, p, true);
      SetRed(pool[temp].parent, true, c.up, p);
      p := Paint(p, c.x, true);
      RightRotate(pool[temp].parent, c.up, p);
      RotateInorder(RotatedRight(p));
      PlugInorder(c.up, Parental(c, t), RotatedRight(p));
      FocusRight(pool[..], sentinel, root, c.up, RotatedRight(p));
      d := InR(c.l.l, c.l.x, false, c.up);
      FocusRight(pool[..], sentinel, root, d, RotatedRight(p).r);
      d := InR(c.l.r, c.x, true, d);
    }

    // A black sibling with two black children turns red; the parent is short now.
    method PassUpFromRight(temp: Node, ghost c: Ctx, ghost t: RBShape.Tree, ghost h: nat)
      returns (n: Node, ghost u: RBShape.Tree, ghost k: nat)
      requires Hole(c, t, h, temp) && c.InR? && c.l.Bin? && !c.l.red && !IsRed(c.l.r) && !IsRed(c.l.l)
      modifies this`root, pool
      ensures OnlyLinks(old(pool[..]), pool[..]) && Placeable(c.up, u, k, n)
      ensures IsRed(u) == c.red && Inorder(Plug(c.up, u)) == Inorder(Plug(c, t))
    {
      hide Linked, Good;
      Kin(pool[..], sentinel, root, c, t, h);
      PassUp(c, t, h);
      ghost var p := Parental(c, t);
      Colours(pool[..], sentinel, root, c.up, p, true);
      SetRed(pool[pool[temp].parent].left, true, c.up, p);
      u := Paint(p, c.l.x, true);
      PlugInorder(c.up, p, u);
      k := if c.red then h else h + 1;
      n := pool[temp].parent;
    }

    // The black sibling's near child alone is red: a rotation makes the far child red.
    method FarOnLeft(temp: Node, ghost c: Ctx, ghost t: RBShape.Tree, ghost h: nat) returns (ghost d: Ctx)
      requires Hole(c, t, h, temp) && c.InR? && c.l.Bin? && !c.l.red && IsRed(c.l.r) && !IsRed(c.l.l)
      modifies this`root, pool
      ensures OnlyLinks(old(pool[..]), pool[..]) && Hole(d, t, h, temp)
      ensures d.InR? && d.up == c.up && d.l.Bin? && !d.l.red && IsRed(d.l.l)
      ensures Inorder(Plug(d, t)) == Inorder(Plug(c, t))
    {
      hide Linked, Good, GoodC, Short;
      Kin(pool[..], sentinel, root, c, t, h);
      var w := pool[pool[temp].parent].left;
      FarChildRed(c, t, h);
      ghost var p := Parental(c, t);
      FocusLeft(pool[..], sentinel, root, c.up, p);
      ghost var e, q := InL(c.up, c.x, c.red, t), c.l;
      Colours(pool[..], sentinel, root, e, q, false);
      SetRed(pool[w].right, false, e, q);
      q := Paint(q, c.l.r.x, false);
      Colours(pool[..], sentinel, root, e, q, true);
      SetRed(w, true, e, q);
      q := Paint(q, c.l.x, true);
      LeftRotate(w, e, q);
      RotateInorder(q);
      PlugInorder(e, c.l, RotatedLeft(q));
      FocusUp(pool[..], sentinel, root, e, RotatedLeft(q));
      d := InR(RotatedLeft(q), c.x, c.red, c.up);
      FocusRight(pool[..], sentinel, root, c.up, Parental(d, t));
    }

    // The sibling takes the parent's colour; the parent and the far child become black.
    method ColourForRight(temp: Node, ghost c: Ctx, ghost t: RBShape.Tree, ghost h: nat) returns (ghost p: RBShape.Tree)
      requires Hole(c, t, h, temp) && c.InR? && c.l.Bin? && !c.l.red && IsRed(c.l.l)
      modifies pool
      ensures Focused(c.up, p) && OnlyLinks(old(pool[..]), pool[..])
      ensures p == Bin(Bin(Blacken(c.l.l), c.l.x, c.red, c.l.r), c.x, false, t)
      ensures temp < pool.Length && pool[temp].parent == c.x
    {
      hide Linked, Good, GoodC, Short, Inorder, Plug;
      Kin(pool[..], sentinel, root, c, t, h);
      var w := pool[pool[temp].parent].left;
      p := Parental(c, t);
      Colours(pool[..], sentinel, root, c.up, p, c.red);
      SetRed(w, pool[pool[temp].parent].red, c.up, p);
      p := Paint(p, c.l.x, c.red);
      Colours(pool[..], sentinel, root, c.up, p, false);
      SetRed(pool[temp].parent, false, c.up, p);
      p := Paint(p, c.x, false);
      FarColours(pool[..], sentinel, root, c.up, p, false);
      SetRed(pool[w].left, false, c.up, p);
      p := Paint(p, c.l.l.x, false);
    }

    // The far child is red: the last rotation gives the right side its missing black node.
    method RepairRight(temp: Node, ghost c: Ctx, ghost t: RBShape.Tree, ghost h: nat)
      returns (n: Node, ghost u: RBShape.Tree, ghost k: nat)
      requires Hole(c, t, h, temp) && c.InR? && c.l.Bin? && !c.l.red && IsRed(c.l.l)
      modifies this`root, pool
      ensures OnlyLinks(old(pool[..]), pool[..]) && Placeable(Top, u, k, n)
      ensures Inorder(u) == Inorder(Plug(c, t))
    {
      hide Linked, Good, GoodC, Short, Inorder, Plug;
      Repaired(c, t, h);
      ghost var p := ColourForRight(temp, c, t, h);
      RightRotate(pool[temp].parent, c.up, p);
      RepairInorder(c, t);
      u := Plug(c.up, RotatedRight(p));
      k := Whole(pool[..], sentinel, root, c.up, RotatedRight(p), if c.red then h + 1 else h + 2);
      n := root;
    }

    // One round of the fixup when the short side is a right child.
    method ShortOnRight(temp: Node, ghost c0: Ctx, ghost t: RBShape.Tree, ghost h: nat)
      returns (n: Node, ghost d: Ctx, ghost u: RBShape.Tree, ghost k: nat)
      requires Hole(c0, t, h, temp) && c0.InR?
      modifies this`root, pool
      ensures OnlyLinks(old(pool[..]), pool[..]) && Placeable(d, u, k, n)
      ensures Inorder(Plug(d, u)) == Inorder(Plug(c0, t))
      ensures IsRed(u) || d.Top? || Depth(d) < Depth(c0)
    {
      hide Linked, Good;
      ghost var c := c0;
      Kin(pool[..], sentinel, root, c, t, h);
      var w := pool[pool[temp].parent].left;
      if pool[w].red {
        c := RedOnLeft(temp, c, t, h);
        Kin(pool[..], sentinel, root, c, t, h);
        w := pool[pool[temp].parent].left;
      }
      if !pool[pool[w].right].red && !pool[pool[w].left].red {
        d := c.up;
        n, u, k := PassUpFromRight(temp, c, t, h);
      } else {
        if !pool[pool[w].left].red {
          c := FarOnLeft(temp, c, t, h);
        }
        d := Top;
        n, u, k := RepairRight(temp, c, t, h);
      }
    }

    // The fixup loop.
    method FixDelete(temp0: Node, ghost c0: Ctx, ghost t0: RBShape.Tree, ghost h0: nat)
      requires Placeable(c0, t0, h0, temp0)
      modifies this, pool
      ensures Valid() && OnlyLinks(old(pool[..]), pool[..])
      ensures Contents() == Inorder(Plug(c0, t0))
    {
      hide Linked, Short;
      ghost var c, t, h := c0, t0, h0;
      var temp: Node := temp0;
      ShortHere(pool[..], sentinel, root, c, t, h);
      while temp != root && !pool[temp].red
        invariant Placeable(c, t, h, temp) && OnlyLinks(old(pool[..]), pool[..])
        invariant Inorder(Plug(c, t)) == Inorder(Plug(c0, t0))
        invariant temp < pool.Length && (c.Top? <==> temp == root) && pool[temp].red == IsRed(t)
        invariant !c.Top? ==> pool[temp].parent == c.x < pool.Length && (c.InL? <==> pool[c.x].left == temp)
        decreases if IsRed(t) || c.Top? then 0 else Depth(c) + 1
      {
        if temp == pool[pool[temp].parent].left {
          temp, c, t, h := ShortOnLeft(temp, c, t, h);
        } else {
          temp, c, t, h := ShortOnRight(temp, c, t, h);
        }
        ShortHere(pool[..], sentinel, root, c, t, h);
      }
      BlackenShort(temp, c, t, h);
    }

    method BlackenShort(temp: Node, ghost c: Ctx, ghost t: RBShape.Tree, ghost h: nat)
      requires Placeable(c, t, h, temp) && (IsRed(t) || c.Top?) && temp < pool.Length
      modifies this, pool
      ensures Valid() && OnlyLinks(old(pool[..]), pool[..])
      ensures Contents() == Inorder(Plug(c, t))
    {
      hide Linked, Short;
      EndShort(c, t, h);
      shape := Plug(c, Blacken(t));
      PlugInorder(c, t, Blacken(t));
      if temp != sentinel {
        Colours(pool[..], sentinel, root, c, t, false);
        SetRed(temp, false, c, t);
      } else {
        SentinelIsBlack(pool[..], sentinel, root, c, t);
        ghost var m := pool[..];
        pool[temp] := pool[temp].(red := false);
        assert pool[..] == m;
      }
      FocusTop(pool[..], sentinel, root, c, Blacken(t));
    }

    // ngx_rbtree_min
    method Min(node: Node, ghost c: Ctx, ghost t: RBShape.Tree) returns (n: Node, ghost e: Ctx, ghost u: RBShape.Tree)
      requires Focused(c, t) && t.Bin? && t.x == node
      ensures Focused(e, u) && u.Bin? && u.l.Leaf? && u.x == n && Plug(e, u) == Plug(c, t)
      ensures Before(e) == Before(c) && Seat(e) == Seat(c) && (!c.Top? ==> !e.Top?)
      ensures n == ItemAt(Inorder(t), 0)
    {
      hide Linked;
      n, e, u := node, c, t;
      FocusDown(pool[..], sentinel, root, e, u);
      while pool[n].left != sentinel
        invariant Focused(e, u) && u.Bin? && u.x == n && n < pool.Length && Plug(e, u) == Plug(c, t)
        invariant if pool[n].left == sentinel then u.l.Leaf? else u.l.Bin? && u.l.x == pool[n].left
        invariant Focused(InL(e, u.x, u.red, u.r), u.l)
        invariant Before(e) == Before(c) && Seat(e) == Seat(c) && (!c.Top? ==> !e.Top?)
        decreases u
      {
        n, e, u := pool[n].left, InL(e, u.x, u.red, u.r), u.l;
        FocusDown(pool[..], sentinel, root, e, u);
      }
      FirstInOrder(c, t, e, u);
    }

    /** The next node in order, or none after the last. */
    method Next(node0: Node) returns (r: int)
      requires Valid() && node0 in Contents()
      ensures exists i: nat :: i < |Contents()| && Contents()[i] == node0 && r == ItemAt(Contents(), i + 1)
    {
      hide Linked;
      ElemsInorder(shape);
      ghost var c, t := FocusOn(pool[..], sentinel, root, Top, shape, node0);
      FocusDown(pool[..], sentinel, root, c, t);
      InorderPlug(c, t);
      ghost var i: nat := |Before(c)| + |Inorder(t.l)|;
      assert Contents()[i] == node0;
      if pool[node0].right != sentinel {
        ghost var e, u;
        r, e, u := Min(pool[node0].right, InR(t.l, t.x, t.red, c), t.r);
        assert r == ItemAt(Contents(), i + 1);
        return;
      }
      var node := node0;
      assert Inorder(t.r) == [];
      while true
        invariant Focused(c, t) && t.Bin? && t.x == node && Plug(c, t) == shape
        invariant |Before(c)| + |Inorder(t)| == i + 1
        decreases Depth(c)
      {
        Around(pool[..], sentinel, root, c, t);
        InorderPlug(c, t);
        var parent := pool[node].parent;
        if node == root {
          assert ItemAt(Contents(), i + 1) == NULL;
          return NULL;
        }
        FocusUp(pool[..], sentinel, root, c, t);
        if node == pool[parent].left {
          assert ItemAt(Contents(), i + 1) == parent;
          return parent;
        }
        node, c, t := parent, c.up, Bin(c.l, c.x, c.red, t);
      }
    }

    // Which node to splice out, and what hangs below it.
    method Choose(node: Node, ghost d: Ctx, ghost u: RBShape.Tree)
      returns (subst: Node, temp: Node, ghost e: Ctx, ghost v: RBShape.Tree, ghost q: RBShape.Tree)
      requires Focused(d, u) && u.Bin? && u.x == node
      ensures Focused(e, v) && OneSided(v, q) && v.x == subst && temp == RootOf(sentinel, q) && Plug(e, v) == Plug(d, u)
      ensures temp < pool.Length
      ensures subst == node ==> e == d && v == u
      ensures subst != node ==> v.l.Leaf? && q == v.r && Seat(e) == InR(u.l, node, u.red, d) && !e.Top?
    {
      hide Linked;
      FocusDown(pool[..], sentinel, root, d, u);
      if pool[node].left == sentinel {
        temp := pool[node].right;
        subst, e, v, q := node, d, u, u.r;
      } else if pool[node].right == sentinel {
        temp := pool[node].left;
        subst, e, v, q := node, d, u, u.l;
      } else {
        subst, e, v := Min(pool[node].right, InR(u.l, u.x, u.red, d), u.r);
        FocusDown(pool[..], sentinel, root, e, v);
        q := v.r;
        temp := pool[subst].right;
        SeatBelow(pool[..], sentinel, root, e, v);
      }
    }

    // The link above `subst`, which is not the root, leads to `temp` now.
    method Unhang(subst: Node, temp: Node, ghost c: Ctx, ghost v: RBShape.Tree)
      requires Focused(c, v) && v.Bin? && v.x == subst && !c.Top?
      modifies pool
      ensures c.x < pool.Length && pool[..] == Hung(old(pool[..]), c, temp)
    {
      hide Linked;
      Around(pool[..], sentinel, root, c, v);
      var parent := pool[subst].parent;
      if subst == pool[parent].left {
        pool[parent] := pool[parent].(left := temp);
      } else {
        pool[parent] := pool[parent].(right := temp);
      }
    }

    method Clear(node: Node)
      requires node < pool.Length
      modifies pool
      ensures pool[..] == old(pool[..])[node := Cell(0, NULL, NULL, NULL, old(pool[node]).red)]
    {
      pool[node] := pool[node].(left := NULL, right := NULL, parent := NULL, key := 0);
    }

    // The node itself is spliced out.
    method TakeOut(node: Node, temp: Node, ghost c: Ctx, ghost v: RBShape.Tree, ghost q: RBShape.Tree)
      requires Focused(c, v) && OneSided(v, q) && v.x == node && temp == RootOf(sentinel, q) && !c.Top?
      modifies pool
      ensures Focused(c, q) && OnlyClears(old(pool[..]), pool[..], node) && pool[node] == Cleared(pool[node].red)
      ensures sentinel < pool.Length && (q.Leaf? ==> pool[sentinel].parent == c.x)
    {
      hide Linked;
      ghost var m := pool[..];
      SpliceLinks(m, sentinel, root, c, v, q);
      Around(m, sentinel, root, c, v);
      Unhang(node, temp, c, v);
      pool[temp] := pool[temp].(parent := pool[node].parent);
      assert pool[..] == SpliceWrites(m, c, temp);
      ClearLinks(pool[..], sentinel, root, c, q, node, Cleared(pool[node].red));
      Clear(node);
      SentinelIsBlack(pool[..], sentinel, root, c, q);
    }

    // `subst` is spliced out and takes the place of the node.
    method TakeOutVia(node: Node, subst: Node, temp: Node, ghost c: Ctx, ghost v: RBShape.Tree)
      requires Focused(c, v) && v.Bin? && v.l.Leaf? && v.x == subst && temp == RootOf(sentinel, v.r)
      requires temp < pool.Length
      requires Seat(c).InR? && Seat(c).x == node && !c.Top? && node != subst
      modifies this`root, pool
      ensures Focused(Reseat(c, subst), v.r)
      ensures OnlyClears(old(pool[..]), pool[..], node) && pool[node] == Cleared(pool[node].red)
      ensures sentinel < pool.Length && (v.r.Leaf? ==> pool[sentinel].parent == Reseat(c, subst).x)
    {
      hide Linked, Swapped, SwapPlaces, SwapWrites;
      ghost var m, r0, d := pool[..], root, Seat(c).up;
      SpliceLinks(m, sentinel, root, c, v, v.r);
      ghost var w := SpliceWrites(m, c, temp);
      Around(m, sentinel, root, c, v);
      SwapPlaced(w, sentinel, root, c, v.r, subst);
      Unhang(subst, temp, c, v);
      ghost var p := if c.InR? then subst else c.x;
      if pool[subst].parent == node {
        pool[temp] := pool[temp].(parent := subst);
      } else {
        pool[temp] := pool[temp].(parent := pool[subst].parent);
      }
      assert pool[..] == w[temp := w[temp].(parent := p)];
      TakePlace(node, subst, temp, w, d, p);
      SwapWritten(w, sentinel, r0, root, d, node, subst, temp, p);
      SwapClears(w, sentinel, r0, d, node, subst, temp, p);
      hide SwapWrites, Hung, SpliceWrites;
      SwapLinks(w, pool[..], sentinel, r0, root, c, v.r, subst);
    }

    // `subst` gets the links and the colour of the node, and the neighbours of the node are told.
    method TakePlace(node: Node, subst: Node, temp: Node, ghost w: Mem, ghost d: Ctx, ghost p: Node)
      requires SwapPlaces(w, sentinel, root, d, node, subst, temp) && pool[..] == w[temp := w[temp].(parent := p)]
      modifies this`root, pool
      ensures SwapPlaces(w, sentinel, old(root), d, node, subst, temp)
      ensures pool[..] == SwapWrites(w, sentinel, d, node, subst, temp, p)
      ensures root == if d.Top? then subst else old(root)
    {
      pool[subst] := pool[subst].(left := pool[node].left, right := pool[node].right, parent := pool[node].parent,
                                  red := pool[node].red);
      HangBelow(node, subst, d);
      if pool[subst].left != sentinel {
        pool[pool[subst].left] := pool[pool[subst].left].(parent := subst);
      }
      if pool[subst].right != sentinel {
        pool[pool[subst].right] := pool[pool[subst].right].(parent := subst);
      }
      Clear(node);
    }

    /** Deletion takes the one node out of the order, clears its record and keeps the rules of the tree. */
    method Delete(node: Node) returns (ghost i: nat)
      requires Valid() && node in Contents()
      modifies this, pool
      ensures Valid() && OnlyClears(old(pool[..]), pool[..], node)
      ensures Without(old(Contents()), i, node, Contents())
    {
      hide Linked, Spliced, Without;
      ghost var m, s0 := pool[..], shape;
      ElemsInorder(shape);
      ghost var d, u := FocusOn(m, sentinel, root, Top, shape, node);
      var subst, temp;
      ghost var c, v, q;
      subst, temp, c, v, q := Choose(node, d, u);
      Around(m, sentinel, root, c, v);
      if subst == root {
        OrderSelf(c, v, q);
        i := |Inorder(v.l)|;
        DeleteRoot(node, temp, v, q);
        return;
      }
      ghost var h := SpliceRules(c, v, q);
      var red := pool[subst].red;
      if subst == node {
        OrderSelf(c, v, q);
        i := |Before(c)| + |Inorder(v.l)|;
        TakeOut(node, temp, c, v, q);
      } else {
        OrderVia(c, v);
        SplicedReseat(c, q, h, red, subst);
        i := |Before(c)| - 1;
        TakeOutVia(node, subst, temp, c, v);
        c := Reseat(c, subst);
      }
      if red {
        SplicedRed(c, q, h);
        FocusTop(pool[..], sentinel, root, c, q);
        shape := Plug(c, q);
        return;
      }
      FixDelete(temp, c, q, h);
    }

    // A root with one child at most: no rebalancing.
    method DeleteRoot(node: Node, temp: Node, ghost v: RBShape.Tree, ghost q: RBShape.Tree)
      requires Focused(Top, v) && OneSided(v, q) && v.x == node && temp == RootOf(sentinel, q) && RedBlack(v)
      modifies this, pool
      ensures Valid() && Contents() == Inorder(q)
      ensures OnlyClears(old(pool[..]), pool[..], node) && pool[node] == Cleared(pool[node].red)
    {
      hide Linked;
      SplicedRoot(v, q);
      RootLinks(pool[..], sentinel, root, v, q);
      ghost var m := pool[..];
      shape := Blacken(q);
      root := temp;
      if temp != sentinel {
        Colours(pool[..], sentinel, root, Top, q, false);
        SetRed(temp, false, Top, q);
      } else {
        pool[temp] := pool[temp].(red := false);
        assert pool[..] == m;
      }
      ClearLinks(pool[..], sentinel, root, Top, shape, node, Cleared(pool[node].red));
      Clear(node);
    }
  }
}
