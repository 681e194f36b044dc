/** The radix tree of 32-bit prefixes. */
module Radix {
  import opened Words
  import opened RadixShape

  // FAULT: the source follows a NULL pointer.
  datatype Status = OK | BUSY | ERROR | FAULT

  class RadixTree {
    var nodes: seq<Cell>       // the memory of the pages taken so far
    var root: Node
    var free: int
    var start: nat
    var size: nat              // room left in the last page, in nodes

    ghost var at: map<Bits, Node>
    ghost var freed: seq<Node>

    ghost predicate Owned()
      reads this
    {
      && Shaped(nodes, root, at) && FreeList(nodes, freed, free) && Conserved(at, freed, start)
      && start + size == |nodes|
    }

    /** Nodes are linked where their bits say, none is lost, and only useful ones are kept. */
    ghost predicate Valid()
      reads this
    {
      Owned() && LiveBut(nodes, at, [])
    }

    ghost function Routes(): map<Bits, nat>
      reads this
    {
      RoutesOf(nodes, at)
    }

    // ngx_radix_alloc: the free list first, then the page, then a new page
    method Alloc() returns (p: Node)
      requires Shaped(nodes, root, at) && FreeList(nodes, freed, free) && Conserved(at, freed, start)
      requires start + size == |nodes|
      modifies `nodes, `free, `start, `size, `freed
      ensures Shaped(nodes, root, at) && FreeList(nodes, freed, free) && start + size == |nodes|
      ensures p < start && p !in freed && (forall q :: q in at ==> at[q] != p && at[q] < start && at[q] !in freed)
      ensures (forall i :: 0 <= i < |freed| ==> freed[i] < start) && |at| + |freed| + 1 == start
      ensures old(nodes) <= nodes
    {
      if free != NULL {
        PopFree(nodes, freed, free);
        p := free;
        free := nodes[free].right;
        freed := freed[1..];
        return;
      }
      if size < 1 {
        ghost var m := nodes;
        var page := seq(PAGE_NODES, i => Cell(NULL, NULL, NULL, 0));
        nodes := nodes + page;
        GrowShape(m, nodes, root, at);
        start := |nodes| - PAGE_NODES;
        size := PAGE_NODES;
      }
      p := start;
      start := start + 1;
      size := size - 1;
    }

    constructor ()
      ensures Valid() && Routes() == map[]
    {
      nodes := seq(PAGE_NODES, i => Cell(NULL, NULL, NULL, NO_VALUE));
      root, free, start, size := 0, NULL, 1, PAGE_NODES - 1;
      at, freed := map[[] := 0], [];
      new;
      assert forall p {:trigger Below(at, p)} :: p in at ==> Below(at, p);
    }

    /** Inserting a prefix that has a route is refused; otherwise the route is added. */
    method Insert(key: nat, mask: nat, value: nat) returns (rc: Status)
      requires Valid() && value != NO_VALUE
      modifies this
      ensures Valid()
      ensures rc == if Prefix(key, mask) in old(Routes()) then BUSY else OK
      ensures Routes() == if rc == OK then old(Routes())[Prefix(key, mask) := value] else old(Routes())
    {
      hide Shaped, FreeList, Conserved, LiveBut, RoutesOf;
      RootNode(nodes, root, at);
      ghost var bits, len := BitsOf(key), MaskLength(mask, 0);
      var d := 0;
      var node := root;
      var next: int := root;
      while Test(mask, d)
        invariant d <= len && bits[..d] in at && at[bits[..d]] == node && next == node
        decreases len - d
        modifies {}
      {
        HasNode(nodes, root, at, bits[..d]);
        assert bits[..d + 1] == bits[..d] + [bits[d]];
        if Test(key, d) {
          next := nodes[node].right;
        } else {
          next := nodes[node].left;
        }
        if next == NULL {
          break;
        }
        d := d + 1;
        node := next;
      }
      if next != NULL {
        HasNode(nodes, root, at, bits[..d]);
        HasRoute(nodes, at, bits[..d]);
        if nodes[node].value != NO_VALUE {
          return BUSY;
        }
        LiveAnyway(nodes, at, bits[..d]);
        PutValue(node, value, bits[..d]);
        return OK;
      }
      NoRouteBelow(nodes, root, at, bits[..d + 1], bits[..len]);
      AddNodes(node, key, mask, value, d, bits, len);
      rc := OK;
    }

    // The missing nodes down to the end of the prefix, and the value at the end.
    method AddNodes(node0: Node, key: nat, mask: nat, value: nat, d0: nat, ghost bits: Bits, ghost len: nat)
      requires Valid() && value != NO_VALUE && bits == BitsOf(key) && len == MaskLength(mask, 0) && d0 < len
      requires bits[..d0] in at && at[bits[..d0]] == node0 && bits[..d0 + 1] !in at
      modifies this
      ensures Valid() && Routes() == old(Routes())[bits[..len] := value]
    {
      hide Shaped, FreeList, Conserved, LiveBut, RoutesOf;
      var d := d0;
      var node := node0;
      LiveAnyway(nodes, at, bits[..d]);
      while Test(mask, d)
        invariant d <= len && Owned() && LiveBut(nodes, at, bits[..d]) && Routes() == old(Routes())
        invariant bits[..d] in at && at[bits[..d]] == node && (d < len ==> bits[..d + 1] !in at)
        decreases len - d
      {
        assert bits[..d + 1] == bits[..d] + [bits[d]];
        if d + 1 < len {
          NoRouteBelow(nodes, root, at, bits[..d + 1], bits[..d + 2]);
        }
        node := AddNode(node, Test(key, d), bits[..d]);
        d := d + 1;
      }
      PutValue(node, value, bits[..d]);
    }

    method AddNode(node: Node, b: bool, ghost p: Bits) returns (next: Node)
      requires Owned() && LiveBut(nodes, at, p) && p in at && at[p] == node && p + [b] !in at && |p| < KEY_BITS
      modifies this
      ensures Owned() && LiveBut(nodes, at, p + [b]) && Routes() == old(Routes())
      ensures at == old(at)[p + [b] := next]
    {
      hide Shaped, FreeList, LiveBut, RoutesOf;
      ghost var m := nodes;
      next := Alloc();
      SamePages(m, nodes, root, at, p);
      HangNode(nodes, root, at, p, b, next);
      HungLive(nodes, root, at, p, b, next);
      HungOwned(nodes, at, freed, free, node, b, next);
      m := nodes;
      nodes := nodes[next := Cell(NULL, NULL, node, NO_VALUE)];
      if b {
        nodes := nodes[node := nodes[node].(right := next)];
      } else {
        nodes := nodes[node := nodes[node].(left := next)];
      }
      at := at[p + [b] := next];
      assert nodes == Hung(m, node, b, next);
    }

    method PutValue(node: Node, value: nat, ghost p: Bits)
      requires Owned() && LiveBut(nodes, at, p) && p in at && at[p] == node && value != NO_VALUE
      modifies `nodes
      ensures Valid() && Routes() == old(Routes())[p := value]
    {
      SetValueShape(nodes, root, at, p, value);
      SetValueRoutes(nodes, root, at, p, value);
      AllWithin(nodes, root, at);
      FreeFrame(nodes, nodes[node := nodes[node].(value := value)], freed, free);
      nodes := nodes[node := nodes[node].(value := value)];
    }

    /** Deleting a prefix that has a route removes it; there is nothing to delete otherwise. Only when /0 is to
        be deleted and no other prefix has a route, the source follows the NULL parent of the root. */
    method Delete(key: nat, mask: nat) returns (rc: Status)
      requires Valid()
      modifies this
      ensures Valid()
      ensures rc == FAULT <==> Prefix(key, mask) == [] && old(Routes()).Keys <= {[]}
      ensures rc == FAULT ==> nodes == old(nodes) && Routes() == old(Routes())
      ensures rc != FAULT ==> rc == if Prefix(key, mask) in old(Routes()) then OK else ERROR
      ensures rc != FAULT ==> Routes() == old(Routes()) - {Prefix(key, mask)}
    {
      hide Shaped, FreeList, Conserved, LiveBut, RoutesOf;
      LoneRoot(nodes, root, at);
      RootNode(nodes, root, at);
      ghost var bits, len := BitsOf(key), MaskLength(mask, 0);
      var d := 0;
      var node: int := root;
      while node != NULL && Test(mask, d)
        invariant d <= len && (if node == NULL then bits[..d] !in at else bits[..d] in at && at[bits[..d]] == node)
        decreases len - d
        modifies {}
      {
        HasNode(nodes, root, at, bits[..d]);
        assert bits[..d + 1] == bits[..d] + [bits[d]];
        if Test(key, d) {
          node := nodes[node].right;
        } else {
          node := nodes[node].left;
        }
        d := d + 1;
      }
      if node == NULL {
        NoRouteBelow(nodes, root, at, bits[..d], bits[..len]);
        return ERROR;
      }
      HasNode(nodes, root, at, bits[..d]);
      HasRoute(nodes, at, bits[..d]);
      if nodes[node].right != NULL || nodes[node].left != NULL {
        if nodes[node].value != NO_VALUE {
          ClearValue(node, bits[..d]);
          return OK;
        }
        return ERROR;
      }
      if nodes[node].parent == NULL {
        return FAULT;
      }
      assert IsLeaf(at, bits[..d]);
      LeafHasRoute(nodes, root, at, bits[..d]);
      LiveAnyway(nodes, at, bits[..d]);
      Prune(node, bits[..d]);
      rc := OK;
    }

    method ClearValue(node: Node, ghost p: Bits)
      requires Valid() && p in at && at[p] == node && !IsLeaf(at, p)
      modifies `nodes
      ensures Valid() && Routes() == old(Routes()) - {p}
    {
      SetValueShape(nodes, root, at, p, NO_VALUE);
      SetValueRoutes(nodes, root, at, p, NO_VALUE);
      AllWithin(nodes, root, at);
      FreeFrame(nodes, nodes[node := nodes[node].(value := NO_VALUE)], freed, free);
      nodes := nodes[node := nodes[node].(value := NO_VALUE)];
    }

    // Leaves without a value are freed upwards, but for the root.
    method Prune(node0: Node, ghost p0: Bits)
      requires Owned() && LiveBut(nodes, at, p0) && p0 in at && p0 != [] && at[p0] == node0 && IsLeaf(at, p0)
      modifies this
      ensures Valid() && Routes() == old(Routes()) - {p0}
    {
      hide Shaped, FreeList, Conserved, LiveBut, RoutesOf;
      var node := node0;
      ghost var p := p0;
      while true
        invariant Owned() && LiveBut(nodes, at, p) && p in at && p != [] && at[p] == node && IsLeaf(at, p)
        invariant Routes() - {p} == old(Routes()) - {p0}
        decreases |p|
      {
        node := FreeNode(node, p);
        p := Up(p);
        HasNode(nodes, root, at, p);
        HasRoute(nodes, at, p);
        if nodes[node].right != NULL || nodes[node].left != NULL {
          break;
        }
        if nodes[node].value != NO_VALUE {
          break;
        }
        if nodes[node].parent == NULL {
          break;
        }
      }
      LiveAgain(nodes, root, at, p);
    }

    method FreeNode(node: Node, ghost p: Bits) returns (parent: Node)
      requires Owned() && LiveBut(nodes, at, p) && p in at && p != [] && at[p] == node && IsLeaf(at, p)
      modifies this
      ensures Owned() && at == old(at) - {p} && LiveBut(nodes, at, Up(p)) && Up(p) in at && at[Up(p)] == parent
      ensures Routes() == old(Routes()) - {p}
    {
      hide Shaped, FreeList, LiveBut, RoutesOf, Conserved;
      HasNode(nodes, root, at, p);
      NotFree(at, freed, start, p);
      NotFree(at, freed, start, Up(p));
      CutNode(nodes, root, at, p, free);
      CutLive(nodes, root, at, p, free);
      CutOwned(nodes, freed, free, at[Up(p)], node);
      ConservedCut(nodes, root, at, freed, start, p);
      ghost var m := nodes;
      parent := nodes[node].parent;
      if nodes[parent].right == node {
        nodes := nodes[parent := nodes[parent].(right := NULL)];
      } else {
        nodes := nodes[parent := nodes[parent].(left := NULL)];
      }
      nodes := nodes[node := nodes[node].(right := free)];
      assert nodes == Cut(m, parent, node, free);
      free := node;
      at := at - {p};
      freed := [node] + freed;
    }

    /** The value of the longest prefix that has a route. */
    method Find(key: nat) returns (value: nat)
      requires Valid()
      ensures LongestMatch(Routes(), BitsOf(key), value)
    {
      hide Shaped, RoutesOf, FreeList, Conserved, LiveBut, LongestMatch, BestSoFar;
      ghost var bits := BitsOf(key);
      assert BestSoFar(Routes(), bits, 0, NO_VALUE) by { NoneYet(Routes(), bits); }
      RootNode(nodes, root, at);
      var d := 0;
      value := NO_VALUE;
      var node: int := root;
      while node != NULL
        invariant d <= KEY_BITS + 1
        invariant d > KEY_BITS ==> node == NULL
        invariant d <= KEY_BITS ==> if node == NULL then bits[..d] !in at else bits[..d] in at && at[bits[..d]] == node
        invariant BestSoFar(Routes(), bits, d, value)
        decreases KEY_BITS + 1 - d
      {
        HasNode(nodes, root, at, bits[..d]);
        HasRoute(nodes, at, bits[..d]);
        BetterMatch(Routes(), bits, d, value);
        if nodes[node].value != NO_VALUE {
          value := nodes[node].value;
        }
        if d < KEY_BITS {
          assert bits[..d + 1] == bits[..d] + [bits[d]];
        } else {
          NothingDeeper(nodes, root, at, bits);
        }
        if Test(key, d) {
          node := nodes[node].right;
        } else {
          node := nodes[node].left;
        }
        d := d + 1;
      }
      FoundLongest(nodes, root, at, bits, d, value);
    }
  }

  lemma NoMask()
    ensures Prefix(0, 0) == []
  {
    BitsOfZero(KEY_BITS - 1);
  }

  /** Deleting /0 from a tree just created follows the NULL parent of the root. */
  method DeleteExample() returns (rc: Status)
    ensures rc == FAULT
  {
    hide *;
    NoMask();
    var tree := new RadixTree();
    rc := tree.Delete(0, 0);
  }
}
