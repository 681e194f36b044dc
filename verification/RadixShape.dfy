/** The nodes of a radix tree, named by the bits that lead to them. */
module RadixShape {
  import opened Words

  type Node = nat

  type Bits = seq<bool>

  const NULL: int := -1
  const NO_VALUE: nat := ALL_ONES
  const KEY_BITS: nat := 32
  const PAGE_NODES: nat := 128     // 4096 bytes of 32-byte nodes

  datatype Cell = Cell(right: int, left: int, parent: int, value: nat)

  type Mem = seq<Cell>

  // word & (0x80000000 >> d), which is nothing once the bit is shifted out
  predicate Test(word: nat, d: nat) {
    d < KEY_BITS && Bit(word, KEY_BITS - 1 - d)
  }

  function BitsOf(key: nat): (b: Bits)
    ensures |b| == KEY_BITS && forall d :: 0 <= d < KEY_BITS ==> b[d] == Test(key, d)
  {
    seq(KEY_BITS, d requires 0 <= d < KEY_BITS => Test(key, d))
  }

  // The mask's leading ones, which are all of its ones when it is contiguous.
  function MaskLength(mask: nat, d: nat): (n: nat)
    requires d <= KEY_BITS
    ensures d <= n <= KEY_BITS && !Test(mask, n) && forall k :: d <= k < n ==> Test(mask, k)
    decreases KEY_BITS - d
  {
    if Test(mask, d) then MaskLength(mask, d + 1) else d
  }

  /** The prefix a key and a mask stand for. */
  function Prefix(key: nat, mask: nat): Bits {
    BitsOf(key)[..MaskLength(mask, 0)]
  }

  function Up(p: Bits): Bits
    requires p != []
  {
    p[..|p| - 1]
  }

  // ----- links -----

  function Child(at: map<Bits, Node>, p: Bits, b: bool): int {
    if p + [b] in at then at[p + [b]] else NULL
  }

  predicate NodeAt(m: Mem, at: map<Bits, Node>, p: Bits)
    requires p in at && (p != [] ==> Up(p) in at)
  {
    && at[p] < |m|
    && m[at[p]].right == Child(at, p, true) && m[at[p]].left == Child(at, p, false)
    && m[at[p]].parent == if p == [] then NULL else at[Up(p)]
  }

  predicate Below(at: map<Bits, Node>, p: Bits) {
    p in at && |p| <= KEY_BITS && (p != [] ==> Up(p) in at)
  }

  ghost predicate Closed(at: map<Bits, Node>) {
    [] in at && forall p {:trigger Below(at, p)} :: p in at ==> Below(at, p)
  }

  ghost predicate Injective(at: map<Bits, Node>) {
    forall p, q {:trigger at[p], at[q]} :: p in at && q in at && at[p] == at[q] ==> p == q
  }

  /** The nodes linked from `root` are those of `at`, each where its bits say. */
  ghost predicate Shaped(m: Mem, root: Node, at: map<Bits, Node>) {
    && Closed(at) && Injective(at) && at[[]] == root
    && forall p {:trigger NodeAt(m, at, p)} :: p in at && Below(at, p) ==> NodeAt(m, at, p)
  }

  lemma HasNode(m: Mem, root: Node, at: map<Bits, Node>, p: Bits)
    requires Shaped(m, root, at) && p in at
    ensures Below(at, p) && NodeAt(m, at, p)
  {
    assert Below(at, p);
  }

  lemma RootNode(m: Mem, root: Node, at: map<Bits, Node>)
    requires Shaped(m, root, at)
    ensures [] in at && at[[]] == root
  {
  }

  predicate IsLeaf(at: map<Bits, Node>, p: Bits) {
    p + [false] !in at && p + [true] !in at
  }

  // Every node without children carries a value, but for the root and the node at `p`.
  ghost predicate LiveBut(m: Mem, at: map<Bits, Node>, p: Bits) {
    forall q :: q in at && q != [] && q != p && IsLeaf(at, q) && at[q] < |m| ==> m[at[q]].value != NO_VALUE
  }

  ghost function RoutesOf(m: Mem, at: map<Bits, Node>): map<Bits, nat> {
    map p | p in at && at[p] < |m| && m[at[p]].value != NO_VALUE :: m[at[p]].value
  }

  // ----- free nodes -----

  function NextFree(free: seq<Node>, i: nat): int {
    if i + 1 < |free| then free[i + 1] else NULL
  }

  ghost predicate FreeList(m: Mem, free: seq<Node>, head: int) {
    && head == (if free == [] then NULL else free[0])
    && (forall i :: 0 <= i < |free| ==> free[i] < |m|)
    && (forall i :: 0 <= i < |free| ==> m[free[i]].right == NextFree(free, i))
    && (forall i, j :: 0 <= i < j < |free| ==> free[i] != free[j])
  }

  /** Every node handed out so far is in the tree or on the free list, and in one place only. */
  ghost predicate Conserved(at: map<Bits, Node>, free: seq<Node>, start: nat) {
    && (forall p :: p in at ==> at[p] < start && at[p] !in free)
    && (forall i :: 0 <= i < |free| ==> free[i] < start)
    && |at| + |free| == start
  }

  // ----- facts about paths -----

  lemma LastBit(p: Bits, b: bool, q: Bits, c: bool)
    ensures p + [b] == q + [c] ==> p == q && b == c
    ensures Up(p + [b]) == p
  {
    assert (p + [b])[..|p|] == p && (p + [b])[|p|] == b;
    assert (q + [c])[..|q|] == q && (q + [c])[|q|] == c;
  }

  lemma OneBitLonger(q: Bits)
    ensures q != [] ==> q == Up(q) + [true] || q == Up(q) + [false]
  {
    if q != [] {
      if q[|q| - 1] {
        assert q == Up(q) + [true];
      } else {
        assert q == Up(q) + [false];
      }
    }
  }

  lemma {:induction false} ShorterIsIn(at: map<Bits, Node>, p: Bits, k: nat)
    requires Closed(at) && p in at && k <= |p|
    ensures p[..k] in at
    decreases |p|
  {
    if k == |p| {
      assert p[..k] == p;
    } else {
      assert Below(at, p);
      assert Up(p)[..k] == p[..k];
      ShorterIsIn(at, Up(p), k);
    }
  }

  /** More memory changes nothing. */
  lemma GrowShape(m: Mem, w: Mem, root: Node, at: map<Bits, Node>)
    requires Shaped(m, root, at) && m <= w
    ensures Shaped(w, root, at)
  {
    forall q | q in at && Below(at, q)
      ensures NodeAt(w, at, q)
    {
      HasNode(m, root, at, q);
    }
  }

  // ----- a new node below the node at `p` -----

  function Hung(m: Mem, x: Node, b: bool, n: Node): Mem
    requires x < |m| && n < |m|
  {
    var m := m[n := Cell(NULL, NULL, x, NO_VALUE)];
    m[x := if b then m[x].(right := n) else m[x].(left := n)]
  }

  lemma HangNode(m: Mem, root: Node, at: map<Bits, Node>, p: Bits, b: bool, n: Node)
    requires Shaped(m, root, at) && p in at && p + [b] !in at && |p| < KEY_BITS && n < |m|
    requires forall q :: q in at ==> at[q] != n
    ensures at[p] < |m| && Shaped(Hung(m, at[p], b, n), root, at[p + [b] := n])
  {
    HasNode(m, root, at, p);
    var w, a := Hung(m, at[p], b, n), at[p + [b] := n];
    LastBit(p, b, p, b);
    forall q | q in a
      ensures Below(a, q)
    {
      assert q in at ==> Below(at, q);
    }
    forall q | q in a && Below(a, q)
      ensures NodeAt(w, a, q)
    {
      HungNodeAt(m, root, at, p, b, n, q);
    }
  }

  lemma HungNodeAt(m: Mem, root: Node, at: map<Bits, Node>, p: Bits, b: bool, n: Node, q: Bits)
    requires Shaped(m, root, at) && p in at && at[p] < |m| && p + [b] !in at && n < |m|
    requires forall r :: r in at ==> at[r] != n
    requires q in at || q == p + [b]
    ensures q != [] ==> Up(q) in at[p + [b] := n]
    ensures NodeAt(Hung(m, at[p], b, n), at[p + [b] := n], q)
  {
    if q in at {
      HungOther(m, root, at, p, b, n, q);
    } else {
      HungNew(m, root, at, p, b, n);
    }
  }

  lemma HungOther(m: Mem, root: Node, at: map<Bits, Node>, p: Bits, b: bool, n: Node, q: Bits)
    requires Shaped(m, root, at) && p in at && at[p] < |m| && p + [b] !in at && n < |m| && q in at
    requires forall r :: r in at ==> at[r] != n
    ensures q != [] ==> Up(q) in at[p + [b] := n]
    ensures NodeAt(Hung(m, at[p], b, n), at[p + [b] := n], q)
  {
    HasNode(m, root, at, q);
    HasNode(m, root, at, p);
    assert at[p] == at[q] ==> p == q;
    hide Shaped;
    LastBit(p, b, q, true);
    LastBit(p, b, q, false);
  }

  lemma HungNew(m: Mem, root: Node, at: map<Bits, Node>, p: Bits, b: bool, n: Node)
    requires Shaped(m, root, at) && p in at && at[p] < |m| && p + [b] !in at && n < |m|
    requires forall r :: r in at ==> at[r] != n
    ensures Up(p + [b]) in at
    ensures NodeAt(Hung(m, at[p], b, n), at[p + [b] := n], p + [b])
  {
    var q := p + [b];
    LastBit(p, b, q, true);
    LastBit(q, true, q, false);
    LastBit(q, false, q, true);
    assert q + [true] in at ==> Below(at, q + [true]);
    assert q + [false] in at ==> Below(at, q + [false]);
    hide Shaped;
  }

  // ----- taking away the leaf at `p` -----

  function Cut(m: Mem, x: Node, n: Node, head: int): Mem
    requires x < |m| && n < |m| && x != n
  {
    var m := m[x := if m[x].right == n then m[x].(right := NULL) else m[x].(left := NULL)];
    m[n := m[n].(right := head)]
  }

  lemma CutNode(m: Mem, root: Node, at: map<Bits, Node>, p: Bits, head: int)
    requires Shaped(m, root, at) && p in at && p != [] && IsLeaf(at, p)
    ensures Up(p) in at && at[Up(p)] < |m| && at[p] < |m| && at[Up(p)] != at[p]
    ensures Shaped(Cut(m, at[Up(p)], at[p], head), root, at - {p})
  {
    HasNode(m, root, at, p);
    HasNode(m, root, at, Up(p));
    assert p == Up(p) + [p[|p| - 1]];
    var w, a := Cut(m, at[Up(p)], at[p], head), at - {p};
    forall q | q in a
      ensures Below(a, q)
    {
      assert Below(at, q);
      assert q != [] ==> q == Up(q) + [q[|q| - 1]];
      OneBitLonger(q);
    }
    forall q | q in a && Below(a, q)
      ensures NodeAt(w, a, q)
    {
      CutNodeAt(m, root, at, p, head, q);
    }
  }

  lemma CutNodeAt(m: Mem, root: Node, at: map<Bits, Node>, p: Bits, head: int, q: Bits)
    requires Shaped(m, root, at) && p in at && p != [] && IsLeaf(at, p) && q in at && q != p
    requires Up(p) in at && at[Up(p)] < |m| && at[p] < |m| && at[Up(p)] != at[p] && (q != [] ==> Up(q) in at - {p})
    ensures NodeAt(Cut(m, at[Up(p)], at[p], head), at - {p}, q)
  {
    HasNode(m, root, at, q);
    HasNode(m, root, at, Up(p));
    var u, b := Up(p), p[|p| - 1];
    assert p == u + [b];
    LastBit(u, b, q, true);
    LastBit(u, b, q, false);
    assert m[at[u]].right == at[p] <==> b;
  }

  // ----- values -----

  lemma SetValueShape(m: Mem, root: Node, at: map<Bits, Node>, p: Bits, value: nat)
    requires Shaped(m, root, at) && p in at
    ensures at[p] < |m| && Shaped(m[at[p] := m[at[p]].(value := value)], root, at)
  {
    HasNode(m, root, at, p);
    var w := m[at[p] := m[at[p]].(value := value)];
    forall q | q in at && Below(at, q)
      ensures NodeAt(w, at, q)
    {
      HasNode(m, root, at, q);
    }
  }

  lemma AllWithin(m: Mem, root: Node, at: map<Bits, Node>)
    requires Shaped(m, root, at)
    ensures forall q :: q in at ==> at[q] < |m|
  {
    forall q | q in at
      ensures at[q] < |m|
    {
      HasNode(m, root, at, q);
    }
  }

  /** Writing a value changes that one route. */
  lemma SetValueRoutes(m: Mem, root: Node, at: map<Bits, Node>, p: Bits, value: nat)
    requires Shaped(m, root, at) && p in at && at[p] < |m|
    ensures RoutesOf(m[at[p] := m[at[p]].(value := value)], at)
         == if value == NO_VALUE then RoutesOf(m, at) - {p} else RoutesOf(m, at)[p := value]
  {
    AllWithin(m, root, at);
    var w := m[at[p] := m[at[p]].(value := value)];
    assert forall q :: q in at ==> at[q] < |m| && (q != p ==> w[at[q]] == m[at[q]]);
  }

  /** A new or a removed node without a value changes no route. */
  lemma SameRoutes(m: Mem, at: map<Bits, Node>, w: Mem, a: map<Bits, Node>, p: Bits)
    requires |m| == |w| && a - {p} == at - {p}
    requires forall q :: q in at && q != p ==> at[q] < |m| && w[at[q]].value == m[at[q]].value
    requires p in at && at[p] < |m| ==> m[at[p]].value == NO_VALUE
    requires p in a && a[p] < |w| ==> w[a[p]].value == NO_VALUE
    ensures RoutesOf(w, a) == RoutesOf(m, at)
  {
    forall q | q in at || q in a
      ensures q in at - {p} <==> q in at && q != p
      ensures q in a - {p} <==> q in a && q != p
      ensures q != p ==> (q in at <==> q in a) && (q in at ==> at[q] == a[q])
    {
      assert q in at - {p} <==> q in a - {p};
      assert q in at - {p} ==> (at - {p})[q] == at[q] && (a - {p})[q] == a[q];
    }
  }

  // ----- what the links say about the routes -----

  /** Without dead leaves the nodes are exactly the prefixes of the routes, and the root. */
  lemma {:induction false} NodeServesRoute(m: Mem, root: Node, at: map<Bits, Node>, p: Bits) returns (r: Bits)
    requires Shaped(m, root, at) && LiveBut(m, at, []) && p in at && p != []
    ensures r in RoutesOf(m, at) && p <= r
    decreases KEY_BITS - |p|
  {
    HasNode(m, root, at, p);
    if m[at[p]].value != NO_VALUE {
      r := p;
    } else {
      var c := if p + [true] in at then p + [true] else p + [false];
      assert Below(at, c);
      r := NodeServesRoute(m, root, at, c);
    }
  }

  lemma FirstStep(at: map<Bits, Node>, p: Bits)
    requires p != [] && p[..1] in at
    ensures !IsLeaf(at, [])
  {
    assert p[..1] == [] + [p[0]];
    assert p[0] == true || p[0] == false;
  }

  /** The root is a leaf exactly when no other prefix has a route. */
  lemma LoneRoot(m: Mem, root: Node, at: map<Bits, Node>)
    requires Shaped(m, root, at) && LiveBut(m, at, [])
    ensures IsLeaf(at, []) <==> RoutesOf(m, at).Keys <= {[]}
  {
    if IsLeaf(at, []) {
      forall p | p in RoutesOf(m, at) && p != []
        ensures false
      {
        ShorterIsIn(at, p, 1);
        FirstStep(at, p);
      }
    } else {
      var q := if [] + [false] in at then [] + [false] else [] + [true];
      var r := NodeServesRoute(m, root, at, q);
      assert r != [];
    }
  }

  lemma NodesAreNeeded(m: Mem, root: Node, at: map<Bits, Node>, p: Bits)
    requires Shaped(m, root, at) && LiveBut(m, at, [])
    ensures p in at <==> p == [] || exists r :: r in RoutesOf(m, at) && p <= r
  {
    if p in at && p != [] {
      var r := NodeServesRoute(m, root, at, p);
    }
    if r :| r in RoutesOf(m, at) && p <= r {
      ShorterIsIn(at, r, |p|);
      assert r[..|p|] == p;
    }
  }

  /** Equal routes mean equal paths: what the tree looks like does not depend on its history. */
  lemma ShapeIsCanonical(m: Mem, root: Node, at: map<Bits, Node>, w: Mem, root': Node, a: map<Bits, Node>)
    requires Shaped(m, root, at) && LiveBut(m, at, []) && Shaped(w, root', a) && LiveBut(w, a, [])
    requires RoutesOf(m, at) == RoutesOf(w, a)
    ensures at.Keys == a.Keys
  {
    forall p
      ensures p in at <==> p in a
    {
      NodesAreNeeded(m, root, at, p);
      NodesAreNeeded(w, root', a, p);
    }
  }

  // ----- longest-prefix match -----

  /** `r` is the value of the longest prefix of `key` in the table, or none if no prefix is there. */
  ghost predicate LongestMatch(routes: map<Bits, nat>, key: Bits, r: nat) {
    if forall n: nat :: n <= |key| ==> key[..n] !in routes then r == NO_VALUE
    else exists n: nat :: IsLongest(routes, key, n) && routes[key[..n]] == r
  }

  ghost predicate IsLongest(routes: map<Bits, nat>, key: Bits, n: nat) {
    n <= |key| && key[..n] in routes && forall k :: n < k <= |key| ==> key[..k] !in routes
  }

  lemma LongestIsUnique(routes: map<Bits, nat>, key: Bits, r: nat, s: nat)
    requires LongestMatch(routes, key, r) && LongestMatch(routes, key, s)
    ensures r == s
  {
    if i: nat, j: nat :|
      IsLongest(routes, key, i) && routes[key[..i]] == r && IsLongest(routes, key, j) && routes[key[..j]] == s {
      assert i == j;
    }
  }

  // ----- the free list -----

  lemma PopFree(m: Mem, free: seq<Node>, head: int)
    requires FreeList(m, free, head) && head != NULL
    ensures free != [] && head == free[0] < |m| && FreeList(m, free[1..], m[head].right) && free[0] !in free[1..]
    ensures forall x :: x in free[1..] ==> x in free
  {
    var f := free[1..];
    forall i | 0 <= i < |f|
      ensures m[f[i]].right == NextFree(f, i)
    {
      assert f[i] == free[i + 1] && m[free[i + 1]].right == NextFree(free, i + 1);
    }
  }

  lemma PushFree(m: Mem, free: seq<Node>, head: int, n: Node)
    requires FreeList(m, free, head) && n < |m| && n !in free && m[n].right == head
    ensures FreeList(m, [n] + free, n)
  {
    var f := [n] + free;
    assert forall i :: 0 < i < |f| ==> f[i] == free[i - 1] && f[i] in free;
  }

  lemma FreeFrame(m: Mem, w: Mem, free: seq<Node>, head: int)
    requires FreeList(m, free, head) && |m| <= |w|
    requires forall x :: x in free && x < |m| ==> w[x].right == m[x].right
    ensures FreeList(w, free, head)
  {
    assert forall i :: 0 <= i < |free| ==> free[i] in free;
  }

  // ----- the steps of an insertion -----

  lemma HasRoute(m: Mem, at: map<Bits, Node>, p: Bits)
    requires p in at && at[p] < |m|
    ensures p in RoutesOf(m, at) <==> m[at[p]].value != NO_VALUE
    ensures p in RoutesOf(m, at) ==> RoutesOf(m, at)[p] == m[at[p]].value
  {
  }

  lemma LiveAnyway(m: Mem, at: map<Bits, Node>, p: Bits)
    requires LiveBut(m, at, [])
    ensures LiveBut(m, at, p)
  {
  }

  lemma NoRouteBelow(m: Mem, root: Node, at: map<Bits, Node>, p: Bits, q: Bits)
    requires Shaped(m, root, at) && p !in at && p <= q
    ensures q !in at && q !in RoutesOf(m, at)
  {
    assert q[..|p|] == p;
    if q in at {
      ShorterIsIn(at, q, |p|);
    }
  }

  lemma SamePages(m: Mem, w: Mem, root: Node, at: map<Bits, Node>, p: Bits)
    requires Shaped(m, root, at) && m <= w
    ensures RoutesOf(w, at) == RoutesOf(m, at) && (LiveBut(m, at, p) ==> LiveBut(w, at, p))
  {
    AllWithin(m, root, at);
  }

  lemma HungLive(m: Mem, root: Node, at: map<Bits, Node>, p: Bits, b: bool, n: Node)
    requires Shaped(m, root, at) && p in at && p + [b] !in at && at[p] < |m| && n < |m| && LiveBut(m, at, p)
    requires forall q :: q in at ==> at[q] != n
    ensures var w, a := Hung(m, at[p], b, n), at[p + [b] := n];
      LiveBut(w, a, p + [b]) && RoutesOf(w, a) == RoutesOf(m, at)
  {
    AllWithin(m, root, at);
    var w, a := Hung(m, at[p], b, n), at[p + [b] := n];
    forall q | q in at
      ensures w[at[q]].value == m[at[q]].value && (IsLeaf(a, q) ==> IsLeaf(at, q) && q != p)
    {
    }
    SameRoutes(m, at, w, a, p + [b]);
  }

  lemma HungOwned(m: Mem, at: map<Bits, Node>, free: seq<Node>, head: int, x: Node, b: bool, n: Node)
    requires FreeList(m, free, head) && x < |m| && n < |m| && x !in free && n !in free
    ensures FreeList(Hung(m, x, b, n), free, head)
  {
    FreeFrame(m, Hung(m, x, b, n), free, head);
  }

  // ----- the steps of a deletion -----

  lemma CutLive(m: Mem, root: Node, at: map<Bits, Node>, p: Bits, head: int)
    requires Shaped(m, root, at) && p in at && p != [] && IsLeaf(at, p) && LiveBut(m, at, p)
    requires Up(p) in at && at[Up(p)] < |m| && at[p] < |m| && at[Up(p)] != at[p]
    ensures var w, a := Cut(m, at[Up(p)], at[p], head), at - {p};
      LiveBut(w, a, Up(p)) && RoutesOf(w, a) == RoutesOf(m, at) - {p}
  {
    AllWithin(m, root, at);
    var w, a := Cut(m, at[Up(p)], at[p], head), at - {p};
    assert p == Up(p) + [p[|p| - 1]];
    forall q | q in a
      ensures w[at[q]].value == m[at[q]].value && (IsLeaf(a, q) && q != Up(p) ==> IsLeaf(at, q))
    {
      LastBit(q, true, Up(p), p[|p| - 1]);
      LastBit(q, false, Up(p), p[|p| - 1]);
    }
  }

  lemma CutOwned(m: Mem, free: seq<Node>, head: int, x: Node, n: Node)
    requires FreeList(m, free, head) && x < |m| && n < |m| && x != n && x !in free && n !in free
    ensures FreeList(Cut(m, x, n, head), [n] + free, n)
  {
    FreeFrame(m, Cut(m, x, n, head), free, head);
    PushFree(Cut(m, x, n, head), free, head, n);
  }

  lemma LiveAgain(m: Mem, root: Node, at: map<Bits, Node>, p: Bits)
    requires LiveBut(m, at, p)
    requires p in at && p != [] && IsLeaf(at, p) && at[p] < |m| ==> m[at[p]].value != NO_VALUE
    ensures LiveBut(m, at, [])
  {
  }

  lemma LeafHasRoute(m: Mem, root: Node, at: map<Bits, Node>, p: Bits)
    requires Shaped(m, root, at) && LiveBut(m, at, []) && p in at && p != [] && IsLeaf(at, p)
    ensures p in RoutesOf(m, at)
  {
    HasNode(m, root, at, p);
  }

  // ----- the end of a search -----

  lemma NothingDeeper(m: Mem, root: Node, at: map<Bits, Node>, p: Bits)
    requires Shaped(m, root, at) && |p| == KEY_BITS
    ensures p + [false] !in at && p + [true] !in at && p[..KEY_BITS] == p
  {
    assert p + [false] in at ==> Below(at, p + [false]);
    assert p + [true] in at ==> Below(at, p + [true]);
  }

  // The best match among the first `d` prefixes.
  ghost predicate BestSoFar(routes: map<Bits, nat>, key: Bits, d: nat, value: nat) {
    if forall k: nat :: k < d && k <= |key| ==> key[..k] !in routes then value == NO_VALUE
    else exists n: nat :: n < d && n <= |key| && key[..n] in routes && routes[key[..n]] == value
           && forall k :: n < k < d && k <= |key| ==> key[..k] !in routes
  }

  lemma BetterMatch(routes: map<Bits, nat>, key: Bits, d: nat, value: nat)
    requires BestSoFar(routes, key, d, value) && d <= |key|
    ensures BestSoFar(routes, key, d + 1, if key[..d] in routes then routes[key[..d]] else value)
  {
    if key[..d] !in routes && exists k: nat :: k < d && k <= |key| && key[..k] in routes {
      var n: nat :| n < d && n <= |key| && key[..n] in routes && routes[key[..n]] == value
        && forall k :: n < k < d && k <= |key| ==> key[..k] !in routes;
      assert key[..n] in routes;
    }
  }

  lemma FoundLongest(m: Mem, root: Node, at: map<Bits, Node>, key: Bits, d: nat, value: nat)
    requires Shaped(m, root, at) && (d <= |key| ==> key[..d] !in at)
    requires BestSoFar(RoutesOf(m, at), key, d, value)
    ensures LongestMatch(RoutesOf(m, at), key, value)
  {
    var routes := RoutesOf(m, at);
    forall k: nat | d <= k <= |key|
      ensures key[..k] !in routes
    {
      NoRouteBelow(m, root, at, key[..d], key[..k]);
    }
    if k: nat :| k < d && k <= |key| && key[..k] in routes {
      var n: nat :| n < d && n <= |key| && key[..n] in routes && routes[key[..n]] == value
        && forall k :: n < k < d && k <= |key| ==> key[..k] !in routes;
      assert IsLongest(routes, key, n);
    }
  }

  lemma NoneYet(routes: map<Bits, nat>, key: Bits)
    ensures BestSoFar(routes, key, 0, NO_VALUE)
  {
  }

  lemma NotFree(at: map<Bits, Node>, free: seq<Node>, start: nat, p: Bits)
    requires Conserved(at, free, start) && p in at
    ensures at[p] !in free
  {
  }

  lemma ConservedCut(m: Mem, root: Node, at: map<Bits, Node>, free: seq<Node>, start: nat, p: Bits)
    requires Conserved(at, free, start) && Shaped(m, root, at) && p in at
    ensures Conserved(at - {p}, [at[p]] + free, start)
  {
    var a, f := at - {p}, [at[p]] + free;
    assert a.Keys == at.Keys - {p};
    assert |at.Keys| == |at| && |a.Keys| == |a|;
    assert forall i :: 0 < i < |f| ==> f[i] == free[i - 1];
    assert forall q :: q in a ==> q in at && at[q] != at[p];
  }

  // ----- prefixes in numbers -----

  /** The mask 2^32 - 2^(32 - len) stands for `len` bits. */
  lemma MaskInNumbers(len: nat)
    requires len <= 32
    ensures Pow2(32) >= Pow2(32 - len) && MaskLength(Pow2(32) - Pow2(32 - len), 0) == len
  {
    var k := 32 - len;
    hide Pow2;
    PowSplit(len, k);
    var m := (Pow2(len) - 1) * Pow2(k);
    assert m == Pow2(32) - Pow2(k);
    ShiftInNumbers(Pow2(len) - 1, k);
    forall d: nat
      ensures Test(m, d) <==> d < len
    {
      if d < 32 {
        BitsOfShl(Pow2(len) - 1, k, 31 - d);
        if d < len {
          BitsOfMask(len, 31 - d - k);
        }
      }
    }
    MaskIs(m, len);
  }

  lemma MaskIs(mask: nat, len: nat)
    requires len <= KEY_BITS && forall d: nat :: Test(mask, d) <==> d < len
    ensures MaskLength(mask, 0) == len
  {
    hide Test;
    var n := MaskLength(mask, 0);
    assert Test(mask, n) <==> n < len;
    assert Test(mask, len) <==> len < len;
  }

  // The first bits are those of the quotient, the high one first.
  lemma FirstBits(key: nat, len: nat)
    requires len <= 32
    ensures forall d: nat :: d < len ==> BitsOf(key)[d] == Bit(Shr(key, 32 - len), len - 1 - d)
  {
    forall d: nat | d < len
      ensures BitsOf(key)[d] == Bit(Shr(key, 32 - len), len - 1 - d)
    {
      BitShift(key, 32 - len, len - 1 - d);
    }
  }

  lemma SameFirstBits(key: nat, q: nat, len: nat)
    requires len <= 32 && key < Pow2(32) && q < Pow2(32)
    ensures BitsOf(key)[..len] == BitsOf(q)[..len] <==> Shr(key, 32 - len) == Shr(q, 32 - len)
  {
    var k := 32 - len;
    ShrFits(key, k, 32);
    ShrFits(q, k, 32);
    hide Pow2, Test, Shr, Bit;
    FirstBits(key, len);
    FirstBits(q, len);
    var a, b := Shr(key, k), Shr(q, k);
    if BitsOf(key)[..len] == BitsOf(q)[..len] {
      forall i: nat | i < len
        ensures Bit(a, i) == Bit(b, i)
      {
        var d := len - 1 - i;
        assert BitsOf(key)[d] == BitsOf(key)[..len][d] && BitsOf(q)[d] == BitsOf(q)[..len][d];
      }
      SameBits(a, b, len);
    }
  }

  function MaskOf(len: nat): nat
    requires len <= 32
  {
    assert Pow2(32) >= Pow2(32 - len) by { MaskInNumbers(len); }
    Pow2(32) - Pow2(32 - len)
  }

  lemma PrefixIs(key: nat, q: nat, len: nat)
    requires len <= 32
    ensures Prefix(key, MaskOf(len)) <= BitsOf(q) <==> BitsOf(key)[..len] == BitsOf(q)[..len]
  {
    MaskInNumbers(len);
  }

  /** A key is under a prefix of `len` bits if and only if both have the same quotient by 2^(32 - len). */
  lemma PrefixInNumbers(key: nat, q: nat, len: nat)
    requires len <= 32 && key < Pow2(32) && q < Pow2(32)
    ensures MaskOf(len) == Pow2(32) - Pow2(32 - len)
    ensures Prefix(key, MaskOf(len)) <= BitsOf(q) <==> key / Pow2(32 - len) == q / Pow2(32 - len)
  {
    hide Pow2, Prefix, BitsOf, Shr;
    PrefixIs(key, q, len);
    SameFirstBits(key, q, len);
    ShiftInNumbers(key, 32 - len);
    ShiftInNumbers(q, 32 - len);
  }
}
