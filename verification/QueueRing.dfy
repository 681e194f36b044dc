/** Circular doubly linked lists as values: a ring is its sentinel and the nodes after it. */
module QueueRing {
  import opened Common

  type Node = nat

  datatype Link = Link(prev: Node, next: Node)

  type Mem = seq<Link>

  // `y` follows `x`, and both links say so.
  predicate Step(m: Mem, x: Node, y: Node) {
    x < |m| && y < |m| && m[x].next == y && m[y].prev == x
  }

  predicate StepAt(m: Mem, p: seq<Node>, i: nat)
    requires i + 1 < |p|
  {
    Step(m, p[i], p[i + 1])
  }

  ghost predicate Path(m: Mem, p: seq<Node>) {
    forall i: nat {:trigger StepAt(m, p, i)} :: i + 1 < |p| ==> StepAt(m, p, i)
  }

  /** From the sentinel through all nodes back to the sentinel. */
  function Loop(h: Node, q: seq<Node>): seq<Node> {
    [h] + q + [h]
  }

  ghost predicate Ring(m: Mem, h: Node, q: seq<Node>) {
    Distinct([h] + q) && Path(m, Loop(h, q))
  }

  lemma RingWithin(m: Mem, h: Node, q: seq<Node>)
    requires Ring(m, h, q)
    ensures h < |m| && forall x :: x in q ==> x < |m| && x != h
  {
    var p := Loop(h, q);
    assert StepAt(m, p, 0);
    forall x | x in q
      ensures x < |m| && x != h
    {
      var i :| 0 <= i < |q| && q[i] == x;
      assert StepAt(m, p, i + 1) && p[i + 1] == x;
      assert ([h] + q)[i + 1] == x && ([h] + q)[0] == h;
    }
  }

  lemma PathCut(m: Mem, p: seq<Node>, q: seq<Node>)
    requires Path(m, p + q)
    ensures Path(m, p) && Path(m, q)
    ensures p != [] && q != [] ==> Step(m, p[|p| - 1], q[0])
  {
    var r := p + q;
    forall i: nat | i + 1 < |p|
      ensures StepAt(m, p, i)
    {
      assert StepAt(m, r, i);
    }
    forall i: nat | i + 1 < |q|
      ensures StepAt(m, q, i)
    {
      assert StepAt(m, r, |p| + i);
    }
    if p != [] && q != [] {
      assert StepAt(m, r, |p| - 1);
    }
  }

  lemma PathJoin(m: Mem, p: seq<Node>, q: seq<Node>)
    requires Path(m, p) && Path(m, q) && p != [] && q != [] && Step(m, p[|p| - 1], q[0])
    ensures Path(m, p + q)
  {
    var r := p + q;
    forall i: nat | i + 1 < |r|
      ensures StepAt(m, r, i)
    {
      if i + 1 < |p| {
        assert StepAt(m, p, i);
      } else if i >= |p| {
        assert StepAt(m, q, i - |p|);
      }
    }
  }

  /** A path looks at the next links of all but its last node and at the prev links of all but its first. */
  lemma PathFrame(m: Mem, w: Mem, p: seq<Node>)
    requires Path(m, p) && forall i :: 0 <= i < |p| ==> p[i] < |w|
    requires forall i :: 0 <= i < |p| - 1 && p[i] < |m| ==> w[p[i]].next == m[p[i]].next
    requires forall i :: 0 < i < |p| && p[i] < |m| ==> w[p[i]].prev == m[p[i]].prev
    ensures Path(w, p)
  {
    forall i: nat | i + 1 < |p|
      ensures StepAt(w, p, i)
    {
      assert StepAt(m, p, i);
    }
  }

  lemma EndsFrame(m: Mem, w: Mem, p: seq<Node>)
    requires Path(m, p) && |w| == |m| && Distinct(p) && p != [] && p[0] < |m|
    requires forall z :: z in p && z < |m| && z != p[|p| - 1] ==> w[z].next == m[z].next
    requires forall z :: z in p && z < |m| && z != p[0] ==> w[z].prev == m[z].prev
    ensures Path(w, p)
  {
    forall i | 0 <= i < |p|
      ensures p[i] < |w|
    {
      if i > 0 {
        assert StepAt(m, p, i - 1);
      }
    }
    PathFrame(m, w, p);
  }

  lemma RingFrame(m: Mem, w: Mem, h: Node, q: seq<Node>)
    requires Ring(m, h, q) && h < |m| && h < |w| && w[h] == m[h]
    requires forall x :: x in q ==> x < |m| && x < |w| && w[x] == m[x]
    ensures Ring(w, h, q)
  {
    var p := Loop(h, q);
    assert forall i :: 0 <= i < |p| ==> p[i] == h || p[i] in q;
    PathFrame(m, w, p);
  }

  lemma DistinctSplit(a: seq<Node>, b: seq<Node>)
    ensures Distinct(a + b) <==> Distinct(a) && Distinct(b) && forall x :: x in a ==> x !in b
  {
    var p := a + b;
    if Distinct(p) {
      forall i, j | 0 <= i < j < |a|
        ensures a[i] != a[j]
      {
        assert p[i] == a[i] && p[j] == a[j];
      }
      forall i, j | 0 <= i < j < |b|
        ensures b[i] != b[j]
      {
        assert p[|a| + i] == b[i] && p[|a| + j] == b[j];
      }
      forall x | x in a
        ensures x !in b
      {
        var i :| 0 <= i < |a| && a[i] == x;
        assert p[i] == x && forall j :: 0 <= j < |b| ==> p[|a| + j] == b[j];
      }
    }
    if Distinct(a) && Distinct(b) && forall x :: x in a ==> x !in b {
      forall i, j | 0 <= i < j < |p|
        ensures p[i] != p[j]
      {
        assert i < |a| ==> p[i] in a;
        assert j >= |a| ==> p[j] == b[j - |a|] && p[j] in b;
      }
    }
  }

  // ----- the macros -----

  /** A ring cut between `a` and `b`: two paths and the step between them. */
  lemma Cut(m: Mem, h: Node, a: seq<Node>, b: seq<Node>)
    requires Ring(m, h, a + b)
    ensures Path(m, [h] + a) && Path(m, b + [h]) && Step(m, ([h] + a)[|a|], (b + [h])[0])
    ensures Distinct([h] + a) && Distinct(b + [h]) && (forall x :: x in a ==> x !in b) && h !in a && h !in b
  {
    assert Loop(h, a + b) == ([h] + a) + (b + [h]);
    PathCut(m, [h] + a, b + [h]);
    assert [h] + (a + b) == ([h] + a) + b;
    DistinctSplit([h] + a, b);
    DistinctSplit([h], a);
    DistinctSplit(b, [h]);
    assert h in [h] + a;
    assert forall x :: x in a ==> x in [h] + a;
  }

  lemma Close(m: Mem, h: Node, a: seq<Node>, b: seq<Node>)
    requires Path(m, [h] + a) && Path(m, b + [h]) && Step(m, ([h] + a)[|a|], (b + [h])[0])
    requires Distinct([h] + a) && Distinct(b + [h]) && (forall x :: x in a ==> x !in b)
    ensures Ring(m, h, a + b)
  {
    PathJoin(m, [h] + a, b + [h]);
    assert Loop(h, a + b) == ([h] + a) + (b + [h]);
    DistinctSplit(b, [h]);
    assert [h] + (a + b) == ([h] + a) + b;
    DistinctSplit([h] + a, b);
  }

  /** The nodes of a ring without its sentinel. */
  lemma Body(m: Mem, h: Node, q: seq<Node>)
    requires Ring(m, h, q) && q != []
    ensures Path(m, q) && Distinct(q) && h !in q && Step(m, h, q[0]) && Step(m, q[|q| - 1], h)
  {
    assert q + [] == q && [] + q == q;
    Cut(m, h, q, []);
    Cut(m, h, [], q);
    PathCut(m, [h], q);
    DistinctSplit([h], q);
  }

  lemma FromBody(m: Mem, h: Node, q: seq<Node>)
    requires Path(m, q) && q != [] && Distinct(q) && h !in q && Step(m, h, q[0]) && Step(m, q[|q| - 1], h)
    ensures Ring(m, h, q)
  {
    PathJoin(m, [h], q);
    DistinctSplit([h], q);
    Close(m, h, q, []);
    assert q + [] == q;
  }

  // x->prev = y->prev, x->prev->next = x, x->next = y, y->prev = x
  function InsertWrites(m: Mem, y: Node, x: Node): Mem
    requires x < |m| && y < |m| && m[y].prev < |m|
  {
    var m := m[x := m[x].(prev := m[y].prev)];
    var m := m[m[x].prev := m[m[x].prev].(next := x)];
    var m := m[x := m[x].(next := y)];
    m[y := m[y].(prev := x)]
  }

  /** Inserting before the first node of `b`, or at the tail when `b` is empty. */
  lemma InsertBefore(m: Mem, h: Node, a: seq<Node>, b: seq<Node>, x: Node)
    requires Ring(m, h, a + b) && x < |m| && x != h && x !in a && x !in b
    ensures var y := (b + [h])[0];
      && y < |m| && m[y].prev < |m| && Ring(InsertWrites(m, y, x), h, a + [x] + b)
      && (forall z :: 0 <= z < |m| && z != x && z != h && z !in a && z !in b ==> InsertWrites(m, y, x)[z] == m[z])
  {
    Cut(m, h, a, b);
    RingWithin(m, h, a + b);
    var u, y := ([h] + a)[|a|], (b + [h])[0];
    var w := InsertWrites(m, y, x);
    EndsFrame(m, w, [h] + a);
    EndsFrame(m, w, b + [h]);
    PathJoin(w, [h] + a, [x]);
    assert [h] + (a + [x]) == [h] + a + [x];
    DistinctSplit([h] + a, [x]);
    Close(w, h, a + [x], b);
  }

  // x->next->prev = x->prev, x->prev->next = x->next
  function RemoveWrites(m: Mem, x: Node): Mem
    requires x < |m| && m[x].next < |m| && m[x].prev < |m|
  {
    var l, r := m[x].prev, m[x].next;
    var m := m[r := m[r].(prev := l)];
    m[l := m[l].(next := r)]
  }

  lemma Remove(m: Mem, h: Node, a: seq<Node>, x: Node, b: seq<Node>)
    requires Ring(m, h, a + [x] + b)
    ensures x < |m| && m[x].next < |m| && m[x].prev < |m| && Ring(RemoveWrites(m, x), h, a + b)
    ensures forall z :: 0 <= z < |m| && z != h && z !in a && z !in b ==> RemoveWrites(m, x)[z] == m[z]
  {
    assert a + [x] + b == a + ([x] + b);
    Cut(m, h, a + [x], b);
    Cut(m, h, a, [x] + b);
    RingWithin(m, h, a + [x] + b);
    var w := RemoveWrites(m, x);
    EndsFrame(m, w, [h] + a);
    EndsFrame(m, w, b + [h]);
    Close(w, h, a, b);
  }

  // n->prev = h->prev, n->prev->next = n, n->next = q, h->prev = q->prev, h->prev->next = h, q->prev = n
  function SplitWrites(m: Mem, h: Node, q: Node, n: Node): Mem
    requires h < |m| && q < |m| && n < |m| && m[h].prev < |m| && m[q].prev < |m| && n != q && n != h && h != q
  {
    var m := m[n := m[n].(prev := m[h].prev)];
    var m := m[m[n].prev := m[m[n].prev].(next := n)];
    var m := m[n := m[n].(next := q)];
    var m := m[h := m[h].(prev := m[q].prev)];
    var m := m[m[h].prev := m[m[h].prev].(next := h)];
    m[q := m[q].(prev := n)]
  }

  /** Splitting before the first node of `b`. */
  lemma Split(m: Mem, h: Node, a: seq<Node>, b: seq<Node>, n: Node)
    requires Ring(m, h, a + b) && b != [] && n < |m| && n != h && n !in a && n !in b
    ensures h < |m| && b[0] < |m| && b[0] != n && b[0] != h && m[h].prev < |m| && m[b[0]].prev < |m|
    ensures var w := SplitWrites(m, h, b[0], n);
      && Ring(w, h, a) && Ring(w, n, b)
      && (forall z :: 0 <= z < |m| && z != n && z != h && z !in a && z !in b ==> w[z] == m[z])
  {
    Cut(m, h, a, b);
    SplitBody(m, h, b);
    RingWithin(m, h, a + b);
    assert b[0] in a + b;
    var w := SplitWrites(m, h, b[0], n);
    EndsFrame(m, w, [h] + a);
    Close(w, h, a, []);
    assert a + [] == a;
    EndsFrame(m, w, b);
    FromBody(w, n, b);
  }

  lemma SplitBody(m: Mem, h: Node, b: seq<Node>)
    requires Path(m, b + [h]) && Distinct(b + [h]) && b != []
    ensures Path(m, b) && Distinct(b) && Step(m, b[|b| - 1], h)
  {
    PathCut(m, b, [h]);
    DistinctSplit(b, [h]);
  }

  // h->prev->next = n->next, n->next->prev = h->prev, h->prev = n->prev, h->prev->next = h
  function AddWrites(m: Mem, h: Node, n: Node): Mem
    requires h < |m| && n < |m| && m[h].prev < |m| && m[n].next < |m| && m[n].prev < |m| && n != h && m[h].prev != n
  {
    var m := m[m[h].prev := m[m[h].prev].(next := m[n].next)];
    var m := m[m[n].next := m[m[n].next].(prev := m[h].prev)];
    var m := m[h := m[h].(prev := m[n].prev)];
    m[m[h].prev := m[m[h].prev].(next := h)]
  }

  /** Adding the nodes of one ring to the tail of another. */
  lemma Add(m: Mem, h: Node, a: seq<Node>, n: Node, b: seq<Node>)
    requires Ring(m, h, a) && Ring(m, n, b) && n != h && n !in a && h !in b && b != [] && forall x :: x in a ==> x !in b
    ensures h < |m| && n < |m| && m[h].prev < |m| && m[n].next < |m| && m[n].prev < |m| && m[h].prev != n
    ensures Ring(AddWrites(m, h, n), h, a + b)
    ensures forall z :: 0 <= z < |m| && z != n && z != h && z !in a && z !in b ==> AddWrites(m, h, n)[z] == m[z]
  {
    assert a + [] == a;
    Cut(m, h, a, []);
    Body(m, n, b);
    var w := AddWrites(m, h, n);
    EndsFrame(m, w, [h] + a);
    EndsFrame(m, w, b);
    PathJoin(w, b, [h]);
    DistinctSplit(b, [h]);
    Close(w, h, a, b);
  }
}
