/** The merge sort on a circular doubly linked list. */
module Queue {
  import opened QueueRing
  import opened QueueOrder

  class Memory {
    var links: seq<Link>           // all link records; a record is named by its place

    constructor ()
      ensures links == []
    {
      links := [];
    }

    // ngx_queue_init
    method Init(h: Node)
      requires h < |links|
      modifies this
      ensures Ring(links, h, []) && links == old(links)[h := Link(h, h)]
    {
      links := links[h := Link(h, h)];
    }

    // ngx_queue_insert_tail, and ngx_queue_insert_before for a node inside the ring
    method InsertBefore(y: Node, x: Node, ghost h: Node, ghost a: seq<Node>, ghost b: seq<Node>)
      requires Ring(links, h, a + b) && y == (b + [h])[0] && x < |links| && x != h && x !in a && x !in b
      modifies this
      ensures Ring(links, h, a + [x] + b) && |links| == |old(links)|
      ensures forall z :: 0 <= z < |links| && z != x && z != h && z !in a && z !in b ==> links[z] == old(links[z])
    {
      QueueRing.InsertBefore(links, h, a, b, x);
      links := links[x := links[x].(prev := links[y].prev)];
      links := links[links[x].prev := links[links[x].prev].(next := x)];
      links := links[x := links[x].(next := y)];
      links := links[y := links[y].(prev := x)];
    }

    // ngx_queue_remove
    method Remove(x: Node, ghost h: Node, ghost a: seq<Node>, ghost b: seq<Node>)
      requires Ring(links, h, a + [x] + b)
      modifies this
      ensures Ring(links, h, a + b) && |links| == |old(links)|
      ensures forall z :: 0 <= z < |links| && z != h && z !in a && z !in b ==> links[z] == old(links[z])
    {
      QueueRing.Remove(links, h, a, x, b);
      var l, r := links[x].prev, links[x].next;
      links := links[r := links[r].(prev := l)];
      links := links[l := links[l].(next := r)];
    }

    // ngx_queue_split
    method Split(h: Node, q: Node, n: Node, ghost a: seq<Node>, ghost b: seq<Node>)
      requires Ring(links, h, a + b) && b != [] && q == b[0] && n < |links| && n != h && n !in a && n !in b
      modifies this
      ensures Ring(links, h, a) && Ring(links, n, b) && |links| == |old(links)|
      ensures forall z :: 0 <= z < |links| && z != n && z != h && z !in a && z !in b ==> links[z] == old(links[z])
    {
      QueueRing.Split(links, h, a, b, n);
      links := links[n := links[n].(prev := links[h].prev)];
      links := links[links[n].prev := links[links[n].prev].(next := n)];
      links := links[n := links[n].(next := q)];
      links := links[h := links[h].(prev := links[q].prev)];
      links := links[links[h].prev := links[links[h].prev].(next := h)];
      links := links[q := links[q].(prev := n)];
    }

    // ngx_queue_add
    method Add(h: Node, n: Node, ghost a: seq<Node>, ghost b: seq<Node>)
      requires Ring(links, h, a) && Ring(links, n, b) && b != []
      requires n != h && n !in a && h !in b && forall x :: x in a ==> x !in b
      modifies this
      ensures Ring(links, h, a + b) && |links| == |old(links)|
      ensures forall z :: 0 <= z < |links| && z != n && z != h && z !in a && z !in b ==> links[z] == old(links[z])
    {
      QueueRing.Add(links, h, a, n, b);
      links := links[links[h].prev := links[links[h].prev].(next := links[n].next)];
      links := links[links[n].next := links[links[n].next].(prev := links[h].prev)];
      links := links[h := links[h].(prev := links[n].prev)];
      links := links[links[h].prev := links[links[h].prev].(next := h)];
    }

    /** The node in the middle, found with one pointer twice as fast as the other: the first node of
        the second half. */
    method Middle(h: Node, ghost q: seq<Node>) returns (middle: Node)
      requires Ring(links, h, q)
      ensures middle == if q == [] then h else q[|q| / 2]
    {
      Ends(links, h, q);
      middle := links[h].next;
      if middle == links[h].prev {
        return;
      }
      var next := links[h].next;
      ghost var i := 0;
      while true
        invariant 2 * i + 1 < |q| && middle == q[i] && next == q[2 * i]
        decreases |q| - 2 * i
      {
        Along(links, h, q, i);
        Along(links, h, q, 2 * i);
        middle := links[middle].next;
        next := links[next].next;
        if next == links[h].prev {
          return;
        }
        Along(links, h, q, 2 * i + 1);
        next := links[next].next;
        if next == links[h].prev {
          return;
        }
        i := i + 1;
      }
    }

    // The first node of the tail ring leaves it and goes before `q1`.
    method MoveOver(q1: Node, q2: Node, queue: Node, tail: Node, ghost a: seq<Node>, ghost b: seq<Node>,
                    ghost c: seq<Node>)
      requires Rings(links, queue, a + b, tail, c) && q1 == (b + [queue])[0] && c != [] && q2 == c[0]
      modifies this
      ensures Rings(links, queue, a + [q2] + b, tail, c[1..])
      ensures Others(old(links), links, Nodes(queue, a + b) + Nodes(tail, c))
      ensures Nodes(queue, a + [q2] + b) + Nodes(tail, c[1..]) == Nodes(queue, a + b) + Nodes(tail, c)
    {
      hide Ring;
      RingWithin(links, queue, a + b);
      RingWithin(links, tail, c);
      MovedApart(links, queue, tail, a, b, c);
      assert [] + [q2] + c[1..] == c && [] + c[1..] == c[1..];
      assert q2 in c && forall x :: x in c[1..] ==> x in c;
      ghost var m := links;
      Remove(q2, tail, [], c[1..]);
      RingFrame(m, links, queue, a + b);
      m := links;
      InsertBefore(q1, q2, queue, a, b);
      RingFrame(m, links, tail, c[1..]);
    }

    // Nodes of the tail ring go before the first greater node; what is left of it is added at the end.
    method Merge(queue: Node, tail: Node, cmp: Cmp, ghost a: seq<Node>, ghost b: seq<Node>)
      requires Rings(links, queue, a, tail, b) && a != [] && b != []
      modifies this
      ensures Ring(links, queue, Merged(cmp, a, b))
      ensures Others(old(links), links, Nodes(queue, a) + Nodes(tail, b))
    {
      hide Ring, Apart, Others, Nodes, Merged;
      ghost var done, r1, r2 := [], a, b;
      ghost var all := Nodes(queue, a) + Nodes(tail, b);
      assert done + r1 == a;
      Ends(links, queue, a);
      Ends(links, tail, b);
      var q1 := links[queue].next;
      var q2 := links[tail].next;
      OthersSame(links, all);
      while true
        invariant Rings(links, queue, done + r1, tail, r2)
        invariant Nodes(queue, done + r1) + Nodes(tail, r2) == all && Others(old(links), links, all)
        invariant done + Merged(cmp, r1, r2) == Merged(cmp, a, b) && (r1 != [] || r2 != [])
        invariant q1 == (r1 + [queue])[0] && q2 == (r2 + [tail])[0]
        decreases |r1| + |r2|
      {
        Ends(links, tail, r2);
        After(links, queue, done, r1);
        MergeStep(cmp, done, r1, r2);
        ghost var m := links;
        if q1 == queue {
          AddAll(queue, tail, done + r1, r2);
          OthersThen(old(links), m, links, all);
          break;
        }
        if q2 == tail {
          break;
        }
        if cmp(q1, q2) <= 0 {
          q1 := links[q1].next;
          done, r1 := done + [r1[0]], r1[1..];
          continue;
        }
        MoveOver(q1, q2, queue, tail, done, r1, r2);
        OthersThen(old(links), m, links, all);
        Ends(links, tail, r2[1..]);
        q2 := links[tail].next;
        done, r2 := done + [r2[0]], r2[1..];
      }
    }

    /** The sort: the ring holds the stable sort of what it held, and other records are as before. The
        sentinel of the second half is a local record, gone when the call returns. */
    method Sort(queue: Node, cmp: Cmp, ghost q: seq<Node>)
      requires Ring(links, queue, q)
      modifies this
      ensures Ring(links, queue, MergeSorted(cmp, q)) && Others(old(links), links, Nodes(queue, q))
      decreases |q|, 1
    {
      hide Ring;
      Ends(links, queue, q);
      var m := links[queue].next;
      if m == links[queue].prev {
        return;
      }
      m := Middle(queue, q);
      var tail := |links|;
      ghost var a, b := q[..|q| / 2], q[|q| / 2..];
      assert q == a + b;
      RingWithin(links, queue, q);
      RingFrame(links, links + [Link(tail, tail)], queue, q);
      HalvesApart(links, queue, tail, a, b);
      links := links + [Link(tail, tail)];
      Split(queue, m, tail, a, b);
      SortHalves(queue, tail, cmp, a, b);
      SortPermutes(cmp, q);
      SameMembers(MergeSorted(cmp, q), q);
      RingFrame(links, links[..tail], queue, MergeSorted(cmp, q));
      links := links[..tail];
    }

    method SortHalves(queue: Node, tail: Node, cmp: Cmp, ghost a: seq<Node>, ghost b: seq<Node>)
      requires Rings(links, queue, a, tail, b) && a != [] && b != []
      modifies this
      ensures Ring(links, queue, Merged(cmp, MergeSorted(cmp, a), MergeSorted(cmp, b)))
      ensures Others(old(links), links, Nodes(queue, a) + Nodes(tail, b))
      decreases |a| + |b|, 0
    {
      hide Ring, MergeSorted;
      ghost var r, s := MergeSorted(cmp, a), MergeSorted(cmp, b);
      SortPermutes(cmp, a);
      SameMembers(r, a);
      SortPermutes(cmp, b);
      SameMembers(s, b);
      RingWithin(links, queue, a);
      RingWithin(links, tail, b);
      ghost var m := links;
      Sort(queue, cmp, a);
      RingFrame(m, links, tail, b);
      m := links;
      Sort(tail, cmp, b);
      RingFrame(m, links, queue, r);
      Merge(queue, tail, cmp, r, s);
    }

    method AddAll(queue: Node, tail: Node, ghost a: seq<Node>, ghost b: seq<Node>)
      requires Rings(links, queue, a, tail, b) && b != []
      modifies this
      ensures Ring(links, queue, a + b) && Others(old(links), links, Nodes(queue, a) + Nodes(tail, b))
    {
      Add(queue, tail, a, b);
    }
  }

  // Two rings without common nodes.
  ghost predicate Apart(h: Node, n: Node, a: seq<Node>, b: seq<Node>) {
    h != n && n !in a && h !in b && forall x :: x in a ==> x !in b
  }

  ghost predicate Rings(m: Mem, h: Node, a: seq<Node>, n: Node, b: seq<Node>) {
    Ring(m, h, a) && Ring(m, n, b) && Apart(h, n, a, b)
  }

  ghost function Nodes(h: Node, q: seq<Node>): set<Node> {
    (set x | x in q) + {h}
  }

  /** Only records in `s` were written. */
  ghost predicate Others(m: Mem, w: Mem, s: set<Node>) {
    |w| == |m| && forall z :: 0 <= z < |m| && z !in s ==> w[z] == m[z]
  }

  lemma MergeStep(cmp: Cmp, done: seq<Node>, a: seq<Node>, b: seq<Node>)
    ensures a == [] ==> done + a + b == done + Merged(cmp, a, b)
    ensures b == [] ==> done + a == done + Merged(cmp, a, b)
    ensures a != [] ==> done + [a[0]] + a[1..] == done + a
    ensures a != [] && b != [] && cmp(a[0], b[0]) <= 0 ==>
      done + [a[0]] + Merged(cmp, a[1..], b) == done + Merged(cmp, a, b)
    ensures a != [] && b != [] && cmp(a[0], b[0]) > 0 ==>
      done + [b[0]] + Merged(cmp, a, b[1..]) == done + Merged(cmp, a, b)
  {
    if a != [] {
      assert a == [a[0]] + a[1..];
      Associate(done, a[0], a[1..]);
      Associate(done, a[0], Merged(cmp, a[1..], b));
    }
    if b != [] {
      Associate(done, b[0], Merged(cmp, a, b[1..]));
    }
    if a == [] {
      assert done + a == done;
    }
  }

  lemma Associate(a: seq<Node>, x: Node, b: seq<Node>)
    ensures a + [x] + b == a + ([x] + b)
  {
  }

  lemma OthersSame(m: Mem, s: set<Node>)
    ensures Others(m, m, s)
  {
  }

  lemma OthersThen(m: Mem, v: Mem, w: Mem, s: set<Node>)
    requires Others(m, v, s) && Others(v, w, s)
    ensures Others(m, w, s)
  {
  }

  lemma HalvesApart(m: Mem, h: Node, n: Node, a: seq<Node>, b: seq<Node>)
    requires Ring(m, h, a + b) && |m| <= n
    ensures Apart(h, n, a, b) && n !in b && Nodes(h, a + b) + {n} == Nodes(h, a) + Nodes(n, b)
  {
    RingWithin(m, h, a + b);
    Cut(m, h, a, b);
    assert forall x :: x in a || x in b ==> x in a + b;
  }

  lemma MovedApart(m: Mem, h: Node, n: Node, a: seq<Node>, b: seq<Node>, c: seq<Node>)
    requires Rings(m, h, a + b, n, c) && c != []
    ensures c[0] !in a && c[0] !in b && c[0] !in c[1..] && Apart(h, n, a + [c[0]] + b, c[1..])
    ensures Nodes(h, a + [c[0]] + b) + Nodes(n, c[1..]) == Nodes(h, a + b) + Nodes(n, c)
  {
    hide Ring;
    Body(m, n, c);
    assert c == [c[0]] + c[1..];
    DistinctSplit([c[0]], c[1..]);
    assert c[0] in [c[0]];
    assert c[0] in c && forall x :: x in a || x in b ==> x in a + b;
    assert forall x :: x in c[1..] ==> x in c;
  }

  /** Head and last of a ring: equal exactly when there is at most one node. */
  lemma Ends(m: Mem, h: Node, q: seq<Node>)
    requires Ring(m, h, q)
    ensures h < |m| && m[h].next == (q + [h])[0] && m[h].prev == ([h] + q)[|q|]
    ensures m[h].next == m[h].prev <==> |q| <= 1
    ensures q != [] ==> q[0] != h
  {
    RingWithin(m, h, q);
    assert StepAt(m, Loop(h, q), 0);
    assert StepAt(m, Loop(h, q), |q|);
    if q != [] {
      Body(m, h, q);
    }
  }

  /** Inside a ring the next link leads to the next node, and only the last node is the last. */
  lemma Along(m: Mem, h: Node, q: seq<Node>, i: nat)
    requires Ring(m, h, q) && i + 1 < |q|
    ensures h < |m| && q[i] < |m| && m[q[i]].next == q[i + 1]
    ensures q[i + 1] == m[h].prev <==> i + 2 == |q|
  {
    Ends(m, h, q);
    Body(m, h, q);
    assert StepAt(m, q, i);
  }

  lemma After(m: Mem, h: Node, a: seq<Node>, b: seq<Node>)
    requires Ring(m, h, a + b)
    ensures b != [] ==> b[0] < |m| && m[b[0]].next == (b[1..] + [h])[0] && b[0] != h
  {
    if b != [] {
      RingWithin(m, h, a + b);
      Cut(m, h, a, b);
      assert StepAt(m, b + [h], 0);
    }
  }
}
