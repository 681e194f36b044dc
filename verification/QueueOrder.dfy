/** What the queue sort computes, and that it is the stable sort. */
module QueueOrder {
  import opened Common
  import opened QueueRing

  /** The comparison of the caller: at most 0 when the first node may stay before the second. */
  type Cmp = (Node, Node) -> int

  function Merged(cmp: Cmp, a: seq<Node>, b: seq<Node>): seq<Node> {
    if a == [] then b
    else if b == [] then a
    else if cmp(a[0], b[0]) <= 0 then [a[0]] + Merged(cmp, a[1..], b)
    else [b[0]] + Merged(cmp, a, b[1..])
  }

  function MergeSorted(cmp: Cmp, q: seq<Node>): seq<Node> {
    if |q| <= 1 then q
    else Merged(cmp, MergeSorted(cmp, q[..|q| / 2]), MergeSorted(cmp, q[|q| / 2..]))
  }

  ghost predicate TotalPreorder(cmp: Cmp) {
    && (forall x, y :: cmp(x, y) <= 0 || cmp(y, x) <= 0)
    && (forall x, y, z :: cmp(x, y) <= 0 && cmp(y, z) <= 0 ==> cmp(x, z) <= 0)
  }

  ghost predicate InOrder(cmp: Cmp, q: seq<Node>) {
    forall i, j :: 0 <= i < j < |q| ==> cmp(q[i], q[j]) <= 0
  }

  ghost predicate Before(q: seq<Node>, x: Node, y: Node) {
    exists i, j :: 0 <= i < j < |q| && q[i] == x && q[j] == y
  }

  /** In a stable sort of `q` the node `x` must come before `y`: it was before and is not greater, or
      it was behind and is less. */
  ghost predicate MustPrecede(cmp: Cmp, q: seq<Node>, x: Node, y: Node) {
    (Before(q, x, y) && cmp(x, y) <= 0) || (Before(q, y, x) && cmp(y, x) > 0)
  }

  ghost predicate StableSort(cmp: Cmp, q: seq<Node>, r: seq<Node>) {
    && multiset(r) == multiset(q) && InOrder(cmp, r)
    && forall x, y :: MustPrecede(cmp, q, x, y) ==> Before(r, x, y)
  }

  // ----- permutation, for any comparison -----

  lemma {:induction false} MergedElements(cmp: Cmp, a: seq<Node>, b: seq<Node>)
    ensures multiset(Merged(cmp, a, b)) == multiset(a) + multiset(b)
  {
    if a == [] || b == [] {
    } else if cmp(a[0], b[0]) <= 0 {
      assert a == [a[0]] + a[1..];
      MergedElements(cmp, a[1..], b);
    } else {
      assert b == [b[0]] + b[1..];
      MergedElements(cmp, a, b[1..]);
    }
  }

  lemma {:induction false} SortPermutes(cmp: Cmp, q: seq<Node>)
    ensures multiset(MergeSorted(cmp, q)) == multiset(q)
  {
    if |q| > 1 {
      var a, b := q[..|q| / 2], q[|q| / 2..];
      assert q == a + b;
      SortPermutes(cmp, a);
      SortPermutes(cmp, b);
      MergedElements(cmp, MergeSorted(cmp, a), MergeSorted(cmp, b));
    }
  }

  lemma SameMembers(r: seq<Node>, q: seq<Node>)
    requires multiset(r) == multiset(q)
    ensures |r| == |q| && forall x :: x in r <==> x in q
  {
    assert |multiset(r)| == |r| && |multiset(q)| == |q|;
    assert forall x :: x in r <==> x in multiset(r);
  }

  lemma MergedMembers(cmp: Cmp, a: seq<Node>, b: seq<Node>)
    ensures forall x :: x in Merged(cmp, a, b) <==> x in a || x in b
  {
    MergedElements(cmp, a, b);
    SameMembers(Merged(cmp, a, b), a + b);
  }

  // ----- order and stability, for a total preorder -----

  lemma BeforeCons(h: Node, t: seq<Node>, x: Node, y: Node)
    ensures Before([h] + t, x, y) <==> (x == h && y in t) || Before(t, x, y)
  {
    var q := [h] + t;
    if Before(q, x, y) {
      var i, j :| 0 <= i < j < |q| && q[i] == x && q[j] == y;
      assert q[j] == t[j - 1];
      assert i > 0 ==> q[i] == t[i - 1];
    }
    if x == h && y in t {
      var j :| 0 <= j < |t| && t[j] == y;
      assert q[0] == x && q[j + 1] == y;
    }
    if Before(t, x, y) {
      var i, j :| 0 <= i < j < |t| && t[i] == x && t[j] == y;
      assert q[i + 1] == x && q[j + 1] == y;
    }
  }

  // Where `x` comes before `y` in the merge.
  ghost predicate MergePrecedes(cmp: Cmp, a: seq<Node>, b: seq<Node>, x: Node, y: Node) {
    || Before(a, x, y) || Before(b, x, y)
    || (x in a && y in b && cmp(x, y) <= 0)
    || (x in b && y in a && cmp(y, x) > 0)
  }

  // The head that goes first precedes everything else, and the rest is a merge again.
  lemma HeadOfFirst(cmp: Cmp, a: seq<Node>, b: seq<Node>, x: Node, y: Node)
    requires TotalPreorder(cmp) && InOrder(cmp, b) && MergePrecedes(cmp, a, b, x, y)
    requires a != [] && b != [] && cmp(a[0], b[0]) <= 0
    ensures MergePrecedes(cmp, a[1..], b, x, y) || (x == a[0] && (y in a[1..] || y in b))
  {
    var t := a[1..];
    assert a == [a[0]] + t;
    BeforeCons(a[0], t, x, y);
    TailMembers(b, x, y);
    assert x in b ==> cmp(a[0], x) <= 0;
  }

  lemma HeadOfSecond(cmp: Cmp, a: seq<Node>, b: seq<Node>, x: Node, y: Node)
    requires TotalPreorder(cmp) && InOrder(cmp, a) && MergePrecedes(cmp, a, b, x, y)
    requires a != [] && b != [] && cmp(a[0], b[0]) > 0
    ensures MergePrecedes(cmp, a, b[1..], x, y) || (x == b[0] && (y in a || y in b[1..]))
  {
    var t := b[1..];
    assert b == [b[0]] + t;
    BeforeCons(b[0], t, x, y);
    TailMembers(a, x, y);
    assert x in a ==> cmp(x, b[0]) > 0;
  }

  lemma {:induction false} MergeOrder(cmp: Cmp, a: seq<Node>, b: seq<Node>, x: Node, y: Node)
    requires TotalPreorder(cmp) && InOrder(cmp, a) && InOrder(cmp, b) && MergePrecedes(cmp, a, b, x, y)
    ensures Before(Merged(cmp, a, b), x, y)
  {
    hide MergePrecedes, Before;
    if a == [] || b == [] {
      NoOther(cmp, a, b, x, y);
    } else if cmp(a[0], b[0]) <= 0 {
      HeadOfFirst(cmp, a, b, x, y);
      BeforeCons(a[0], Merged(cmp, a[1..], b), x, y);
      MergedMembers(cmp, a[1..], b);
      if MergePrecedes(cmp, a[1..], b, x, y) {
        MergeOrder(cmp, a[1..], b, x, y);
      }
    } else {
      HeadOfSecond(cmp, a, b, x, y);
      BeforeCons(b[0], Merged(cmp, a, b[1..]), x, y);
      MergedMembers(cmp, a, b[1..]);
      if MergePrecedes(cmp, a, b[1..], x, y) {
        MergeOrder(cmp, a, b[1..], x, y);
      }
    }
  }

  lemma NoOther(cmp: Cmp, a: seq<Node>, b: seq<Node>, x: Node, y: Node)
    requires (a == [] || b == []) && MergePrecedes(cmp, a, b, x, y)
    ensures Before(if a == [] then b else a, x, y)
  {
  }

  lemma {:induction false} MergeInOrder(cmp: Cmp, a: seq<Node>, b: seq<Node>)
    requires TotalPreorder(cmp) && InOrder(cmp, a) && InOrder(cmp, b)
    ensures InOrder(cmp, Merged(cmp, a, b))
  {
    if a == [] || b == [] {
    } else if cmp(a[0], b[0]) <= 0 {
      MergeInOrder(cmp, a[1..], b);
      MergedMembers(cmp, a[1..], b);
      OrderCons(cmp, a[0], Merged(cmp, a[1..], b));
    } else {
      MergeInOrder(cmp, a, b[1..]);
      MergedMembers(cmp, a, b[1..]);
      OrderCons(cmp, b[0], Merged(cmp, a, b[1..]));
    }
  }

  lemma OrderCons(cmp: Cmp, h: Node, t: seq<Node>)
    requires InOrder(cmp, t) && forall x :: x in t ==> cmp(h, x) <= 0
    ensures InOrder(cmp, [h] + t)
  {
  }

  lemma BeforeConcat(a: seq<Node>, b: seq<Node>, x: Node, y: Node)
    ensures Before(a + b, x, y) <==> Before(a, x, y) || Before(b, x, y) || (x in a && y in b)
  {
    var q := a + b;
    if Before(q, x, y) {
      var i, j :| 0 <= i < j < |q| && q[i] == x && q[j] == y;
      assert i < |a| ==> q[i] == a[i];
      assert i >= |a| ==> q[i] == b[i - |a|];
      assert j < |a| ==> q[j] == a[j];
      assert j >= |a| ==> q[j] == b[j - |a|];
    }
    if Before(a, x, y) {
      var i, j :| 0 <= i < j < |a| && a[i] == x && a[j] == y;
      assert q[i] == x && q[j] == y;
    }
    if Before(b, x, y) {
      var i, j :| 0 <= i < j < |b| && b[i] == x && b[j] == y;
      assert q[|a| + i] == x && q[|a| + j] == y;
    }
    if x in a && y in b {
      var i, j :| 0 <= i < |a| && 0 <= j < |b| && a[i] == x && b[j] == y;
      assert q[i] == x && q[|a| + j] == y;
    }
  }

  /** The queue sort is the stable sort. */
  lemma {:induction false} SortIsStable(cmp: Cmp, q: seq<Node>)
    requires TotalPreorder(cmp)
    ensures StableSort(cmp, q, MergeSorted(cmp, q))
  {
    SortPermutes(cmp, q);
    if |q| > 1 {
      var a, b := q[..|q| / 2], q[|q| / 2..];
      assert q == a + b;
      SortIsStable(cmp, a);
      SortIsStable(cmp, b);
      var r, s := MergeSorted(cmp, a), MergeSorted(cmp, b);
      MergeInOrder(cmp, r, s);
      forall x, y | MustPrecede(cmp, q, x, y)
        ensures Before(Merged(cmp, r, s), x, y)
      {
        HalvesPrecede(cmp, a, b, r, s, x, y);
        MergeOrder(cmp, r, s, x, y);
      }
    }
  }

  lemma HalvesPrecede(cmp: Cmp, a: seq<Node>, b: seq<Node>, r: seq<Node>, s: seq<Node>, x: Node, y: Node)
    requires StableSort(cmp, a, r) && StableSort(cmp, b, s) && MustPrecede(cmp, a + b, x, y)
    ensures MergePrecedes(cmp, r, s, x, y)
  {
    BeforeConcat(a, b, x, y);
    BeforeConcat(a, b, y, x);
    SameMembers(r, a);
    SameMembers(s, b);
    assert MustPrecede(cmp, a, x, y) ==> Before(r, x, y);
    assert MustPrecede(cmp, b, x, y) ==> Before(s, x, y);
  }

  /** Distinct nodes have one stable order only. */
  lemma {:induction false} StableSortIsUnique(cmp: Cmp, q: seq<Node>, r: seq<Node>, s: seq<Node>)
    requires Distinct(q) && StableSort(cmp, q, r) && StableSort(cmp, q, s)
    ensures r == s
  {
    SameMembers(r, q);
    SameMembers(s, q);
    DistinctPermutation(r, q);
    DistinctPermutation(s, q);
    forall x, y
      ensures Before(r, x, y) == Before(s, x, y)
    {
      Decided(cmp, q, r, x, y);
      Decided(cmp, q, s, x, y);
    }
    SameOrder(r, s);
  }

  lemma Once(q: seq<Node>, x: Node, i: nat, j: nat)
    requires multiset(q)[x] <= 1 && i < j < |q|
    ensures q[i] != x || q[j] != x
  {
    assert q == q[..j] + q[j..];
    assert q[..j][i] == q[i] && q[j..][0] == q[j];
    assert multiset(q) == multiset(q[..j]) + multiset(q[j..]);
    assert q[i] in multiset(q[..j]) && q[j] in multiset(q[j..]);
  }

  lemma {:induction false} OnceEach(q: seq<Node>, x: Node)
    requires Distinct(q)
    ensures multiset(q)[x] <= 1
  {
    if q != [] {
      var t := q[1..];
      assert q == [q[0]] + t;
      OnceEach(t, x);
      assert multiset(q)[x] == (if q[0] == x then 1 else 0) + multiset(t)[x];
      assert forall k :: 0 <= k < |t| ==> t[k] == q[k + 1];
      assert q[0] !in t;
      assert q[0] !in multiset(t);
    }
  }

  lemma DistinctPermutation(r: seq<Node>, q: seq<Node>)
    requires Distinct(q) && multiset(r) == multiset(q)
    ensures Distinct(r)
  {
    forall i, j | 0 <= i < j < |r|
      ensures r[i] != r[j]
    {
      OnceEach(q, r[i]);
      Once(r, r[i], i, j);
    }
  }

  // Of two different nodes one comes first; that is decided by the old order and the comparison.
  lemma Decided(cmp: Cmp, q: seq<Node>, r: seq<Node>, x: Node, y: Node)
    requires Distinct(q) && Distinct(r) && StableSort(cmp, q, r)
    ensures Before(r, x, y) <==> MustPrecede(cmp, q, x, y)
  {
    SameMembers(r, q);
    if Before(r, x, y) {
      NotBoth(r, x, y);
      assert x in r && y in r && x != y;
      Ordered(q, x, y);
      assert !MustPrecede(cmp, q, y, x);
    }
  }

  lemma NotBoth(r: seq<Node>, x: Node, y: Node)
    requires Distinct(r) && Before(r, x, y)
    ensures !Before(r, y, x) && x != y && x in r && y in r
  {
    var i, j :| 0 <= i < j < |r| && r[i] == x && r[j] == y;
    forall k, l | 0 <= k < l < |r| && r[k] == y
      ensures r[l] != x
    {
      assert k == j;
    }
  }

  lemma Ordered(q: seq<Node>, x: Node, y: Node)
    requires x in q && y in q && x != y
    ensures Before(q, x, y) || Before(q, y, x)
  {
    var i, j :| 0 <= i < |q| && 0 <= j < |q| && q[i] == x && q[j] == y;
  }

  lemma {:induction false} SameOrder(r: seq<Node>, s: seq<Node>)
    requires Distinct(r) && Distinct(s) && |r| == |s| && (forall x :: x in r <==> x in s)
    requires forall x, y :: Before(r, x, y) == Before(s, x, y)
    ensures r == s
  {
    if r != [] {
      var a, b := r[1..], s[1..];
      assert r == [r[0]] + a && s == [s[0]] + b;
      assert r[0] == s[0] by {
        if r[0] != s[0] {
          Ordered(r, r[0], s[0]);
          HeadFirst(r, s[0]);
          HeadFirst(s, r[0]);
        }
      }
      assert forall k :: 0 <= k < |a| ==> a[k] == r[k + 1];
      assert forall k :: 0 <= k < |b| ==> b[k] == s[k + 1];
      assert r[0] !in a && s[0] !in b;
      assert forall x :: x in a <==> x in r && x != r[0];
      assert forall x :: x in b <==> x in s && x != s[0];
      forall x, y
        ensures Before(a, x, y) == Before(b, x, y)
      {
        BeforeCons(r[0], a, x, y);
        BeforeCons(s[0], b, x, y);
        TailMembers(a, x, y);
        TailMembers(b, x, y);
      }
      SameOrder(a, b);
    }
  }

  lemma TailMembers(a: seq<Node>, x: Node, y: Node)
    ensures Before(a, x, y) ==> x in a && y in a
  {
  }

  lemma HeadFirst(q: seq<Node>, x: Node)
    requires Distinct(q) && q != [] && x in q && x != q[0]
    ensures Before(q, q[0], x) && !Before(q, x, q[0])
  {
    var i :| 0 <= i < |q| && q[i] == x;
    NotBoth(q, q[0], x);
  }
}
