/** Key order, with and without wrap-around. */
module RBOrder {
  import opened Common
  import opened RBShape

  const HALF: nat := 0x8000_0000_0000_0000

  /** The comparison of the insert functions: `a < b` on unsigned keys, or, for timers, the sign of
      the wrapped difference. */
  predicate Less(timer: bool, a: nat, b: nat) {
    if timer then (a - b) % WRAP >= HALF else a < b
  }

  // Distance from `base`, around the clock.
  function Rank(base: nat, k: nat): nat {
    (k - base) % WRAP
  }

  /** Timers must lie within half the clock from some base; plain keys need only be words. */
  predicate InWindow(timer: bool, base: nat, k: nat) {
    k < WRAP && base < WRAP && if timer then Rank(base, k) < HALF else base == 0
  }

  /** Inside the window the comparison is the order of ranks, wrapped or not. */
  /** The timer order looks half the numbers ahead and half of them back, without the window, too. */
  lemma LessIsSigned(a: nat, b: nat)
    requires a < 0x1_0000_0000_0000_0000 && b < 0x1_0000_0000_0000_0000
    ensures Less(true, a, b) <==> if a < b then b - a <= 0x8000_0000_0000_0000 else a - b >= 0x8000_0000_0000_0000
    ensures Less(false, a, b) <==> a < b
  {
  }

  lemma LessIsRank(timer: bool, base: nat, a: nat, b: nat)
    requires InWindow(timer, base, a) && InWindow(timer, base, b)
    ensures Less(timer, a, b) <==> Rank(base, a) < Rank(base, b)
  {
  }

  ghost predicate Sorted(m: Mem, base: nat, s: seq<Node>) {
    forall i, j :: 0 <= i < j < |s| && s[i] < |m| && s[j] < |m| ==> Rank(base, m[s[i]].key) <= Rank(base, m[s[j]].key)
  }

  ghost predicate AllInWindow(m: Mem, timer: bool, base: nat, s: seq<Node>) {
    forall x :: x in s && x < |m| ==> InWindow(timer, base, m[x].key)
  }

  /** All of `s` comes before a key of rank `r`, equal keys included. */
  ghost predicate UpTo(m: Mem, base: nat, s: seq<Node>, r: nat) {
    forall x :: x in s && x < |m| ==> Rank(base, m[x].key) <= r
  }

  ghost predicate Past(m: Mem, base: nat, s: seq<Node>, r: nat) {
    forall x :: x in s && x < |m| ==> r < Rank(base, m[x].key)
  }

  lemma SortedParts(m: Mem, base: nat, a: seq<Node>, l: seq<Node>, x: Node, r: seq<Node>, b: seq<Node>)
    requires Sorted(m, base, a + (l + [x] + r) + b) && x < |m|
    ensures UpTo(m, base, l, Rank(base, m[x].key))
    ensures forall y :: y in r && y < |m| ==> Rank(base, m[x].key) <= Rank(base, m[y].key)
  {
    var s := a + (l + [x] + r) + b;
    var k := |a| + |l|;
    assert s[k] == x;
    forall y | y in l && y < |m|
      ensures Rank(base, m[y].key) <= Rank(base, m[x].key)
    {
      var i :| 0 <= i < |l| && l[i] == y;
      assert s[|a| + i] == y;
    }
    forall y | y in r && y < |m|
      ensures Rank(base, m[x].key) <= Rank(base, m[y].key)
    {
      var i :| 0 <= i < |r| && r[i] == y;
      assert s[k + 1 + i] == y;
    }
  }

  /** Putting a node between the smaller-or-equal and the greater ones keeps the order. */
  lemma SortedInsert(m: Mem, base: nat, a: seq<Node>, x: Node, b: seq<Node>)
    requires Sorted(m, base, a + b) && x < |m|
    requires UpTo(m, base, a, Rank(base, m[x].key)) && Past(m, base, b, Rank(base, m[x].key))
    ensures Sorted(m, base, a + [x] + b)
  {
    var s, t := a + b, a + [x] + b;
    forall i, j | 0 <= i < j < |t| && t[i] < |m| && t[j] < |m|
      ensures Rank(base, m[t[i]].key) <= Rank(base, m[t[j]].key)
    {
      var i', j' := if i < |a| then i else i - 1, if j < |a| then j else j - 1;
      if i == |a| {
        assert t[j] == b[j - |a| - 1];
      } else if j == |a| {
        assert t[i] == a[i];
      } else {
        assert t[i] == s[i'] && t[j] == s[j'];
      }
    }
  }

  lemma SortedRemove(m: Mem, base: nat, a: seq<Node>, x: Node, b: seq<Node>)
    requires Sorted(m, base, a + [x] + b)
    ensures Sorted(m, base, a + b)
  {
    var s, t := a + [x] + b, a + b;
    forall i, j | 0 <= i < j < |t| && t[i] < |m| && t[j] < |m|
      ensures Rank(base, m[t[i]].key) <= Rank(base, m[t[j]].key)
    {
      var i', j' := if i < |a| then i else i + 1, if j < |a| then j else j + 1;
      assert t[i] == s[i'] && t[j] == s[j'];
    }
  }

  ghost predicate Comparable(m: Mem, timer: bool, base: nat, s: seq<Node>, node: Node) {
    node < |m| && Sorted(m, base, s) && AllInWindow(m, timer, base, s + [node])
  }

  /** Whenever the keys can be compared, `i` is the place for the node: after all keys not greater
      than its own, before all greater ones. */
  ghost predicate Placed(m: Mem, timer: bool, s: seq<Node>, node: Node, i: nat) {
    node < |m| && i <= |s| &&
    forall base :: Comparable(m, timer, base, s, node) ==>
      && UpTo(m, base, s[..i], Rank(base, m[node].key)) && Past(m, base, s[i..], Rank(base, m[node].key))
      && Sorted(m, base, s[..i] + [node] + s[i..])
  }
}
