/** The bytes of a bucket: elements one after the other, and a null value behind the last. */
module HashLayout {

  type Byte = nat

  const PTR: nat := 8

  // An entry without data is skipped.
  datatype Item = Gone | Item(key: seq<Byte>, hash: nat, value: nat)

  const LINE: nat := 64             // the cache line

  function Align8(n: nat): (r: nat)
    ensures n <= r < n + 8 && r % 8 == 0
  {
    (n + 7) / 8 * 8
  }

  // In whole cache lines.
  function LinesOf(n: nat): (r: nat)
    ensures n <= LINE * r < n + LINE
  {
    (n + 63) / 64
  }

  function AlignLine(n: nat): (r: nat)
    ensures n <= r < n + LINE && (n <= 0x10000 - LINE ==> r <= 0x10000 - LINE)
  {
    LINE * LinesOf(n)
  }

  /** bjrk-edge_HASH_ELT_SIZE: the value, the length, the name, and padding to a pointer. */
  function EltSize(key: seq<Byte>): (n: nat)
    ensures n % 8 == 0 && 10 + |key| <= n < 18 + |key|
  {
    PTR + Align8(|key| + 2)
  }

  // ----- little-endian words -----

  function Bytes(v: nat, n: nat): (b: seq<Byte>)
    ensures |b| == n
  {
    if n == 0 then [] else [v % 256] + Bytes(v / 256, n - 1)
  }

  function Value(b: seq<Byte>): nat {
    if b == [] then 0 else b[0] + 256 * Value(b[1..])
  }

  function Pow256(n: nat): (p: nat)
    ensures p > 0
  {
    if n == 0 then 1 else 256 * Pow256(n - 1)
  }

  lemma {:induction false} ValueOfBytes(v: nat, n: nat)
    requires v < Pow256(n)
    ensures Value(Bytes(v, n)) == v
  {
    if n > 0 {
      ValueOfBytes(v / 256, n - 1);
      assert Bytes(v, n)[1..] == Bytes(v / 256, n - 1);
    }
  }

  /** The low byte comes first. */
  lemma {:induction false} LowByteFirst(v: nat, n: nat, k: nat)
    requires k < n
    ensures Bytes(v, n)[k] == v / Pow256(k) % 256
  {
    if k > 0 {
      LowByteFirst(v / 256, n - 1, k - 1);
      DivTwice(v, Pow256(k - 1));
    }
  }

  lemma DivTwice(v: nat, p: nat)
    requires p > 0
    ensures v / 256 / p == v / (256 * p)
  {
    var q, r := v / 256 / p, v / 256 % p;
    assert v == 256 * (p * q + r) + v % 256;
    assert v == 256 * p * q + (256 * r + v % 256);
    OneQuotient(v, 256 * p, q, 256 * r + v % 256);
  }

  lemma OneQuotient(v: nat, d: nat, q: nat, r: nat)
    requires d > 0 && r < d && v == d * q + r
    ensures v / d == q
  {
    var x := v / d - q;
    assert v == d * (v / d) + v % d;
    assert d * x == r - v % d;
    assert x > 0 ==> d * x >= d;
    assert x < 0 ==> d * x + d <= 0;
  }

  // ----- elements -----

  function LowerByte(c: Byte): Byte {
    if 0x41 <= c <= 0x5a then c + 0x20 else c
  }

  function Lower(s: seq<Byte>): (l: seq<Byte>)
    ensures |l| == |s| && forall i :: 0 <= i < |s| ==> l[i] == LowerByte(s[i])
  {
    seq(|s|, i requires 0 <= i < |s| => LowerByte(s[i]))
  }

  /** The same letter, in either case, or the same byte. */
  predicate SameLetter(c: Byte, d: Byte) {
    || c == d
    || ('A' as nat <= c <= 'Z' as nat && d == c + 32)
    || ('A' as nat <= d <= 'Z' as nat && c == d + 32)
  }

  /** Names become the same in lower case if and only if they differ in the case of letters only; and there are no
      capital letters left. */
  lemma LowerForgetsCase(a: seq<Byte>, b: seq<Byte>)
    ensures Lower(a) == Lower(b) <==> |a| == |b| && forall i :: 0 <= i < |a| ==> SameLetter(a[i], b[i])
    ensures forall i :: 0 <= i < |a| ==> !('A' as nat <= Lower(a)[i] <= 'Z' as nat) && SameLetter(Lower(a)[i], a[i])
  {
    var x, y := Lower(a), Lower(b);
    if x == y {
      forall i | 0 <= i < |a|
        ensures SameLetter(a[i], b[i])
      {
        assert x[i] == y[i] == LowerByte(b[i]);
      }
    }
  }

  // What fits the fields: a value in a word, a length in a short.
  predicate Storable(x: Item) {
    x.Item? ==> x.value < Pow256(8) && |x.key| < Pow256(2)
  }

  function EltBytes(x: Item): (b: seq<Byte>)
    requires x.Item?
    ensures |b| == PTR + 2 + |x.key| <= EltSize(x.key)
  {
    Bytes(x.value, PTR) + Bytes(|x.key|, 2) + Lower(x.key)
  }

  ghost predicate EltAt(m: seq<Byte>, off: nat, x: Item)
    requires x.Item?
  {
    off + EltSize(x.key) <= |m| && m[off..off + PTR + 2 + |x.key|] == EltBytes(x)
  }

  function Total(chain: seq<Item>): nat {
    if chain == [] then 0 else EltSize(if chain[0].Item? then chain[0].key else []) + Total(chain[1..])
  }

  /** The elements stand one after the other from `off` on. */
  ghost predicate Packed(m: seq<Byte>, off: nat, chain: seq<Item>)
    decreases chain
  {
    chain != [] ==>
      chain[0].Item? && Storable(chain[0]) && EltAt(m, off, chain[0]) &&
        Packed(m, off + EltSize(chain[0].key), chain[1..])
  }

  /** Behind the last element a null value ends the bucket. */
  ghost predicate Ended(m: seq<Byte>, off: nat, chain: seq<Item>) {
    && Packed(m, off, chain) && off % PTR == 0
    && off + Total(chain) + PTR <= |m| && m[off + Total(chain)..off + Total(chain) + PTR] == Bytes(0, PTR)
  }

  // ----- what a bucket holds -----

  function Chain(items: seq<Item>, b: nat, size: nat): (c: seq<Item>)
    requires size > 0
    ensures forall i :: 0 <= i < |c| ==> c[i].Item? && c[i] in items && c[i].hash % size == b
  {
    if items == [] then []
    else
      var x := items[|items| - 1];
      Chain(items[..|items| - 1], b, size) + if x.Item? && x.hash % size == b then [x] else []
  }

  lemma {:induction false} TotalConcat(a: seq<Item>, b: seq<Item>)
    ensures Total(a + b) == Total(a) + Total(b)
  {
    if a == [] {
      assert a + b == b;
    } else {
      assert (a + b)[1..] == a[1..] + b;
      TotalConcat(a[1..], b);
    }
  }

  lemma {:induction false} PackedFrame(m: seq<Byte>, w: seq<Byte>, off: nat, chain: seq<Item>)
    requires Packed(m, off, chain) && |w| == |m| && off + Total(chain) <= |m|
    requires forall i :: off <= i < off + Total(chain) ==> w[i] == m[i]
    ensures Packed(w, off, chain)
    decreases chain
  {
    if chain != [] {
      var n := off + EltSize(chain[0].key);
      assert w[off..off + PTR + 2 + |chain[0].key|] == m[off..off + PTR + 2 + |chain[0].key|];
      PackedFrame(m, w, n, chain[1..]);
    }
  }

  lemma {:induction false} PackedAppend(m: seq<Byte>, off: nat, chain: seq<Item>, x: Item)
    requires Packed(m, off, chain) && x.Item? && Storable(x) && EltAt(m, off + Total(chain), x)
    ensures Packed(m, off, chain + [x])
    decreases chain
  {
    hide EltAt, Storable, EltSize;
    if chain == [] {
      assert chain + [x] == [x];
      assert [x][1..] == [];
    } else {
      assert (chain + [x])[1..] == chain[1..] + [x];
      PackedAppend(m, off + EltSize(chain[0].key), chain[1..], x);
    }
  }

  /** The alignment step of the reader leads to the next element. */
  lemma NextElement(off: nat, n: nat)
    requires off % PTR == 0
    ensures Align8(off + PTR + 2 + n) == off + PTR + Align8(n + 2)
  {
  }

  // ----- what a search gives -----

  /** The reader takes a null value for the end. */
  function FirstIn(chain: seq<Item>, name: seq<Byte>): nat {
    if chain == [] || chain[0].Gone? || chain[0].value == 0 then 0
    else if Lower(chain[0].key) == name then chain[0].value
    else FirstIn(chain[1..], name)
  }

  ghost predicate HaveValues(items: seq<Item>) {
    forall i :: 0 <= i < |items| && items[i].Item? ==> items[i].value != 0
  }

  lemma {:induction false} FirstInConcat(a: seq<Item>, b: seq<Item>, name: seq<Byte>)
    requires forall i :: 0 <= i < |a| ==> a[i].Item? && a[i].value != 0
    ensures FirstIn(a + b, name) == if FirstIn(a, name) != 0 then FirstIn(a, name) else FirstIn(b, name)
  {
    if a == [] {
      assert a + b == b;
    } else {
      assert (a + b)[1..] == a[1..] + b;
      FirstInConcat(a[1..], b, name);
    }
  }

  /** Of different names, the k-th is found if and only if no null value is before it. */
  lemma {:induction false} FoundUnlessHidden(chain: seq<Item>, k: nat, name: seq<Byte>)
    requires k < |chain| && chain[k].Item? && Lower(chain[k].key) == name && chain[k].value != 0
    requires forall i :: 0 <= i < |chain| ==> chain[i].Item? && (i != k ==> Lower(chain[i].key) != name)
    ensures FirstIn(chain, name) == if forall i :: 0 <= i < k ==> chain[i].value != 0 then chain[k].value else 0
  {
    if k > 0 {
      var rest := chain[1..];
      assert forall i :: 0 <= i < |rest| ==> rest[i] == chain[i + 1];
      FoundUnlessHidden(rest, k - 1, name);
      assert (forall i :: 0 <= i < k ==> chain[i].value != 0)
        <==> chain[0].value != 0 && forall i :: 0 <= i < k - 1 ==> rest[i].value != 0;
    }
  }

  /** The hash of an item is the hash of its name in lower case. */
  ghost predicate Hashed(items: seq<Item>, h: seq<Byte> -> nat) {
    forall i :: 0 <= i < |items| && items[i].Item? ==> items[i].hash == h(Lower(items[i].key))
  }

  ghost predicate DistinctNames(items: seq<Item>) {
    forall i, j :: 0 <= i < j < |items| && items[i].Item? && items[j].Item? ==>
      Lower(items[i].key) != Lower(items[j].key)
  }

  /** Searching the bucket of a name finds the value of the item with that name, and nothing else. */
  lemma {:induction false} BucketAnswers(items: seq<Item>, size: nat, h: seq<Byte> -> nat, name: seq<Byte>)
    requires size > 0 && Hashed(items, h) && HaveValues(items)
    ensures var v := FirstIn(Chain(items, h(name) % size, size), name);
      && (v != 0 ==> exists i ::
        0 <= i < |items| && items[i].Item? && Lower(items[i].key) == name && items[i].value == v)
      && (v == 0 ==> forall i :: 0 <= i < |items| && items[i].Item? ==> Lower(items[i].key) != name)
      && (DistinctNames(items) ==> forall i :: 0 <= i < |items| && items[i].Item? && Lower(items[i].key) == name ==>
        items[i].value == v)
  {
    hide Lower, Chain;
    ChainLast(items, h(name) % size, size);
    if items != [] {
      var n := |items| - 1;
      var a, x, b := items[..n], items[n], h(name) % size;
      BucketAnswers(a, size, h, name);
      assert forall i :: 0 <= i < n ==> a[i] == items[i];
      var one := if x.Item? && x.hash % size == b then [x] else [];
      FirstInConcat(Chain(a, b, size), one, name);
      assert one != [] ==> one[1..] == [];
      assert items[n] == x;
    }
  }

  lemma ChainLast(items: seq<Item>, b: nat, size: nat)
    requires size > 0
    ensures items == [] ==> Chain(items, b, size) == []
    ensures items != [] ==> var x := items[|items| - 1];
      Chain(items, b, size) == Chain(items[..|items| - 1], b, size) + if x.Item? && x.hash % size == b then [x] else []
  {
  }
}
