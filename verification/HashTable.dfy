/** Building the bucket hash, and searching it. */
module HashTable {
  import opened Common
  import opened HashLayout

  const NONE: int := -1
  const SHORT_LIMIT: nat := 0x10000 - LINE

  datatype Outcome = Built | Refused | DividesByZero

  // ----- how much room the buckets take -----

  // The lines of a bucket, and of all buckets before it.
  function RoomLines(items: seq<Item>, b: nat, size: nat): nat
    requires size > 0
  {
    if Chain(items, b, size) == [] then 0 else LinesOf(PTR + Total(Chain(items, b, size)))
  }

  function StartLine(items: seq<Item>, b: nat, size: nat): nat
    requires size > 0
  {
    if b == 0 then 0 else StartLine(items, b - 1, size) + RoomLines(items, b - 1, size)
  }

  function Room(items: seq<Item>, b: nat, size: nat): (r: nat)
    requires size > 0
    ensures Chain(items, b, size) != [] ==> Total(Chain(items, b, size)) + PTR <= r < Total(Chain(items, b, size)) + 72
    ensures r % 64 == 0 && (Chain(items, b, size) == [] ==> r == 0)
  {
    LINE * RoomLines(items, b, size)
  }

  // Where bucket `b` starts.
  function Start(items: seq<Item>, b: nat, size: nat): (r: nat)
    requires size > 0
    ensures r % PTR == 0 && r % 64 == 0
  {
    LINE * StartLine(items, b, size)
  }

  function Place(items: seq<Item>, b: nat, size: nat): int
    requires size > 0
  {
    if Chain(items, b, size) == [] then NONE else Start(items, b, size)
  }

  lemma {:induction false} LinesApart(items: seq<Item>, b: nat, c: nat, size: nat)
    requires size > 0 && b < c
    ensures StartLine(items, b, size) + RoomLines(items, b, size) <= StartLine(items, c, size)
  {
    hide RoomLines;
    if b + 1 < c {
      LinesApart(items, b, c - 1, size);
    }
  }

  lemma StartsApart(items: seq<Item>, b: nat, c: nat, size: nat)
    requires size > 0 && b < c
    ensures Start(items, b, size) + Room(items, b, size) <= Start(items, c, size)
  {
    LinesApart(items, b, c, size);
  }

  lemma {:induction false} ChainGrows(items: seq<Item>, n: nat, b: nat, size: nat)
    requires size > 0 && n <= |items|
    ensures Total(Chain(items[..n], b, size)) <= Total(Chain(items, b, size))
    decreases |items| - n
  {
    if n == |items| {
      assert items[..n] == items;
    } else {
      var a := items[..n + 1];
      assert a[..n] == items[..n];
      TotalConcat(Chain(items[..n], b, size), Chain(a, b, size)[|Chain(items[..n], b, size)|..]);
      assert Chain(a, b, size) == Chain(items[..n], b, size) + Chain(a, b, size)[|Chain(items[..n], b, size)|..];
      ChainGrows(items, n + 1, b, size);
    }
  }

  // One more item.
  lemma ChainStep(items: seq<Item>, n: nat, b: nat, size: nat)
    requires size > 0 && n < |items|
    ensures var x := items[n];
      Chain(items[..n + 1], b, size) == Chain(items[..n], b, size) + if x.Item? && x.hash % size == b then [x] else []
  {
    assert items[..n + 1][..n] == items[..n];
  }

  lemma TotalOne(c: seq<Item>, x: Item)
    requires x.Item?
    ensures Total(c + [x]) == Total(c) + EltSize(x.key)
  {
    TotalConcat(c, [x]);
    assert [x][1..] == [];
  }

  // The bytes of bucket `b` after the first `n` items.
  function Filled(items: seq<Item>, n: nat, b: nat, size: nat): nat
    requires size > 0 && n <= |items|
  {
    Total(Chain(items[..n], b, size))
  }

  function Added(x: Item, b: nat, size: nat): nat
    requires size > 0
  {
    if x.Item? && x.hash % size == b then EltSize(x.key) else 0
  }

  lemma FilledStep(items: seq<Item>, n: nat, b: nat, size: nat)
    requires size > 0 && n < |items|
    ensures var x := items[n];
      Filled(items, n + 1, b, size) == Filled(items, n, b, size) + Added(x, b, size)
    ensures Filled(items, n + 1, b, size) <= Total(Chain(items, b, size))
  {
    var x := items[n];
    ChainStep(items, n, b, size);
    if x.Item? && x.hash % size == b {
      TotalOne(Chain(items[..n], b, size), x);
    } else {
      assert Chain(items[..n], b, size) + [] == Chain(items[..n], b, size);
    }
    ChainGrows(items, n + 1, b, size);
  }

  lemma FilledEnds(items: seq<Item>, b: nat, size: nat)
    requires size > 0
    ensures Filled(items, 0, b, size) == 0 && Filled(items, |items|, b, size) == Total(Chain(items, b, size))
  {
    assert items[..0] == [] && items[..|items|] == items;
  }

  lemma TotalIsZero(c: seq<Item>)
    ensures Total(c) == 0 <==> c == []
  {
  }

  ghost predicate Fits(items: seq<Item>, size: nat, first: nat, limit: nat)
    requires size > 0
  {
    forall b :: 0 <= b < size ==> first + Total(Chain(items, b, size)) <= limit
  }

  ghost predicate NoItems(items: seq<Item>) {
    forall i :: 0 <= i < |items| ==> items[i].Gone?
  }

  // ----- the loops -----

  // The sum of a bucket after the first `n` items.
  ghost predicate IsSum(t: nat, items: seq<Item>, n: nat, b: nat, size: nat, first: nat, limit: nat)
    requires size > 0 && n <= |items|
  {
    t == first + Filled(items, n, b, size) <= limit
  }

  ghost predicate Sums(t: seq<nat>, items: seq<Item>, n: nat, size: nat, first: nat, limit: nat)
    requires 0 < size <= |t| && n <= |items|
  {
    forall b :: 0 <= b < size ==> IsSum(t[b], items, n, b, size, first, limit)
  }

  // A deleted name adds nothing.
  lemma SumsSkip(t: seq<nat>, items: seq<Item>, n: nat, size: nat, first: nat, limit: nat)
    requires 0 < size <= |t| && n < |items| && Sums(t, items, n, size, first, limit) && items[n].Gone?
    ensures Sums(t, items, n + 1, size, first, limit)
  {
    hide Filled;
    forall b | 0 <= b < size
      ensures IsSum(t[b], items, n + 1, b, size, first, limit)
    {
      FilledStep(items, n, b, size);
      assert IsSum(t[b], items, n, b, size, first, limit);
    }
  }

  // The bucket of an item.
  function Bucket(x: Item, size: nat): (b: nat)
    requires x.Item? && size > 0
    ensures b < size
  {
    x.hash % size
  }

  lemma FilledBucket(items: seq<Item>, n: nat, b: nat, size: nat)
    requires size > 0 && n < |items| && items[n].Item?
    ensures Filled(items, n + 1, b, size)
      == Filled(items, n, b, size) + if b == Bucket(items[n], size) then EltSize(items[n].key) else 0
  {
    hide Filled, EltSize;
    FilledStep(items, n, b, size);
  }

  // The size of one more item is too much for its bucket, or is added there.
  lemma SumsAdd(t: seq<nat>, u: seq<nat>, items: seq<Item>, n: nat, size: nat, first: nat, limit: nat)
    requires 0 < size <= |t| && n < |items| && Sums(t, items, n, size, first, limit) && items[n].Item?
    requires u == t[Bucket(items[n], size) := t[Bucket(items[n], size)] + EltSize(items[n].key)]
    ensures if u[Bucket(items[n], size)] > limit then !Fits(items, size, first, limit)
            else Sums(u, items, n + 1, size, first, limit)
  {
    hide Filled, Chain, EltSize, Bucket;
    var key := Bucket(items[n], size);
    FilledBucket(items, n, key, size);
    FilledStep(items, n, key, size);
    assert IsSum(t[key], items, n, key, size, first, limit);
    if u[key] <= limit {
      forall b | 0 <= b < size
        ensures IsSum(u[b], items, n + 1, b, size, first, limit)
      {
        FilledBucket(items, n, b, size);
        assert IsSum(t[b], items, n, b, size, first, limit);
      }
    }
  }

  lemma SumsEnd(t: seq<nat>, items: seq<Item>, size: nat, first: nat, limit: nat)
    requires 0 < size <= |t| && Sums(t, items, |items|, size, first, limit)
    ensures Fits(items, size, first, limit)
    ensures forall b :: 0 <= b < size ==> t[b] == first + Total(Chain(items, b, size))
  {
    hide Filled, Chain;
    forall b | 0 <= b < size
      ensures t[b] == first + Total(Chain(items, b, size)) <= limit
    {
      assert IsSum(t[b], items, |items|, b, size, first, limit);
      FilledEnds(items, b, size);
    }
  }

  lemma SumsStart(t: seq<nat>, items: seq<Item>, size: nat, first: nat, limit: nat)
    requires 0 < size <= |t| && first <= limit && forall b :: 0 <= b < size ==> t[b] == first
    ensures Sums(t, items, 0, size, first, limit)
  {
    hide Filled, Chain;
    forall b | 0 <= b < size
      ensures IsSum(t[b], items, 0, b, size, first, limit)
    {
      FilledEnds(items, b, size);
    }
  }

  // Sums the sizes of the elements up per bucket, until one is over the limit.
  method Sum(items: seq<Item>, size: nat, first: nat, limit: nat, test: array<nat>) returns (fits: bool)
    requires 0 < size <= test.Length && first <= limit && (limit < 0x10000 || NoItems(items))
    modifies test
    ensures fits <==> Fits(items, size, first, limit)
    ensures fits ==> forall b :: 0 <= b < size ==> test[b] == first + Total(Chain(items, b, size))
  {
    hide Sums, Chain, EltSize, Fits;
    var i := 0;
    while i < size
      invariant i <= size && forall b :: 0 <= b < i ==> test[b] == first
    {
      test[i] := first;
      i := i + 1;
    }
    var n := 0;
    SumsStart(test[..], items, size, first, limit);
    while n < |items|
      invariant n <= |items| && Sums(test[..], items, n, size, first, limit)
    {
      if items[n].Item? {
        var key := items[n].hash % size;
        var len: nat := test[key] + EltSize(items[n].key);
        ghost var was := test[..];
        SumsAdd(was, was[key := len], items, n, size, first, limit);
        if len > limit {
          return false;
        }
        test[key] := len % 0x10000;
        assert test[..] == was[key := len];
      } else {
        SumsSkip(test[..], items, n, size, first, limit);
      }
      n := n + 1;
    }
    SumsEnd(test[..], items, size, first, limit);
    fits := true;
  }

  method SameName(mem: array<Byte>, off: nat, name: seq<Byte>) returns (same: bool)
    requires off + |name| <= mem.Length
    ensures same <==> mem[off..off + |name|] == name
  {
    var i := 0;
    while i < |name| && name[i] == mem[off + i]
      invariant i <= |name| && forall k :: 0 <= k < i ==> name[k] == mem[off + k]
    {
      i := i + 1;
    }
    same := i == |name|;
    assert !same ==> mem[off..off + |name|][i] != name[i];
  }

  method PutBytes(mem: array<Byte>, off: nat, s: seq<Byte>)
    requires off + |s| <= mem.Length
    modifies mem
    ensures mem[off..off + |s|] == s
    ensures forall i :: 0 <= i < mem.Length && !(off <= i < off + |s|) ==> mem[i] == old(mem[i])
  {
    var i := 0;
    while i < |s|
      invariant i <= |s| && forall k :: 0 <= k < i ==> mem[off + k] == s[k]
      invariant forall k :: 0 <= k < mem.Length && !(off <= k < off + i) ==> mem[k] == old(mem[k])
    {
      mem[off + i] := s[i];
      i := i + 1;
    }
  }

  // ----- building -----

  class Hash {
    var buckets: array<int>     // where a bucket starts in `mem`, or NONE
    var size: nat
    var mem: array<Byte>

    /** Every bucket with items has its own part of the memory, and holds its items in order. */
    ghost predicate Holds(items: seq<Item>)
      reads this, buckets, mem
    {
      && 0 < size == buckets.Length
      && forall b :: 0 <= b < size ==>
           buckets[b] == Place(items, b, size) && (buckets[b] != NONE ==>
             Ended(mem[..], Start(items, b, size), Chain(items, b, size)))
    }

    constructor ()
      ensures buckets.Length == 0 && fresh(buckets) && fresh(mem)
    {
      buckets, size, mem := new int[0], 0, new Byte[0];
    }

    // Where each bucket starts.
    method Assign(items: seq<Item>, test: array<nat>, len: nat)
      requires 0 < size <= test.Length && len == Start(items, size, size)
      requires forall b :: 0 <= b < size ==>
        test[b] == if Chain(items, b, size) == [] then PTR else Room(items, b, size)
      modifies this`buckets, this`mem
      ensures buckets.Length == size && fresh(buckets) && fresh(mem) && mem.Length == len
      ensures forall b :: 0 <= b < size ==> buckets[b] == Place(items, b, size)
    {
      hide Chain, Total;
      buckets := new int[size](_ => NONE);
      mem := new Byte[len];
      var elts := 0;
      var i := 0;
      while i < size
        invariant i <= size && elts == Start(items, i, size)
        invariant forall b :: 0 <= b < i ==> buckets[b] == Place(items, b, size)
        invariant forall b :: i <= b < size ==> buckets[b] == NONE
        modifies buckets
      {
        TotalIsZero(Chain(items, i, size));
        if test[i] != PTR {
          buckets[i] := elts;
          elts := elts + test[i];
        }
        i := i + 1;
      }
    }

    /** ngx_hash_init: the table holds all items, or the settings do not allow to build it, or the source
        divides by zero. */
    method Init(items: seq<Item>, maxSize: nat, bucketSize: nat) returns (r: Outcome)
      requires forall i :: 0 <= i < |items| && items[i].Item? ==> items[i].value < Pow256(8)
      modifies this
      ensures r == DividesByZero <==> maxSize > 0 && NoDivisor(bucketSize) && NoItems(items)
      ensures r == Built <==> CanBuild(items, maxSize, bucketSize)
      ensures r == Built ==>
        Holds(items) && size == Chosen(items, FirstSize(items, maxSize, bucketSize), maxSize, Limit(bucketSize))
      ensures r == Built ==> forall i :: 0 <= i < |items| ==> Storable(items[i])
    {
      hide Fits, Chain, Total, EltSize, FirstSize;
      if maxSize == 0 || bucketSize > SHORT_LIMIT {
        return Refused;
      }
      var ok := Measure(items, bucketSize);
      if !ok {
        return Refused;
      }
      AllStorable(items, bucketSize);
      var test := new nat[maxSize];
      if Limit(bucketSize) / (2 * PTR) == 0 {
        return DividesByZero;
      }
      var sz := FindSize(items, maxSize, bucketSize, test);
      ok := Sum(items, sz, PTR, SHORT_LIMIT, test);
      if !ok {
        return Refused;
      }
      size := sz;
      Limits(items, sz);
      var len := Lines(items, size, test);
      Assign(items, test, len);
      Fill(items, size, buckets, test, mem);
      End(items, size, buckets, test, mem);
      r := Built;
    }

    /** ngx_hash_find: the first element of the bucket that has the name. */
    method Find(key: nat, name: seq<Byte>, ghost items: seq<Item>) returns (value: nat)
      requires Holds(items)
      ensures value == FirstIn(Chain(items, key % size, size), name)
    {
      hide Ended, Chain, Lower;
      ghost var chain := Chain(items, key % size, size);
      if buckets[key % size] == NONE {
        return 0;
      }
      var off := buckets[key % size];
      ghost var rest := chain;
      while true
        invariant 0 <= off && Ended(mem[..], off, rest) && FirstIn(rest, name) == FirstIn(chain, name)
        decreases rest
      {
        Reading(mem[..], off, rest);
        value := Value(mem[off..off + PTR]);
        if value == 0 {
          return;
        }
        var len := Value(mem[off + PTR..off + PTR + 2]);
        if len == |name| {
          var same := SameName(mem, off + PTR + 2, name);
          if same {
            return;
          }
        }
        NextElement(off, len);
        off := Align8(off + PTR + 2 + len);
        rest := rest[1..];
      }
    }
  }

  // The whole lines each bucket needs.
  method Lines(items: seq<Item>, size: nat, test: array<nat>) returns (len: nat)
    requires 0 < size <= test.Length
    requires forall b :: 0 <= b < size ==> test[b] == PTR + Total(Chain(items, b, size)) <= SHORT_LIMIT
    modifies test
    ensures len == Start(items, size, size)
    ensures forall b :: 0 <= b < size ==> test[b] == if Chain(items, b, size) == [] then PTR else Room(items, b, size)
  {
    hide Chain, Total, LinesOf;
    len := 0;
    var i := 0;
    while i < size
      invariant i <= size && len == Start(items, i, size)
      invariant forall b :: 0 <= b < i ==> test[b] == if Chain(items, b, size) == [] then PTR else Room(items, b, size)
      invariant forall b :: i <= b < size ==> test[b] == PTR + Total(Chain(items, b, size)) <= SHORT_LIMIT
    {
      TotalIsZero(Chain(items, i, size));
      if test[i] != PTR {
        test[i] := AlignLine(test[i]) % 0x10000;
        len := len + test[i];
      }
      i := i + 1;
    }
  }

  // ----- filling -----

  // The bucket of an item starts somewhere, and has room for the item and for the end.
  lemma InRoom(items: seq<Item>, n: nat, size: nat)
    requires size > 0 && n < |items| && items[n].Item?
    ensures var b := items[n].hash % size;
      && Chain(items, b, size) != [] && Place(items, b, size) == Start(items, b, size)
      && Start(items, b, size) + Filled(items, n, b, size) + EltSize(items[n].key) + PTR
         <= Start(items, b, size) + Room(items, b, size) <= Start(items, size, size)
  {
    var b := items[n].hash % size;
    FilledStep(items, n, b, size);
    TotalIsZero(Chain(items, b, size));
    StartsApart(items, b, size, size);
  }

  // What stays of the other buckets when bucket `key` is written behind its first `n` items.
  lemma OtherBucket(m: seq<Byte>, w: seq<Byte>, items: seq<Item>, n: nat, key: nat, b: nat, size: nat)
    requires 0 < size && n <= |items| && key < size && b < size && b != key && |w| == |m| == Start(items, size, size)
    requires Chain(items, b, size) != [] && Packed(m, Start(items, b, size), Chain(items[..n], b, size))
    requires forall i ::
      0 <= i < |m| && !(Start(items, key, size) <= i < Start(items, key, size) + Room(items, key, size)) ==>
        w[i] == m[i]
    ensures Packed(w, Start(items, b, size), Chain(items[..n], b, size))
  {
    hide Packed, Chain, Total;
    ChainGrows(items, n, b, size);
    StartsApart(items, b, size, size);
    if b < key {
      StartsApart(items, b, key, size);
    } else {
      StartsApart(items, key, b, size);
    }
    PackedFrame(m, w, Start(items, b, size), Chain(items[..n], b, size));
  }

  lemma OwnBucket(m: seq<Byte>, w: seq<Byte>, start: nat, c: seq<Item>, x: Item)
    requires x.Item? && Storable(x) && |w| == |m| && Packed(m, start, c)
    requires var off := start + Total(c);
      && off + EltSize(x.key) <= |w| && w[off..off + PTR + 2 + |x.key|] == EltBytes(x)
      && forall i :: 0 <= i < off ==> w[i] == m[i]
    ensures Packed(w, start, c + [x])
  {
    hide Packed, Total, EltBytes, EltSize;
    PackedFrame(m, w, start, c);
    PackedAppend(w, start, c, x);
  }

  ghost predicate PackedUpTo(m: seq<Byte>, items: seq<Item>, n: nat, b: nat, size: nat)
    requires 0 < size && n <= |items|
  {
    Chain(items, b, size) != [] ==> Packed(m, Start(items, b, size), Chain(items[..n], b, size))
  }

  lemma FillStep(m: seq<Byte>, w: seq<Byte>, items: seq<Item>, n: nat, b: nat, size: nat)
    requires 0 < size && n < |items| && items[n].Item? && Storable(items[n]) && |w| == |m| == Start(items, size, size)
    requires b < size
    requires PackedUpTo(m, items, n, b, size)
    requires var key := Bucket(items[n], size); var off := Start(items, key, size) + Filled(items, n, key, size);
      && off + PTR + 2 + |items[n].key| <= |w| && w[off..off + PTR + 2 + |items[n].key|] == EltBytes(items[n])
      && forall i :: 0 <= i < |m| && !(off <= i < off + PTR + 2 + |items[n].key|) ==> w[i] == m[i]
    ensures PackedUpTo(w, items, n + 1, b, size)
  {
    var key := Bucket(items[n], size);
    hide Packed, Chain, Total, Start, EltBytes, EltSize, Filled;
    InRoom(items, n, size);
    ChainStep(items, n, b, size);
    if b == key {
      FilledIs(items, n, b, size);
      OwnBucket(m, w, Start(items, b, size), Chain(items[..n], b, size), items[n]);
    } else {
      FillOther(m, w, items, n, b, size, key);
    }
  }

  // The other buckets are as they were.
  lemma FillOther(m: seq<Byte>, w: seq<Byte>, items: seq<Item>, n: nat, b: nat, size: nat, key: nat)
    requires 0 < size && n < |items| && items[n].Item? && |w| == |m| == Start(items, size, size)
    requires b < size && key < size && b != key && PackedUpTo(m, items, n, b, size)
    requires Chain(items[..n + 1], b, size) == Chain(items[..n], b, size) + []
    requires Filled(items, n, key, size) + EltSize(items[n].key) <= Room(items, key, size)
    requires var off := Start(items, key, size) + Filled(items, n, key, size);
      forall i :: 0 <= i < |m| && !(off <= i < off + PTR + 2 + |items[n].key|) ==> w[i] == m[i]
    ensures PackedUpTo(w, items, n + 1, b, size)
  {
    hide Packed, Chain, Total, Start, EltSize, Filled, Room;
    EltFits(items[n]);
    if Chain(items, b, size) != [] {
      OtherBucket(m, w, items, n, key, b, size);
      assert Chain(items[..n], b, size) + [] == Chain(items[..n], b, size);
    }
  }

  lemma FilledIs(items: seq<Item>, n: nat, b: nat, size: nat)
    requires size > 0 && n <= |items|
    ensures Filled(items, n, b, size) == Total(Chain(items[..n], b, size))
  {
  }

  lemma EltFits(x: Item)
    requires x.Item?
    ensures PTR + 2 + |x.key| <= EltSize(x.key)
  {
  }

  lemma NothingPacked(m: seq<Byte>, items: seq<Item>, b: nat, size: nat)
    requires size > 0
    ensures PackedUpTo(m, items, 0, b, size)
  {
    assert items[..0] == [];
  }

  lemma FillSkip(m: seq<Byte>, items: seq<Item>, n: nat, b: nat, size: nat)
    requires 0 < size && n < |items| && items[n].Gone? && PackedUpTo(m, items, n, b, size)
    ensures PackedUpTo(m, items, n + 1, b, size)
  {
    ChainStep(items, n, b, size);
    assert Chain(items[..n], b, size) + [] == Chain(items[..n], b, size);
  }

  method Fill(items: seq<Item>, size: nat, buckets: array<int>, test: array<nat>, mem: array<Byte>)
    requires test != mem && (test as object) != buckets && (mem as object) != buckets
    requires 0 < size == buckets.Length <= test.Length && mem.Length == Start(items, size, size)
    requires forall b :: 0 <= b < size ==> buckets[b] == Place(items, b, size)
    requires forall i :: 0 <= i < |items| ==> Storable(items[i])
    modifies test, mem
    ensures forall b :: 0 <= b < size ==>
      PackedUpTo(mem[..], items, |items|, b, size) && test[b] == Total(Chain(items, b, size))
  {
    hide PackedUpTo, Filled, Chain, Total, Start, EltBytes, EltSize;
    var i := 0;
    while i < size
      invariant i <= size && forall b :: 0 <= b < i ==> test[b] == 0
      modifies test
    {
      test[i] := 0;
      i := i + 1;
    }
    ghost var m0 := mem[..];
    forall b | 0 <= b < size
      ensures PackedUpTo(m0, items, 0, b, size) && Filled(items, 0, b, size) == 0
      ensures Filled(items, |items|, b, size) == Total(Chain(items, b, size))
    {
      FilledEnds(items, b, size);
      NothingPacked(m0, items, b, size);
    }
    var n := 0;
    while n < |items|
      invariant n <= |items|
      invariant forall b :: 0 <= b < size ==>
        PackedUpTo(mem[..], items, n, b, size) && test[b] == Filled(items, n, b, size)
    {
      ghost var k := n + 1;
      forall b | 0 <= b < size
        ensures Filled(items, k, b, size) == Filled(items, n, b, size) + Added(items[n], b, size)
      {
        FilledStep(items, n, b, size);
      }
      if items[n].Item? {
        ghost var m := mem[..];
        var key := items[n].hash % size;
        InRoom(items, n, size);
        EltFits(items[n]);
        PutBytes(mem, buckets[key] + test[key], EltBytes(items[n]));
        ghost var w := mem[..];
        forall b | 0 <= b < size
          ensures PackedUpTo(w, items, k, b, size)
        {
          FillStep(m, w, items, n, b, size);
        }
        test[key] := test[key] + EltSize(items[n].key);
      } else {
        ghost var w := mem[..];
        forall b | 0 <= b < size
          ensures PackedUpTo(w, items, k, b, size)
        {
          FillSkip(w, items, n, b, size);
        }
      }
      n := n + 1;
    }
  }

  // The null values behind the last elements.
  method End(items: seq<Item>, size: nat, buckets: array<int>, test: array<nat>, mem: array<Byte>)
    requires test != mem && (test as object) != buckets && (mem as object) != buckets
    requires 0 < size == buckets.Length <= test.Length && mem.Length == Start(items, size, size)
    requires forall b :: 0 <= b < size ==> buckets[b] == Place(items, b, size)
    requires forall b :: 0 <= b < size ==>
      PackedUpTo(mem[..], items, |items|, b, size) && test[b] == Total(Chain(items, b, size))
    modifies mem
    ensures forall b :: 0 <= b < size && buckets[b] != NONE ==>
      Ended(mem[..], Start(items, b, size), Chain(items, b, size))
  {
    hide PackedUpTo, Chain, Total, Start, Ended;
    var i := 0;
    while i < size
      invariant i <= size
      invariant forall b :: 0 <= b < size ==> PackedUpTo(mem[..], items, |items|, b, size)
      invariant forall b :: 0 <= b < i && buckets[b] != NONE ==>
        Ended(mem[..], Start(items, b, size), Chain(items, b, size))
    {
      if buckets[i] != NONE {
        ghost var m := mem[..];
        EndInRoom(items, i, size);
        PutBytes(mem, buckets[i] + test[i], Bytes(0, PTR));
        ghost var w, k := mem[..], |items|;
        forall b | 0 <= b < size
          ensures PackedUpTo(w, items, k, b, size)
          ensures b < i && buckets[b] != NONE ==> Ended(w, Start(items, b, size), Chain(items, b, size))
        {
          EndOthers(m, w, items, i, b, size);
        }
        EndOwn(w, items, i, size);
      }
      i := i + 1;
    }
  }

  lemma EndInRoom(items: seq<Item>, b: nat, size: nat)
    requires 0 < size && b < size && Chain(items, b, size) != []
    ensures Start(items, b, size) + Total(Chain(items, b, size)) + PTR <= Start(items, b, size) + Room(items, b, size)
         <= Start(items, size, size)
  {
    StartsApart(items, b, size, size);
  }

  lemma EndOwn(w: seq<Byte>, items: seq<Item>, b: nat, size: nat)
    requires 0 < size && b < size && Chain(items, b, size) != [] && PackedUpTo(w, items, |items|, b, size)
    requires |w| == Start(items, size, size)
    requires var off := Start(items, b, size) + Total(Chain(items, b, size));
      off + PTR <= |w| && w[off..off + PTR] == Bytes(0, PTR)
    ensures Ended(w, Start(items, b, size), Chain(items, b, size))
  {
    hide Packed, Chain, Total, Start;
    assert items[..|items|] == items;
  }

  // Writing the end of bucket `key` leaves the elements of all and the ends of the others.
  lemma EndOthers(m: seq<Byte>, w: seq<Byte>, items: seq<Item>, key: nat, b: nat, size: nat)
    requires 0 < size && key < size && b < size && Chain(items, key, size) != []
    requires |w| == |m| == Start(items, size, size)
    requires PackedUpTo(m, items, |items|, b, size)
    requires var off := Start(items, key, size) + Total(Chain(items, key, size));
      forall i :: 0 <= i < |m| && !(off <= i < off + PTR) ==> w[i] == m[i]
    ensures PackedUpTo(w, items, |items|, b, size)
    ensures b != key && Chain(items, b, size) != [] && Ended(m, Start(items, b, size), Chain(items, b, size))
        ==> Ended(w, Start(items, b, size), Chain(items, b, size))
  {
    hide Packed, Chain, Total, Start, Room;
    assert items[..|items|] == items;
    if Chain(items, b, size) != [] {
      EndInRoom(items, b, size);
      EndInRoom(items, key, size);
      if b < key {
        StartsApart(items, b, key, size);
      } else if key < b {
        StartsApart(items, key, b, size);
      }
      var s, c := Start(items, b, size), Chain(items, b, size);
      PackedFrame(m, w, s, c);
      assert b != key ==> w[s + Total(c)..s + Total(c) + PTR] == m[s + Total(c)..s + Total(c) + PTR];
    }
  }

  // ----- settings -----

  predicate Measured(items: seq<Item>, bucketSize: nat) {
    forall i :: 0 <= i < |items| && items[i].Item? ==> EltSize(items[i].key) + PTR <= bucketSize
  }

  // bucket_size - sizeof(void *); it wraps around
  function Limit(bucketSize: nat): nat {
    (bucketSize - PTR) % WRAP
  }

  /** The setting is too small to divide by. */
  predicate NoDivisor(bucketSize: nat) {
    PTR <= bucketSize < 3 * PTR
  }

  // Where the search for a size starts.
  function FirstSize(items: seq<Item>, maxSize: nat, bucketSize: nat): (s: nat)
    requires Limit(bucketSize) >= 2 * PTR
    ensures maxSize > 0 ==> s > 0
  {
    if maxSize > 10000 && |items| > 0 && maxSize / |items| < 100 then maxSize - 1000
    else
      var s := |items| / (Limit(bucketSize) / (2 * PTR));
      if s == 0 then 1 else s
  }

  /** The search starts where the buckets would be full of the smallest elements, two to a pair of pointers, but at
      1 at least, and near the end for large and full tables. */
  lemma FirstSizeIs(items: seq<Item>, maxSize: nat, bucketSize: nat)
    requires 24 <= bucketSize < 0x10000
    ensures var s := FirstSize(items, maxSize, bucketSize); var n := |items|; var k := (bucketSize - 8) / 16;
      if maxSize > 10000 && 0 < n && maxSize < 100 * n then s + 1000 == maxSize
      else if n < k then s == 1 else s * k <= n < (s + 1) * k
  {
    hide FirstSize;
    var k := (bucketSize - 8) / 16;
    var near, q := FirstSizeCases(items, maxSize, bucketSize, k);
    if !near {
      FirstOf(|items|, k, q, FirstSize(items, maxSize, bucketSize));
    }
  }

  lemma FirstSizeCases(items: seq<Item>, maxSize: nat, bucketSize: nat, k: nat) returns (near: bool, q: nat)
    requires 24 <= bucketSize < 0x10000 && k == (bucketSize - 8) / 16
    ensures near <==> maxSize > 10000 && 0 < |items| && maxSize < 100 * |items|
    ensures q * k <= |items| < (q + 1) * k
    ensures FirstSize(items, maxSize, bucketSize) == if near then maxSize - 1000 else if q == 0 then 1 else q
  {
    hide FirstSize;
    FirstSizeByDivision(items, maxSize, bucketSize, k);
    q := Floor(|items|, k);
    near := maxSize > 10000 && |items| > 0 && maxSize / |items| < 100;
    assert |items| > 0 ==> (maxSize / |items| < 100 <==> maxSize < 100 * |items|) by {
      if |items| > 0 {
        Below100(maxSize, |items|);
      }
    }
  }

  lemma Floor(n: nat, k: nat) returns (q: nat)
    requires k > 0
    ensures q == n / k && q * k <= n < (q + 1) * k
  {
    q := n / k;
    Quotient(n, k);
  }

  lemma Below100(n: nat, k: nat)
    requires k > 0
    ensures n / k < 100 <==> n < 100 * k
  {
    Quotient(n, k);
  }

  lemma FirstSizeByDivision(items: seq<Item>, maxSize: nat, bucketSize: nat, k: nat)
    requires 24 <= bucketSize < 0x10000 && k == (bucketSize - 8) / 16
    ensures FirstSize(items, maxSize, bucketSize) ==
      if maxSize > 10000 && |items| > 0 && maxSize / |items| < 100 then maxSize - 1000
      else if |items| / k == 0 then 1 else |items| / k
  {
    assert Limit(bucketSize) == bucketSize - 8;
    hide Limit;
  }

  lemma FirstOf(n: nat, k: nat, q: nat, s: nat)
    requires k > 0 && q * k <= n < (q + 1) * k && s == if q == 0 then 1 else q
    ensures if n < k then s == 1 else s * k <= n < (s + 1) * k
  {
    assert q > 0 ==> q * k >= k;
  }

  lemma Quotient(n: nat, k: nat)
    requires k > 0
    ensures n / k * k <= n < (n / k + 1) * k
    ensures n / k < 100 <==> n < 100 * k
  {
    var q := n / k;
    assert n == q * k + n % k;
    assert q >= 100 ==> q * k >= 100 * k;
    assert q < 100 ==> (q + 1) * k <= 100 * k;
  }

  /** The first size for which no bucket is over the limit; the largest allowed size if there is none. */
  ghost function Chosen(items: seq<Item>, s: nat, maxSize: nat, limit: nat): (r: nat)
    requires s > 0 && maxSize > 0
    ensures r > 0 && r <= maxSize
    decreases maxSize + 1 - s
  {
    if s > maxSize then maxSize
    else if Fits(items, s, 0, limit) then s
    else Chosen(items, s + 1, maxSize, limit)
  }

  /** It is the least size from the start on at which all buckets fit, or the largest allowed if none is. */
  lemma {:induction false} ChosenIsLeast(items: seq<Item>, s: nat, maxSize: nat, limit: nat, t: nat)
    requires s > 0 && maxSize > 0
    ensures s <= t <= maxSize && Fits(items, t, 0, limit) ==>
      s <= Chosen(items, s, maxSize, limit) <= t && Fits(items, Chosen(items, s, maxSize, limit), 0, limit)
    ensures (forall u :: s <= u <= maxSize ==> !Fits(items, u, 0, limit)) ==>
      Chosen(items, s, maxSize, limit) == maxSize
    decreases maxSize + 1 - s
  {
    if s <= maxSize && !Fits(items, s, 0, limit) {
      ChosenIsLeast(items, s + 1, maxSize, limit, t);
    }
  }

  ghost predicate CanBuild(items: seq<Item>, maxSize: nat, bucketSize: nat) {
    && maxSize > 0 && bucketSize <= 65472 && Measured(items, bucketSize) && Limit(bucketSize) >= 2 * PTR
    && Fits(items, Chosen(items, FirstSize(items, maxSize, bucketSize), maxSize, Limit(bucketSize)), 8, 65472)
  }

  method Measure(items: seq<Item>, bucketSize: nat) returns (ok: bool)
    requires bucketSize <= SHORT_LIMIT
    ensures ok <==> Measured(items, bucketSize)
    ensures ok ==> if NoItems(items) then Limit(bucketSize) < 2 * PTR <==> NoDivisor(bucketSize)
                   else 2 * PTR <= Limit(bucketSize) < 0x10000 && !NoDivisor(bucketSize)
  {
    var n := 0;
    while n < |items|
      invariant n <= |items|
      invariant forall i :: 0 <= i < n && items[i].Item? ==> EltSize(items[i].key) + PTR <= bucketSize
    {
      if items[n].Item? {
        if bucketSize < EltSize(items[n].key) + PTR {
          return false;
        }
      }
      n := n + 1;
    }
    ok := true;
  }

  method FindSize(items: seq<Item>, maxSize: nat, bucketSize: nat, test: array<nat>) returns (size: nat)
    requires 0 < maxSize <= test.Length && Limit(bucketSize) >= 2 * PTR
    requires (Limit(bucketSize) < 0x10000 || NoItems(items))
    modifies test
    ensures size == Chosen(items, FirstSize(items, maxSize, bucketSize), maxSize, Limit(bucketSize))
  {
    hide Fits, FirstSize;
    var limit := Limit(bucketSize);
    var start := FirstSize(items, maxSize, bucketSize);
    size := start;
    while size <= maxSize
      invariant size > 0 && Chosen(items, size, maxSize, limit) == Chosen(items, start, maxSize, limit)
      decreases maxSize + 1 - size
    {
      var fits := Sum(items, size, 0, limit, test);
      if fits {
        return;
      }
      size := size + 1;
    }
    size := maxSize;
  }

  lemma AllStorable(items: seq<Item>, bucketSize: nat)
    requires Measured(items, bucketSize) && bucketSize <= SHORT_LIMIT
    requires forall i :: 0 <= i < |items| && items[i].Item? ==> items[i].value < Pow256(8)
    ensures forall i :: 0 <= i < |items| ==> Storable(items[i])
  {
    assert Pow256(2) == 0x10000;
  }

  lemma Limits(items: seq<Item>, size: nat)
    requires size > 0 && Fits(items, size, PTR, SHORT_LIMIT)
    ensures forall b :: 0 <= b < size ==> PTR + Total(Chain(items, b, size)) <= SHORT_LIMIT
  {
  }

  /** What the reader sees at the start of an element, or at the end of the bucket. */
  lemma Reading(m: seq<Byte>, off: nat, rest: seq<Item>)
    requires Ended(m, off, rest)
    ensures off + PTR <= |m| && off % PTR == 0
    ensures rest == [] ==> Value(m[off..off + PTR]) == 0
    ensures rest != [] ==>
      && rest[0].Item? && rest[0].value == Value(m[off..off + PTR])
      && off + PTR + 2 + |rest[0].key| <= |m| && Value(m[off + PTR..off + PTR + 2]) == |rest[0].key|
      && m[off + PTR + 2..off + PTR + 2 + |rest[0].key|] == Lower(rest[0].key)
      && Ended(m, off + EltSize(rest[0].key), rest[1..])
  {
    hide Value, Bytes, EltBytes, EltSize;
    if rest == [] {
      ValueOfBytes(0, PTR);
    } else {
      ReadingElement(m, off, rest[0]);
      EndedNext(m, off, rest);
    }
  }

  lemma EndedNext(m: seq<Byte>, off: nat, rest: seq<Item>)
    requires Ended(m, off, rest) && rest != []
    ensures rest[0].Item? && Ended(m, off + EltSize(rest[0].key), rest[1..])
  {
    hide EltAt, Bytes;
  }

  lemma ReadingElement(m: seq<Byte>, off: nat, x: Item)
    requires x.Item? && Storable(x) && EltAt(m, off, x)
    ensures off + PTR + 2 + |x.key| <= |m| && Value(m[off..off + PTR]) == x.value
    ensures Value(m[off + PTR..off + PTR + 2]) == |x.key| && m[off + PTR + 2..off + PTR + 2 + |x.key|] == Lower(x.key)
  {
    ValueOfBytes(x.value, PTR);
    ValueOfBytes(|x.key|, 2);
    hide Value, Bytes, Lower, EltSize;
    EltFits(x);
    var e := m[off..off + PTR + 2 + |x.key|];
    assert e == Bytes(x.value, PTR) + Bytes(|x.key|, 2) + Lower(x.key);
    Slices(m, off, |x.key|);
    ThreeParts(Bytes(x.value, PTR), Bytes(|x.key|, 2), Lower(x.key));
  }

  lemma Slices(m: seq<Byte>, off: nat, n: nat)
    requires off + PTR + 2 + n <= |m|
    ensures var e := m[off..off + PTR + 2 + n];
      && m[off..off + PTR] == e[..PTR] && m[off + PTR..off + PTR + 2] == e[PTR..PTR + 2]
      && m[off + PTR + 2..off + PTR + 2 + n] == e[PTR + 2..]
  {
    Slice(m, off, PTR + 2 + n, 0, PTR);
    Slice(m, off, PTR + 2 + n, PTR, PTR + 2);
    Slice(m, off, PTR + 2 + n, PTR + 2, PTR + 2 + n);
  }

  lemma Slice(m: seq<Byte>, off: nat, n: nat, k: nat, l: nat)
    requires off + n <= |m| && k <= l <= n
    ensures m[off..off + n][k..l] == m[off + k..off + l]
    ensures l == n ==> m[off..off + n][k..] == m[off + k..off + l]
  {
    var s, t := m[off..off + n][k..l], m[off + k..off + l];
    forall i | 0 <= i < l - k
      ensures s[i] == t[i]
    {
      assert s[i] == m[off..off + n][k + i];
    }
    assert s == t;
  }

  lemma ThreeParts(a: seq<Byte>, b: seq<Byte>, c: seq<Byte>)
    requires |a| == PTR && |b| == 2
    ensures var e := a + b + c;
      e[..PTR] == a && e[PTR..PTR + 2] == b && e[PTR + 2..] == c
  {
  }

  /** A table built from items with distinct names gives every name its value, and null to any other. */
  lemma FindsEveryName(items: seq<Item>, size: nat, h: seq<Byte> -> nat, name: seq<Byte>)
    requires size > 0 && Hashed(items, h) && DistinctNames(items) && HaveValues(items)
    ensures var v := FirstIn(Chain(items, h(name) % size, size), name);
      && (forall i :: 0 <= i < |items| && items[i].Item? && Lower(items[i].key) == name ==> v == items[i].value)
      && ((forall i :: 0 <= i < |items| && items[i].Item? ==> Lower(items[i].key) != name) ==> v == 0)
  {
    BucketAnswers(items, size, h, name);
  }

  /** A hash of no names with buckets of 8 bytes. */
  method InitExample() returns (r: Outcome)
    ensures r == DividesByZero
  {
    var hash := new Hash();
    r := hash.Init([], 1, 8);
  }
}
