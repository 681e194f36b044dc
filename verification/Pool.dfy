/** Memory pools: small allocations from a chain of blocks, large ones from the heap. Where the heap puts
    a block or a large allocation is given by its caller. */
module Pool {
  import opened Common
  import opened PoolRegions

  /** An entry of the list of large allocations, and where the entry itself is. */
  datatype Large = Large(alloc: int, at: int)

  datatype Status = OK | DECLINED

  function Nodes(large: seq<Large>): set<Region> {
    set i | 0 <= i < |large| :: Region(large[i].at, LARGE_SIZE)
  }

  function Allocs(large: seq<Large>): set<int> {
    set i | 0 <= i < |large| && large[i].alloc != NULL :: large[i].alloc
  }

  ghost function Bases(big: set<Region>): set<int> {
    set r | r in big :: r.addr
  }

  ghost predicate Once(large: seq<Large>) {
    forall i, j :: 0 <= i < j < |large| && large[i].alloc != NULL ==> large[i].alloc != large[j].alloc
  }

  /** The list has an entry for every large allocation, and one only. */
  ghost predicate Listed(large: seq<Large>, big: set<Region>) {
    Allocs(large) == Bases(big) && NULL !in Bases(big) && Once(large)
  }

  class Pool {
    const psize: nat               // d.end of the first block, counted from the block
    const max: nat
    var blocks: seq<Block>         // the chain
    var current: nat
    var large: seq<Large>
    var mem: map<int, Octet>       // what is in memory
    ghost var client: set<Region>  // what was handed out of blocks
    ghost var big: set<Region>     // what was handed out of the heap

    /** Everything that was handed out and not freed. */
    ghost function Live(): set<Region>
      reads this
    {
      client + big
    }

    ghost predicate Valid()
      reads this
    {
      && psize % 16 == 0 && MIN_POOL_SIZE <= psize < WRAP / 2
      && max == (if psize - 80 < 4095 then psize - 80 else 4095)
      && Sound(blocks, psize, client + Nodes(large), big) && client !! Nodes(large)
      && Listed(large, big) && Tried(blocks, current)
    }

    /** ngx_create_pool */
    constructor (size: nat, block: int)
      requires size % 16 == 0 && MIN_POOL_SIZE <= size < WRAP / 2 && block > 0 && block % 16 == 0
      ensures Valid() && psize == size && Live() == {} && blocks == [Block(block, block + 80, block + size, 0)]
    {
      psize := size;
      max := if size - POOL_SIZE < MAX_ALLOC then size - POOL_SIZE else MAX_ALLOC;
      blocks := [Block(block, block + POOL_SIZE, block + size, 0)];
      current, large, client, big := 0, [], {}, {};
      mem := map[];
    }

    /** ngx_palloc_small: the first block from `current` on that has the room, or a new block. */
    method AllocSmall(size: nat, align: bool, block: int, ghost small: set<Region>) returns (m: int)
      requires psize % 16 == 0 && psize < WRAP / 2 && size <= psize - POOL_SIZE
      requires Sound(blocks, psize, small, big) && Tried(blocks, current)
      requires Unused(blocks, psize, big, Region(block, psize)) && block % 16 == 0
      modifies `blocks, `current
      ensures Sound(blocks, psize, small + {Region(m, size)}, big) && Tried(blocks, current)
      ensures IsFree(small + big, Region(m, size)) && m > 0 && (align ==> m % 8 == 0)
      ensures Added(old(blocks), blocks, block)
      ensures if exists p: nat :: FirstWithRoom(old(blocks), old(current), p, size, align)
        then current == old(current) && Served(old(blocks), current, blocks, m, size, align)
        else Extended(old(blocks), old(current), blocks, current, m, size, block, psize)
    {
      hide Sound, Tried, Unused, Extended;
      TriedCurrent(blocks, current);
      var p := current;
      while p < |blocks|
        invariant current <= p <= |blocks| && blocks == old(blocks) && current == old(current)
        invariant forall i :: current <= i < p ==> !HasRoom(blocks[i], size, align)
      {
        m := blocks[p].last;
        if align {
          m := Align(m);
        }
        RoomIs(blocks, psize, p, align) by { SoundSized(blocks, psize, small, big); }
        if Room(blocks[p].end, m) >= size {
          assert FirstWithRoom(blocks, current, p, size, align);
          Carve(blocks, psize, small, big, p, Region(m, size));
          TriedSame(blocks, current, p, m + size);
          blocks := blocks[p := blocks[p].(last := m + size)];
          return;
        }
        p := p + 1;
      }
      m := AllocBlock(size, block, small);
    }

    // ngx_palloc_block
    method AllocBlock(size: nat, block: int, ghost small: set<Region>) returns (m: int)
      requires psize % 16 == 0 && psize < WRAP / 2 && size <= psize - POOL_SIZE
      requires Sound(blocks, psize, small, big) && Tried(blocks, current)
      requires Unused(blocks, psize, big, Region(block, psize)) && block % 16 == 0
      modifies `blocks, `current
      ensures Sound(blocks, psize, small + {Region(m, size)}, big) && Tried(blocks, current)
      ensures IsFree(small + big, Region(m, size)) && m > 0 && m % 8 == 0
      ensures Added(old(blocks), blocks, block)
      ensures Extended(old(blocks), old(current), blocks, current, m, size, block, psize)
    {
      hide Sound, Tried;
      m := Align(block + DATA_SIZE);
      AlignIsNear(block + DATA_SIZE);
      ghost var b0 := blocks;
      CountFailures();
      SameRegions(b0, blocks, psize, small, big);
      var b := Block(block, block + DATA_SIZE, block + psize, 0);
      ghost var b1 := blocks;
      UnusedStill(b0, blocks, psize, big, 0, Region(block, psize));
      NewBlock(blocks, psize, small, big, b);
      LastTried(blocks, current, b);
      blocks := blocks + [b];
      var p := |blocks| - 1;
      TriedSame(blocks, current, p, m + size);
      Carve(blocks, psize, small, big, p, Region(m, size));
      blocks := blocks[p := b.(last := m + size)];
      assert blocks[..p] == b1;
    }

    // Every block but the last that was tried has failed once more; after six failures it is not tried again.
    method CountFailures()
      requires Tried(blocks, current)
      modifies `blocks, `current
      ensures Tried(blocks, current) && Counted(old(blocks), old(current), blocks, current)
    {
      ghost var b0, k0 := blocks, current;
      var p := current;
      while p < |blocks| - 1
        invariant k0 <= current <= p < |blocks| == |b0|
        invariant forall i :: 0 <= i < |blocks| ==>
          blocks[i] == b0[i].(failed := b0[i].failed + if k0 <= i < p then 1 else 0)
        invariant forall i :: 0 <= i < current ==> blocks[i].failed > 5
        invariant forall i :: k0 <= i < p ==> (i < current <==> b0[i].failed > 4)
      {
        var failed := blocks[p].failed;
        blocks := blocks[p := blocks[p].(failed := failed + 1)];
        if failed > 4 {
          current := p + 1;
          assert forall i :: k0 <= i < p ==> b0[p].failed <= b0[i].failed;
        }
        p := p + 1;
      }
    }

    /** ngx_palloc and ngx_pnalloc: a region that nobody has, aligned if asked for. */
    method Alloc(size: nat, align: bool, area: int, block: int) returns (p: int)
      requires Valid() && Unused(blocks, psize, big, Region(area, size))
      requires Unused(blocks, psize, big, Region(block, psize))
      requires Apart(Region(area, size), Region(block, psize)) && area % 8 == 0 && block % 16 == 0
      modifies `blocks, `current, `large, `client, `big
      ensures Valid() && IsFree(old(Live()), Region(p, size)) && Live() == old(Live()) + {Region(p, size)}
      ensures p > 0 && (align || size > max ==> p % 8 == 0)
    {
      if size <= max {
        p := AllocSmall(size, align, block, client + Nodes(large));
        NoNode(client, Nodes(large), big, Region(p, size));
        client := client + {Region(p, size)};
        return;
      }
      p := AllocLarge(size, area, block);
    }

    // ngx_palloc_large
    method AllocLarge(size: nat, area: int, block: int) returns (p: int)
      requires Valid() && Unused(blocks, psize, big, Region(area, size))
      requires Unused(blocks, psize, big, Region(block, psize)) && size > max
      requires Apart(Region(area, size), Region(block, psize)) && block % 16 == 0
      modifies `blocks, `current, `large, `big
      ensures Valid() && IsFree(old(Live()), Region(p, size)) && Live() == old(Live()) + {Region(p, size)} && p == area
    {
      hide Sound, Tried, Listed, Unused, Nodes;
      p := area;
      ghost var r, small := Region(area, size), client + Nodes(large);
      SoundSized(blocks, psize, small, big);
      UnusedIs(blocks, psize, big, r);
      NewBig(blocks, psize, small, big, r);
      var i := 0;
      while i < |large| && i <= 4
        invariant 0 <= i <= |large| && Valid() && large == old(large) && big == old(big) && blocks == old(blocks)
      {
        if large[i].alloc == NULL {
          ReuseEntry(large, big, i, r);
          large := large[i := large[i].(alloc := p)];
          big := big + {r};
          return;
        }
        i := i + 1;
      }
      ghost var b0 := blocks;
      var node := AllocSmall(LARGE_SIZE, true, block, small);
      UnusedStill(b0, blocks, psize, big, block, r);
      NewBig(blocks, psize, small + {Region(node, LARGE_SIZE)}, big, r);
      NewNode(client, Nodes(large), big, Region(node, LARGE_SIZE));
      AddEntry(large, big, Large(p, node), r);
      large := [Large(p, node)] + large;
      big := big + {r};
    }

    /** ngx_pfree: exactly the large allocations can be freed, and only the one at `p` is. (NULL is found in
        an entry that was freed before, and freeing it does nothing.) */
    method Free(p: int) returns (rc: Status)
      requires Valid()
      modifies `large, `big
      ensures Valid() && forall r :: r in big <==> r in old(big) && r.addr != p
      ensures rc == OK <==> p in Bases(old(big)) || (p == NULL && Freed(old(large)))
    {
      hide Sound, Tried, Nodes;
      var i := 0;
      while i < |large|
        invariant 0 <= i <= |large| && Valid() && large == old(large) && big == old(big)
        invariant forall j :: 0 <= j < i ==> large[j].alloc != p
      {
        if large[i].alloc == p {
          RemoveEntry(large, big, i);
          FewerRegions(blocks, psize, client + Nodes(large), big, client + Nodes(large), Others(big, p));
          large := large[i := large[i].(alloc := NULL)];
          big := Others(big, p);
          return OK;
        }
        i := i + 1;
      }
      NotListed(large, big, p);
      return DECLINED;
    }

    /** ngx_reset_pool: nothing is in use any more, and the blocks are kept. */
    method Reset()
      requires Valid()
      modifies `blocks, `current, `large, `client, `big
      ensures Valid() && Live() == {} && |blocks| == |old(blocks)|
      ensures forall i :: 0 <= i < |blocks| ==>
        blocks[i] == old(blocks)[i].(last := blocks[i].base + POOL_SIZE, failed := 0)
    {
      var i := 0;
      ghost var b0 := blocks;
      while i < |blocks|
        invariant 0 <= i <= |blocks| == |b0|
        invariant forall j :: 0 <= j < i ==> blocks[j] == b0[j].(last := b0[j].base + POOL_SIZE, failed := 0)
        invariant forall j :: i <= j < |blocks| ==> blocks[j] == b0[j]
      {
        blocks := blocks[i := blocks[i].(last := blocks[i].base + POOL_SIZE, failed := 0)];
        i := i + 1;
      }
      current, large, client, big := 0, [], {}, {};
      AllFree(b0, blocks, psize) by { assert forall j :: 0 <= j < |b0| ==> IsBlock(b0[j], psize, Header(j)); }
    }

    /** ngx_memcpy of regions that are apart. */
    method Copy(dst: int, src: int, n: nat)
      requires Apart(Region(dst, n), Region(src, n))
      modifies `mem
      ensures Copied(old(mem), mem, dst, src, n)
    {
      ghost var m := mem;
      var i := 0;
      while i < n
        invariant 0 <= i <= n && Copied(m, mem, dst, src, i)
      {
        OneByte(m, mem, dst, src, i);
        mem := mem[dst + i := At(mem, src + i)];
        i := i + 1;
      }
    }
  }

  // Where a region of a block would start.
  function Begin(b: Block, align: bool): int {
    if align then Align(b.last) else b.last
  }

  predicate HasRoom(b: Block, size: nat, align: bool) {
    Room(b.end, Begin(b, align)) >= size
  }

  ghost predicate FirstWithRoom(blocks: seq<Block>, current: nat, p: nat, size: nat, align: bool) {
    && current <= p < |blocks| && HasRoom(blocks[p], size, align)
    && forall i :: current <= i < p ==> !HasRoom(blocks[i], size, align)
  }

  /** The first block from `current` on that has the room gave the region. */
  ghost predicate Served(blocks: seq<Block>, current: nat, w: seq<Block>, m: int, size: nat, align: bool) {
    exists p: nat {:trigger FirstWithRoom(blocks, current, p, size, align)} ::
      FirstWithRoom(blocks, current, p, size, align) && m == Begin(blocks[p], align)
      && w == blocks[p := blocks[p].(last := m + size)]
  }

  /** All blocks that were tried, but the last of the chain, have failed once more, and those that had failed five
      times before are not tried again. */
  ghost predicate Counted(blocks: seq<Block>, current: nat, w: seq<Block>, k: nat) {
    && |w| == |blocks| && current <= k < |w|
    && (forall i :: 0 <= i < |w| ==>
      w[i] == blocks[i].(failed := blocks[i].failed + if current <= i < |w| - 1 then 1 else 0))
    && (forall i :: current <= i < |w| - 1 ==> (i < k <==> blocks[i].failed > 4))
  }

  /** A new block at the end of the chain gave the region. */
  ghost predicate Extended(blocks: seq<Block>, current: nat, w: seq<Block>, k: nat, m: int, size: nat,
                           base: int, psize: nat) {
    && |w| == |blocks| + 1 && Counted(blocks, current, w[..|blocks|], k)
    && m == Align(base + 32) && w[|blocks|] == Block(base, m + size, base + psize, 0)
  }

  /** `n` bytes at `dst` are those that were at `src`; nothing else changed. */
  ghost predicate Copied(m: map<int, Octet>, w: map<int, Octet>, dst: int, src: int, n: nat) {
    && (forall a {:trigger At(w, a)} :: dst <= a < dst + n ==> At(w, a) == At(m, a - dst + src))
    && (forall a {:trigger At(w, a)} :: a < dst || dst + n <= a ==> At(w, a) == At(m, a))
  }

  lemma OneByte(m: map<int, Octet>, w: map<int, Octet>, dst: int, src: int, i: nat)
    requires Copied(m, w, dst, src, i) && (src + i < dst || dst + i <= src)
    ensures Copied(m, w[dst + i := At(w, src + i)], dst, src, i + 1)
  {
    var v := w[dst + i := At(w, src + i)];
    forall a
      ensures At(v, a) == if a == dst + i then At(m, src + i) else At(w, a)
    {
      assert At(w, src + i) == At(m, src + i);
    }
  }

  ghost predicate Freed(large: seq<Large>) {
    exists i :: 0 <= i < |large| && large[i].alloc == NULL
  }

  ghost function Others(big: set<Region>, p: int): set<Region> {
    set r | r in big && r.addr != p
  }

  lemma RemoveEntry(large: seq<Large>, big: set<Region>, i: nat)
    requires Listed(large, big) && i < |large|
    ensures Nodes(large[i := large[i].(alloc := NULL)]) == Nodes(large)
    ensures Listed(large[i := large[i].(alloc := NULL)], Others(big, large[i].alloc))
    ensures large[i].alloc != NULL ==> large[i].alloc in Bases(big)
    ensures Others(big, large[i].alloc) <= big
  {
    var p := large[i].alloc;
    var w := large[i := large[i].(alloc := NULL)];
    SameNodes(large, w);
    assert Bases(Others(big, p)) == Bases(big) - {p};
    forall a
      ensures a in Allocs(w) <==> a in Allocs(large) && a != p
    {
      if a in Allocs(large) && a != p {
        var j :| 0 <= j < |large| && large[j].alloc != NULL && a == large[j].alloc;
        assert w[j] == large[j];
      }
    }
    assert p != NULL ==> p in Allocs(large);
  }

  lemma NotListed(large: seq<Large>, big: set<Region>, p: int)
    requires Listed(large, big) && forall i :: 0 <= i < |large| ==> large[i].alloc != p
    ensures p !in Bases(big) && forall r :: r in big ==> r.addr != p
  {
    assert p !in Allocs(large);
    assert forall r :: r in big ==> r.addr in Bases(big);
  }

  lemma AllFree(blocks: seq<Block>, w: seq<Block>, psize: nat)
    requires Sized(blocks, psize) && BlocksApart(blocks, psize) && |w| == |blocks| && psize >= MIN_POOL_SIZE
    requires forall i :: 0 <= i < |w| ==> w[i] == blocks[i].(last := blocks[i].base + POOL_SIZE, failed := 0)
    ensures Sound(w, psize, {}, {}) && Nodes([]) == {} && Listed([], {}) && (|w| > 0 ==> Tried(w, 0))
  {
    assert forall i :: 0 <= i < |w| ==>
      IsBlock(blocks[i], psize, Header(i)) && Whole(w[i], psize) == Whole(blocks[i], psize);
  }

  lemma UnusedIs(blocks: seq<Block>, psize: nat, big: set<Region>, r: Region)
    requires Unused(blocks, psize, big, r)
    ensures r.addr != NULL && forall a :: a in big ==> Apart(a, r)
  {
  }

  // A new entry of the list is not where something of the client is.
  lemma NewNode(client: set<Region>, nodes: set<Region>, big: set<Region>, n: Region)
    requires client !! nodes && IsFree(client + nodes + big, n) && n.size > 0
    ensures client !! nodes + {n} && client + nodes + {n} == client + (nodes + {n})
  {
  }

  /** With aligned blocks the room is what it looks like. */
  lemma RoomIs(blocks: seq<Block>, psize: nat, i: nat, align: bool)
    requires Sized(blocks, psize) && i < |blocks| && psize % 16 == 0 && psize < WRAP / 2
    ensures var m := if align then Align(blocks[i].last) else blocks[i].last;
      blocks[i].last <= m <= blocks[i].end && Room(blocks[i].end, m) == blocks[i].end - m && m > 0 && (align ==>
        m % 8 == 0)
  {
    hide Align, Room;
    assert IsBlock(blocks[i], psize, Header(i));
    EndIsAligned(blocks[i].base, psize);
    AlignIsNear(blocks[i].last);
    AlignedRoom(blocks[i].last, blocks[i].end);
    RoomInBlock(blocks[i].last, blocks[i].end);
  }

  lemma EndIsAligned(base: int, psize: nat)
    requires base % 16 == 0 && psize % 16 == 0
    ensures (base + psize) % 8 == 0
  {
  }

  lemma RoomInBlock(last: int, end: int)
    requires last <= end < last + WRAP
    ensures Room(end, last) == end - last
  {
  }

  lemma SameRegions(blocks: seq<Block>, w: seq<Block>, psize: nat, small: set<Region>, big: set<Region>)
    requires Sound(blocks, psize, small, big) && |w| == |blocks|
    requires forall i :: 0 <= i < |w| ==> w[i] == blocks[i].(failed := w[i].failed)
    ensures Sound(w, psize, small, big)
  {
    assert forall i :: 0 <= i < |w| ==> IsBlock(blocks[i], psize, Header(i)) && IsBlock(w[i], psize, Header(i));
    forall r | r in small && r.size > 0
      ensures Placed(w, r)
    {
      var i :| 0 <= i < |blocks| && InBlock(blocks[i], Header(i), r);
      assert InBlock(w[i], Header(i), r);
    }
  }

  /** What is handed out of a block is not where an entry of the list is. */
  lemma NoNode(client: set<Region>, nodes: set<Region>, big: set<Region>, r: Region)
    requires client !! nodes && IsFree(client + nodes + big, r) && forall a :: a in nodes ==> a.size > 0
    ensures client + {r} !! nodes && client + nodes + {r} == client + {r} + nodes
    ensures IsFree(client + big, r)
  {
  }

  lemma LastTried(blocks: seq<Block>, current: nat, b: Block)
    requires Tried(blocks, current) && b.failed == 0
    ensures Tried(blocks + [b], current)
  {
  }

  /** A new large allocation is not in the list yet. */
  lemma NewAddress(large: seq<Large>, big: set<Region>, r: Region)
    requires Listed(large, big) && r.size > 0 && forall a :: a in big ==> Apart(a, r) && a.size > 0
    ensures r.addr !in Allocs(large) && Bases(big + {r}) == Bases(big) + {r.addr}
  {
  }

  lemma ReuseEntry(large: seq<Large>, big: set<Region>, i: nat, r: Region)
    requires Listed(large, big) && i < |large| && large[i].alloc == NULL && r.addr != NULL
    requires r.size > 0 && forall a :: a in big ==> Apart(a, r) && a.size > 0
    ensures Nodes(large[i := large[i].(alloc := r.addr)]) == Nodes(large)
    ensures Listed(large[i := large[i].(alloc := r.addr)], big + {r})
  {
    NewAddress(large, big, r);
    var w := large[i := large[i].(alloc := r.addr)];
    SameNodes(large, w);
    assert forall j :: 0 <= j < |large| && large[j].alloc != NULL ==>
      large[j].alloc in Allocs(large) && w[j] == large[j];
    assert w[i].alloc == r.addr;
    assert Allocs(w) == Allocs(large) + {r.addr};
  }

  lemma SameNodes(large: seq<Large>, w: seq<Large>)
    requires |w| == |large| && forall j :: 0 <= j < |w| ==> w[j].at == large[j].at
    ensures Nodes(w) == Nodes(large)
  {
    forall a
      ensures a in Nodes(w) <==> a in Nodes(large)
    {
      if a in Nodes(w) {
        var j :| 0 <= j < |w| && a == Region(w[j].at, LARGE_SIZE);
        assert a == Region(large[j].at, LARGE_SIZE);
      }
      if a in Nodes(large) {
        var j :| 0 <= j < |large| && a == Region(large[j].at, LARGE_SIZE);
        assert a == Region(w[j].at, LARGE_SIZE);
      }
    }
  }

  lemma AddEntry(large: seq<Large>, big: set<Region>, e: Large, r: Region)
    requires Listed(large, big) && r.addr != NULL && e.alloc == r.addr
    requires r.size > 0 && forall a :: a in big ==> Apart(a, r) && a.size > 0
    ensures Nodes([e] + large) == Nodes(large) + {Region(e.at, LARGE_SIZE)}
    ensures Listed([e] + large, big + {r})
  {
    NewAddress(large, big, r);
    var w := [e] + large;
    assert w[0] == e && forall j :: 0 <= j < |large| ==> w[j + 1] == large[j];
    forall a
      ensures a in Nodes(w) <==> a in Nodes(large) || a == Region(e.at, LARGE_SIZE)
    {
      if a in Nodes(large) {
        var j :| 0 <= j < |large| && a == Region(large[j].at, LARGE_SIZE);
        assert a == Region(w[j + 1].at, LARGE_SIZE);
      }
    }
    forall a
      ensures a in Allocs(w) <==> a in Allocs(large) || a == r.addr
    {
      if a in Allocs(large) {
        var j :| 0 <= j < |large| && a == large[j].alloc && large[j].alloc != NULL;
        assert a == w[j + 1].alloc;
      }
    }
    assert forall j :: 0 <= j < |large| && large[j].alloc != NULL ==> large[j].alloc in Allocs(large);
  }
}
