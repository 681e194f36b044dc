/** Arrays that grow in a pool: in place at the end of the pool's first block, or by moving. */
module PoolArray {
  import opened Common
  import opened PoolRegions
  import Pool

  const HEADER_SIZE: nat := 40       // sizeof(ngx_array_t)

  // How large the array becomes when it moves for `n` more elements.
  function Total(n: nat, nalloc: nat): nat {
    2 * if n >= nalloc then n else nalloc
  }

  class Array {
    const pool: Pool.Pool
    const size: nat                // of an element
    var elts: int
    var nelts: nat
    var nalloc: nat

    function Extent(): Region
      reads this
    {
      Region(elts, size * nalloc)
    }

    /** The array has its own place in the pool, with room for its elements. */
    ghost predicate Valid()
      reads this, pool
    {
      pool.Valid() && size > 0 && nalloc > 0 && nelts <= nalloc && Extent() in pool.Live()
    }

    /** The heap has room for a large allocation and for a block. */
    ghost predicate HeapRoom(bytes: nat, area: int, block: int)
      reads pool
    {
      && Unused(pool.blocks, pool.psize, pool.big, Region(area, bytes))
      && Unused(pool.blocks, pool.psize, pool.big, Region(block, pool.psize))
      && Apart(Region(area, bytes), Region(block, pool.psize)) && area % 8 == 0 && block % 16 == 0
    }

    /** ngx_array_init */
    constructor (pool: Pool.Pool, n: nat, size: nat, area: int, block: int)
      requires pool.Valid() && n > 0 && size > 0
      requires Unused(pool.blocks, pool.psize, pool.big, Region(area, n * size))
      requires Unused(pool.blocks, pool.psize, pool.big, Region(block, pool.psize))
      requires Apart(Region(area, n * size), Region(block, pool.psize)) && area % 8 == 0 && block % 16 == 0
      modifies pool
      ensures Valid() && this.pool == pool && this.size == size && nalloc == n && nelts == 0
      ensures IsFree(old(pool.Live()), Extent()) && pool.Live() == old(pool.Live()) + {Extent()}
      ensures pool.mem == old(pool.mem)
    {
      this.pool := pool;
      this.size := size;
      nelts, nalloc := 0, n;
      new;
      Commutes(n, size);
      elts := pool.Alloc(n * size, true, area, block);
    }

    /** The elements are the last thing in the first block, and `n` more fit behind them. */
    predicate LastWithRoom(n: nat)
      reads this, pool
    {
      && pool.blocks != [] && elts + size * nalloc == pool.blocks[0].last
      && pool.blocks[0].last + n * size <= pool.blocks[0].end
    }

    /** ngx_array_push: one more element, at the end; the others are kept, wherever they are now. */
    method Push(area: int, block: int) returns (elt: int)
      requires Valid() && HeapRoom(2 * (size * nalloc), area, block)
      modifies this, pool
      ensures Valid() && nelts == old(nelts) + 1 && elt == elts + size * old(nelts)
      ensures elt + size <= elts + size * nalloc
      ensures nalloc == if old(nelts) < old(nalloc) then old(nalloc)
        else if old(LastWithRoom(1)) then old(nalloc) + 1 else 2 * old(nalloc)
      ensures Kept(old(pool.mem), pool.mem, old(elts), elts, size * old(nelts))
      ensures OthersKept(old(pool.Live()), pool.Live(), old(Extent()), Extent(), old(pool.mem), pool.mem)
    {
      hide Sound, Tried, Pool.Listed, Pool.Nodes, Unused, Kept, OthersKept;
      Stays();
      if nelts == nalloc {
        var bytes := size * nalloc;
        if elts + bytes == pool.blocks[0].last && pool.blocks[0].last + size <= pool.blocks[0].end {
          GrowInPlace(1);
          KeptInPlace(pool.mem, elts, size * nelts);
        } else {
          Twice(size, nalloc);
          Move(2 * nalloc, area, block);
        }
      }
      Less(size, nelts + 1, nalloc);
      More(size, nelts, 1);
      elt := elts + size * nelts;
      nelts := nelts + 1;
    }

    /** ngx_array_push_n: `n` more elements, likewise. */
    method PushN(n: nat, area: int, block: int) returns (elt: int)
      requires Valid() && HeapRoom(size * Total(n, nalloc), area, block)
      modifies this, pool
      ensures Valid() && nelts == old(nelts) + n && elt == elts + size * old(nelts)
      ensures elt + size * n <= elts + size * nalloc
      ensures nalloc == if old(nelts) + n <= old(nalloc) then old(nalloc)
        else if old(LastWithRoom(n)) then old(nalloc) + n else if n >= old(nalloc) then 2 * n else 2 * old(nalloc)
      ensures Kept(old(pool.mem), pool.mem, old(elts), elts, size * old(nelts))
      ensures OthersKept(old(pool.Live()), pool.Live(), old(Extent()), Extent(), old(pool.mem), pool.mem)
    {
      hide Sound, Tried, Pool.Listed, Pool.Nodes, Unused, Kept, OthersKept;
      Stays();
      if nelts + n > nalloc {
        if elts + size * nalloc == pool.blocks[0].last && pool.blocks[0].last + n * size <= pool.blocks[0].end {
          GrowInPlace(n);
          KeptInPlace(pool.mem, elts, size * nelts);
        } else {
          Move(Total(n, nalloc), area, block);
        }
      }
      Less(size, nelts + n, nalloc);
      More(size, nelts, n);
      Commutes(n, size);
      elt := elts + size * nelts;
      nelts := nelts + n;
    }

    // Nothing moves while there is room.
    lemma Stays()
      requires Valid()
      ensures OthersKept(pool.Live(), pool.Live(), Extent(), Extent(), pool.mem, pool.mem)
      ensures Kept(pool.mem, pool.mem, elts, elts, size * nelts)
      ensures pool.blocks != []
    {
    }

    /** ngx_array_destroy: the elements, and then the header at `at`, are given back if they are the last
        thing in the first block; nothing else changes. */
    method Destroy(at: int)
      requires Valid() && Region(at, HEADER_SIZE) in pool.Live() && Region(at, HEADER_SIZE) != Extent()
      modifies pool`blocks, pool`client
      ensures pool.Valid() && old(pool.Live()) - {Extent(), Region(at, HEADER_SIZE)} <= pool.Live() <= old(pool.Live())
      ensures Extent() in pool.Live() <==> Extent().addr + Extent().size != old(pool.blocks)[0].last
      ensures Region(at, HEADER_SIZE) in pool.Live() <==>
        at + HEADER_SIZE != if Extent() in pool.Live() then old(pool.blocks)[0].last else elts
    {
      Less(size, 1, nalloc);
      if elts + size * nalloc == pool.blocks[0].last {
        GiveBack(Extent());
      }
      if at + HEADER_SIZE == pool.blocks[0].last {
        GiveBack(Region(at, HEADER_SIZE));
      }
    }

    method GiveBack(r: Region)
      requires pool.Valid() && r in pool.Live() && r.size > 0 && r.addr + r.size == pool.blocks[0].last
      modifies pool`blocks, pool`client
      ensures pool.Valid() && pool.Live() == old(pool.Live()) - {r} && pool.blocks != []
      ensures pool.blocks[0].last == r.addr
    {
      hide Sound, Tried, Pool.Listed, Pool.Nodes;
      TriedCurrent(pool.blocks, pool.current);
      Shrink(pool.blocks, pool.psize, pool.client + Pool.Nodes(pool.large), pool.big, 0, r);
      ClientShrinks(pool.client, Pool.Nodes(pool.large), pool.big, r);
      TriedSame(pool.blocks, pool.current, 0, r.addr);
      pool.blocks := pool.blocks[0 := pool.blocks[0].(last := r.addr)];
      pool.client := pool.client - {r};
    }

    // The array is the last thing in the pool, and the block has room for `n` elements more.
    method GrowInPlace(n: nat)
      requires Valid() && n > 0 && elts + size * nalloc == pool.blocks[0].last
      requires pool.blocks[0].last + n * size <= pool.blocks[0].end
      modifies `nalloc, pool`blocks, pool`client
      ensures Valid() && nalloc == old(nalloc) + n
      ensures OthersKept(old(pool.Live()), pool.Live(), old(Extent()), Extent(), pool.mem, pool.mem)
    {
      hide Sound, Tried, Pool.Listed, Pool.Nodes;
      ghost var r, small := Extent(), pool.client + Pool.Nodes(pool.large);
      More(size, nalloc, n);
      TriedCurrent(pool.blocks, pool.current);
      Grow(pool.blocks, pool.psize, small, pool.big, 0, r, n * size);
      ClientGrows(pool.client, Pool.Nodes(pool.large), pool.big, r,
        Region(elts, size * (nalloc + n))) by { NodesAreThere(pool.large); }
      TriedSame(pool.blocks, pool.current, 0, pool.blocks[0].last + n * size);
      pool.blocks := pool.blocks[0 := pool.blocks[0].(last := pool.blocks[0].last + n * size)];
      pool.client := pool.client - {r} + {Region(elts, size * (nalloc + n))};
      nalloc := nalloc + n;
    }

    // The elements move to a new place, with room for `total` elements.
    method Move(total: nat, area: int, block: int)
      requires Valid() && nelts <= total && total > 0 && HeapRoom(size * total, area, block)
      modifies `elts, `nalloc, pool
      ensures Valid() && nalloc == total
      ensures Kept(old(pool.mem), pool.mem, old(elts), elts, size * nelts)
      ensures OthersKept(old(pool.Live()), pool.Live(), old(Extent()), Extent(), old(pool.mem), pool.mem)
    {
      hide Sound, Tried, Pool.Listed, Pool.Nodes, Unused, Kept, OthersKept;
      ghost var live, m := pool.Live(), pool.mem;
      Less(size, nelts, nalloc);
      Less(size, nelts, total);
      Less(size, 1, total);
      var p := pool.Alloc(size * total, true, area, block);
      pool.Copy(p, elts, size * nelts);
      Moved(live, Extent(), Region(p, size * total), m, pool.mem, size * nelts);
      elts, nalloc := p, total;
    }
  }

  ghost predicate Kept(m: map<int, Octet>, w: map<int, Octet>, from: int, to: int, n: int) {
    forall a {:trigger At(w, a)} :: to <= a < to + n ==> At(w, a) == At(m, a - to + from)
  }

  lemma KeptInPlace(m: map<int, Octet>, at: int, n: nat)
    ensures Kept(m, m, at, at, n)
  {
  }

  /** Beside the array, everything in use stays in use, with the same contents, and is apart from the array. */
  ghost predicate OthersKept(live: set<Region>, after: set<Region>, r: Region, s: Region, m: map<int, Octet>,
                             w: map<int, Octet>) {
    && live - {r} <= after <= live + {s} && s in after && IsFree(live - {r}, s)
    && forall x, a :: x in live - {r} && x.addr <= a < x.addr + x.size ==> At(w, a) == At(m, a)
  }

  /** Copying to a free region touches nothing else. */
  lemma Moved(live: set<Region>, r: Region, s: Region, m: map<int, Octet>, w: map<int, Octet>, n: nat)
    requires IsFree(live, s) && n <= s.size && Pool.Copied(m, w, s.addr, r.addr, n)
    ensures Kept(m, w, r.addr, s.addr, n) && OthersKept(live, live + {s}, r, s, m, w)
  {
    forall x, a | x in live - {r} && x.addr <= a < x.addr + x.size
      ensures At(w, a) == At(m, a)
    {
      assert Apart(x, s);
    }
  }

  lemma NodesAreThere(large: seq<Pool.Large>)
    ensures forall a :: a in Pool.Nodes(large) ==> a.size > 0
  {
  }

  lemma ClientGrows(client: set<Region>, nodes: set<Region>, big: set<Region>, r: Region, g: Region)
    requires client !! nodes && r in client + big && r !in big && g.size > 0
    requires IsFree(client + nodes - {r} + big, g) && forall a :: a in nodes ==> a.size > 0
    ensures client - {r} + {g} !! nodes && client + nodes - {r} + {g} == (client - {r} + {g}) + nodes
    ensures IsFree(client + big - {r}, g) && client - {r} + {g} + big == client + big - {r} + {g}
  {
    FreeIsNew(client + nodes - {r} + big, g);
    assert r !in nodes;
  }

  lemma FreeIsNew(live: set<Region>, g: Region)
    requires IsFree(live, g) && g.size > 0
    ensures g !in live
  {
    assert g in live ==> Apart(g, g);
  }

  lemma ClientShrinks(client: set<Region>, nodes: set<Region>, big: set<Region>, r: Region)
    requires client !! nodes && r in client + big && r !in big
    ensures client + nodes - {r} == (client - {r}) + nodes && client - {r} + big == client + big - {r}
  {
  }

  lemma Twice(size: nat, n: nat)
    ensures size * (2 * n) == 2 * (size * n)
  {
  }

  lemma Commutes(m: nat, n: nat)
    ensures m * n == n * m
  {
  }

  lemma More(size: nat, a: nat, n: nat)
    ensures size * (a + n) == size * a + n * size
  {
  }

  lemma Less(size: nat, m: nat, n: nat)
    requires m <= n
    ensures size * m <= size * n
  {
  }
}
