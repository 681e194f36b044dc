/** Memory regions of a pool: its blocks, what was handed out of them, and large allocations. */
module PoolRegions {
  import opened Common

  datatype Region = Region(addr: int, size: nat)

  /** A block of the pool; [base, last) is used. */
  datatype Block = Block(base: int, last: int, end: int, failed: nat)

  const NULL: int := 0
  const POOL_SIZE: nat := 80         // sizeof(ngx_pool_t)
  const DATA_SIZE: nat := 32         // sizeof(ngx_pool_data_t)
  const LARGE_SIZE: nat := 16        // sizeof(ngx_pool_large_t)
  const MIN_POOL_SIZE: nat := 112
  const MAX_ALLOC: nat := 4095       // ngx_pagesize - 1

  /** No byte is in both. */
  predicate Apart(a: Region, b: Region) {
    a.size == 0 || b.size == 0 || a.addr + a.size <= b.addr || b.addr + b.size <= a.addr
  }

  /** What is in memory at an address. */
  function At(mem: map<int, Octet>, a: int): Octet {
    if a in mem then mem[a] else 0
  }

  ghost predicate Disjoint(s: set<Region>) {
    forall a, b :: a in s && b in s && a != b ==> Apart(a, b)
  }

  /** `r` shares nothing with the regions in use. */
  ghost predicate IsFree(s: set<Region>, r: Region) {
    forall a :: a in s ==> Apart(a, r)
  }

  function Whole(b: Block, psize: nat): Region {
    Region(b.base, psize)
  }

  // What the block needs for itself: the first one holds the pool.
  function Header(i: nat): nat {
    if i == 0 then POOL_SIZE else DATA_SIZE
  }

  predicate IsBlock(b: Block, psize: nat, header: nat) {
    b.base > 0 && b.base % 16 == 0 && b.end == b.base + psize && b.base + header <= b.last <= b.end
  }

  ghost predicate Sized(blocks: seq<Block>, psize: nat) {
    forall i :: 0 <= i < |blocks| ==> IsBlock(blocks[i], psize, Header(i))
  }

  ghost predicate BlocksApart(blocks: seq<Block>, psize: nat) {
    forall i, j :: 0 <= i < j < |blocks| ==> Apart(Whole(blocks[i], psize), Whole(blocks[j], psize))
  }

  /** `r` is in the used part of a block, behind its header. */
  predicate InBlock(b: Block, header: nat, r: Region) {
    b.base + header <= r.addr && r.addr + r.size <= b.last
  }

  ghost predicate Placed(blocks: seq<Block>, r: Region) {
    exists i :: 0 <= i < |blocks| && InBlock(blocks[i], Header(i), r)
  }

  /** The counters of failures fall along the chain from `current` on, and every block before it has
      failed at least six times. */
  ghost predicate Tried(blocks: seq<Block>, current: nat) {
    && current < |blocks|
    && (forall i, j :: current <= i < j < |blocks| ==> blocks[j].failed <= blocks[i].failed)
    && (forall i :: 0 <= i < current ==> blocks[i].failed > 5)
  }

  /** All regions have their place: the small ones in blocks, the large ones outside. */
  ghost predicate Sound(blocks: seq<Block>, psize: nat, small: set<Region>, big: set<Region>) {
    && Sized(blocks, psize) && BlocksApart(blocks, psize)
    && Disjoint(small + big)
    && (forall r :: r in small && r.size > 0 ==> Placed(blocks, r))
    && (forall r, i :: r in big && 0 <= i < |blocks| ==> Apart(Whole(blocks[i], psize), r))
    && (forall r :: r in big ==> r.size > 0)
  }

  /** The heap may put something new there. */
  ghost predicate Unused(blocks: seq<Block>, psize: nat, big: set<Region>, r: Region) {
    && r.addr > 0 && (forall i :: 0 <= i < |blocks| ==> Apart(Whole(blocks[i], psize), r))
    && (forall a :: a in big ==> Apart(a, r))
  }

  /** The blocks stay where they are; one may be added. */
  ghost predicate Added(blocks: seq<Block>, w: seq<Block>, base: int) {
    && |blocks| <= |w| <= |blocks| + 1
    && (forall i :: 0 <= i < |blocks| ==> w[i].base == blocks[i].base)
    && (|w| > |blocks| ==> w[|blocks|].base == base)
  }

  lemma UnusedStill(blocks: seq<Block>, w: seq<Block>, psize: nat, big: set<Region>, base: int, r: Region)
    requires Added(blocks, w, base) && Unused(blocks, psize, big, r)
    requires (|w| > |blocks| ==> Apart(Region(base, psize), r))
    ensures Unused(w, psize, big, r)
  {
    forall i | 0 <= i < |w|
      ensures Apart(Whole(w[i], psize), r)
    {
      assert i < |blocks| ==> Apart(Whole(blocks[i], psize), r);
    }
  }

  /** ngx_align_ptr to a machine word. */
  function Align(m: int): int {
    (m + 7) / 8 * 8
  }

  /** (size_t) (end - m): it wraps around. */
  function Room(end: int, m: int): nat {
    (end - m) % WRAP
  }

  lemma AlignIsNear(m: int)
    ensures m <= Align(m) < m + 8 && Align(m) % 8 == 0
    ensures m % 8 == 0 ==> Align(m) == m
  {
  }

  /** Aligning in a block whose end is aligned stays in the block, and the room is what it looks like. */
  lemma AlignedRoom(last: int, end: int)
    requires last <= end < last + WRAP && end % 8 == 0
    ensures Align(last) <= end && Room(end, Align(last)) == end - Align(last)
  {
    AlignIsNear(last);
  }

  /** Without that, the room can wrap around, and the region would go beyond the end: for some used part
      of the block, exactly if the end is not aligned. */
  lemma OverrunsIffUnaligned(end: int, size: nat)
    requires 0 < size <= WRAP / 2
    ensures (exists last {:trigger Align(last)} ::
      end - WRAP < last <= end && Room(end, Align(last)) >= size && Align(last) + size > end)
        <==> end % 8 != 0
  {
    AlignIsNear(end);
    if end % 8 == 0 {
      forall last {:trigger Align(last)} | end - WRAP < last <= end
        ensures !(Room(end, Align(last)) >= size && Align(last) + size > end)
      {
        AlignedRoom(last, end);
      }
    }
  }

  /** Memory behind the used part of a block is free. */
  lemma BehindLast(blocks: seq<Block>, psize: nat, small: set<Region>, big: set<Region>, i: nat, r: Region)
    requires Sound(blocks, psize, small, big) && i < |blocks|
    requires blocks[i].last <= r.addr && r.addr + r.size <= blocks[i].end
    ensures IsFree(small + big, r)
  {
    forall a | a in small + big
      ensures Apart(a, r)
    {
      if a in small && a.size > 0 {
        var j :| 0 <= j < |blocks| && InBlock(blocks[j], Header(j), a);
        assert i < j ==> Apart(Whole(blocks[i], psize), Whole(blocks[j], psize));
        assert j < i ==> Apart(Whole(blocks[j], psize), Whole(blocks[i], psize));
      } else if a in big {
        assert Apart(Whole(blocks[i], psize), a);
      }
    }
  }

  /** Handing out a region behind the used part. */
  lemma Carve(blocks: seq<Block>, psize: nat, small: set<Region>, big: set<Region>, i: nat, r: Region)
    requires Sound(blocks, psize, small, big) && i < |blocks|
    requires blocks[i].last <= r.addr && r.addr + r.size <= blocks[i].end
    ensures IsFree(small + big, r)
    ensures Sound(blocks[i := blocks[i].(last := r.addr + r.size)], psize, small + {r}, big)
  {
    BehindLast(blocks, psize, small, big, i, r);
    var w := blocks[i := blocks[i].(last := r.addr + r.size)];
    forall a | a in small + {r} && a.size > 0
      ensures Placed(w, a)
    {
      if a == r {
        assert InBlock(w[i], Header(i), r);
      } else {
        var j :| 0 <= j < |blocks| && InBlock(blocks[j], Header(j), a);
        assert InBlock(w[j], Header(j), a);
      }
    }
    assert small + {r} + big == small + big + {r};
  }

  /** A new block that is apart from everything. */
  lemma NewBlock(blocks: seq<Block>, psize: nat, small: set<Region>, big: set<Region>, b: Block)
    requires Sound(blocks, psize, small, big) && IsBlock(b, psize, DATA_SIZE) && blocks != []
    requires Unused(blocks, psize, big, Whole(b, psize))
    ensures Sound(blocks + [b], psize, small, big)
  {
    var w := blocks + [b];
    forall a | a in small && a.size > 0
      ensures Placed(w, a)
    {
      var j :| 0 <= j < |blocks| && InBlock(blocks[j], Header(j), a);
      assert InBlock(w[j], Header(j), a);
    }
  }

  /** A new large region. */
  lemma NewBig(blocks: seq<Block>, psize: nat, small: set<Region>, big: set<Region>, r: Region)
    requires Sound(blocks, psize, small, big) && r.size > 0 && Unused(blocks, psize, big, r)
    ensures IsFree(small + big, r) && r !in small + big && Sound(blocks, psize, small, big + {r})
  {
    forall a | a in small + big
      ensures Apart(a, r) && a != r
    {
      if a in small && a.size > 0 {
        var j :| 0 <= j < |blocks| && InBlock(blocks[j], Header(j), a);
        assert Apart(Whole(blocks[j], psize), r);
      } else if a in big {
        assert Apart(a, r);
      }
    }
  }

  lemma FewerRegions(blocks: seq<Block>, psize: nat, small: set<Region>, big: set<Region>, s: set<Region>,
                     b: set<Region>)
    requires Sound(blocks, psize, small, big) && s <= small && b <= big
    ensures Sound(blocks, psize, s, b)
  {
    assert s + b <= small + big;
  }

  lemma AtBlock(blocks: seq<Block>, i: nat, r: Region)
    requires i < |blocks| && InBlock(blocks[i], Header(i), r)
    ensures Placed(blocks, r)
  {
  }

  /** A region of a sound pool that ends where the used part of a block ends lies in that block. */
  lemma EndsBlock(blocks: seq<Block>, psize: nat, small: set<Region>, big: set<Region>, i: nat, r: Region)
    requires Sound(blocks, psize, small, big) && i < |blocks| && r in small + big && r.size > 0
    requires r.addr + r.size == blocks[i].last
    ensures r in small && InBlock(blocks[i], Header(i), r)
  {
    var b := Whole(blocks[i], psize);
    assert Apart(b, r) || r !in big;
    var j :| 0 <= j < |blocks| && InBlock(blocks[j], Header(j), r);
    OneBlock(blocks, psize, i, j, r.addr + r.size - 1);
  }

  lemma OneBlock(blocks: seq<Block>, psize: nat, i: nat, j: nat, x: int)
    requires Sized(blocks, psize) && BlocksApart(blocks, psize) && i < |blocks| && j < |blocks|
    requires blocks[i].base <= x < blocks[i].end && blocks[j].base <= x < blocks[j].end
    ensures i == j
  {
  }

  lemma ApartFromBoth(a: Region, r: Region, n: nat)
    requires Apart(a, r) && Apart(a, Region(r.addr + r.size, n)) && r.size > 0
    ensures Apart(a, Region(r.addr, r.size + n))
  {
  }

  /** The last region of a block may grow up to the block's end. */
  lemma Grow(blocks: seq<Block>, psize: nat, small: set<Region>, big: set<Region>, i: nat, r: Region, n: nat)
    requires Sound(blocks, psize, small, big) && i < |blocks| && r in small + big && r.size > 0
    requires r.addr + r.size == blocks[i].last && blocks[i].last + n <= blocks[i].end
    ensures r in small && r !in big
    ensures Sound(blocks[i := blocks[i].(last := blocks[i].last + n)], psize,
                  small - {r} + {Region(r.addr, r.size + n)}, big)
    ensures IsFree(small - {r} + big, Region(r.addr, r.size + n))
  {
    hide Sound, Placed;
    SoundSized(blocks, psize, small, big);
    EndsBlock(blocks, psize, small, big, i, r);
    var rest := Region(r.addr + r.size, n);
    var g := Region(r.addr, r.size + n);
    Carve(blocks, psize, small, big, i, rest);
    var w := blocks[i := blocks[i].(last := blocks[i].last + n)];
    FewerRegions(w, psize, small + {rest}, big, small - {r}, big);
    NotBoth(blocks, psize, small, big, i, r);
    forall a | a in small - {r} + big
      ensures Apart(a, g)
    {
      ApartFromBoth(a, r, n);
    }
    AtBlock(w, i, g);
    AddRegion(w, psize, small - {r}, big, g);
  }

  /** The last region of a block may be given back. */
  lemma Shrink(blocks: seq<Block>, psize: nat, small: set<Region>, big: set<Region>, i: nat, r: Region)
    requires Sound(blocks, psize, small, big) && i < |blocks| && r in small + big && r.size > 0
    requires r.addr + r.size == blocks[i].last
    ensures r in small && r !in big
    ensures Sound(blocks[i := blocks[i].(last := r.addr)], psize, small - {r}, big)
  {
    EndsBlock(blocks, psize, small, big, i, r);
    NotBoth(blocks, psize, small, big, i, r);
    var w := blocks[i := blocks[i].(last := r.addr)];
    forall a | a in small - {r} && a.size > 0
      ensures Placed(w, a)
    {
      var j :| 0 <= j < |blocks| && InBlock(blocks[j], Header(j), a);
      assert Apart(a, r);
      assert InBlock(w[j], Header(j), a);
    }
    assert small - {r} + big <= small + big;
  }

  // A region that ends a block is not a large one.
  lemma NotBoth(blocks: seq<Block>, psize: nat, small: set<Region>, big: set<Region>, i: nat, r: Region)
    requires Sound(blocks, psize, small, big) && i < |blocks| && r.size > 0 && InBlock(blocks[i], Header(i), r)
    ensures r !in big
  {
    assert IsBlock(blocks[i], psize, Header(i));
    var b := Whole(blocks[i], psize);
    assert Apart(b, r) || r !in big;
  }

  lemma AddRegion(blocks: seq<Block>, psize: nat, small: set<Region>, big: set<Region>, r: Region)
    requires Sound(blocks, psize, small, big) && Placed(blocks, r) && IsFree(small + big, r)
    ensures Sound(blocks, psize, small + {r}, big)
  {
    hide Placed, Sized, BlocksApart;
    assert small + {r} + big == (small + big) + {r};
  }

  lemma SoundSized(blocks: seq<Block>, psize: nat, small: set<Region>, big: set<Region>)
    requires Sound(blocks, psize, small, big)
    ensures Sized(blocks, psize) && Disjoint(small + big) && forall r :: r in big ==> r.size > 0
  {
  }

  lemma TriedCurrent(blocks: seq<Block>, current: nat)
    requires Tried(blocks, current)
    ensures current < |blocks|
  {
  }

  lemma TriedSame(blocks: seq<Block>, current: nat, i: nat, last: int)
    requires Tried(blocks, current) && i < |blocks|
    ensures Tried(blocks[i := blocks[i].(last := last)], current)
  {
  }
}
