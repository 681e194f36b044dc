/** The client's view: granted address ranges. They never overlap, each call adds or removes exactly
    one, and freeing what was just granted restores the pool, free runs included. */
module SlabLive {
  import opened Words
  import opened SlabBlocks
  import opened SlabRecords
  import opened SlabSpec
  import opened SlabFacts

  /** A block map between calls. */
  ghost predicate Settled(n: nat, blk: Blocks) {
    Tiles(n, blk) && Maximal(blk) && NoLoose(blk) && NoEmpty(blk) && Ranged(blk)
  }

  /** Two live ranges are the same range or do not overlap; each is inside the pool and, on a
      small-chunk page, above the bitmap. */
  lemma LiveRangesAreDisjoint(n: nat, blk: Blocks, a: int, s: nat, b: int, t: nat)
    requires Settled(n, blk) && Live(blk, a, s) && Live(blk, b, t)
    ensures (a == b && s == t) || a + s <= b || b + t <= a
    ensures 0 <= a && a + s <= n * PAGE_SIZE && s > 0
  {
    var h: nat, i: nat :| LiveAt(blk, a, s, h, i);
    var g: nat, j: nat :| LiveAt(blk, b, t, g, j);
    LiveInside(n, blk, a, s, h, i);
    LiveInside(n, blk, b, t, g, j);
    if h == g {
      if blk[h].Chunks? && i != j {
        ChunksApart(blk[h].shift, i, j);
      }
    } else {
      PagesApart(n, blk, h, g);
    }
  }

  lemma PagesApart(n: nat, blk: Blocks, h: nat, g: nat)
    requires Tiles(n, blk) && h in blk && g in blk && h != g
    ensures (h + blk[h].Len()) * PAGE_SIZE <= g * PAGE_SIZE || (g + blk[g].Len()) * PAGE_SIZE <= h * PAGE_SIZE
  {
  }

  lemma ChunksApart(shift: nat, i: nat, j: nat)
    requires i != j
    ensures i * ChunkSize(shift) + ChunkSize(shift) <= j * ChunkSize(shift)
         || j * ChunkSize(shift) + ChunkSize(shift) <= i * ChunkSize(shift)
  {
  }

  /** The bytes of the in-page bitmap are outside every live range. */
  lemma BitmapIsNotLive(n: nat, blk: Blocks, a: int, s: nat, h: nat, w: nat)
    requires Settled(n, blk) && Live(blk, a, s) && h in blk && blk[h].Chunks? && blk[h].shift < EXACT_SHIFT
    requires w < Capacity(blk[h].shift) / WORD_BITS
    ensures a + s <= 8 * MapIndex(h, w) || 8 * MapIndex(h, w) + 8 <= a
  {
    var g: nat, j: nat :| LiveAt(blk, a, s, g, j);
    LiveInside(n, blk, a, s, g, j);
    AboveBitmap(blk[h].shift);
    if g != h {
      PagesApart(n, blk, h, g);
    }
  }

  /** The address of a live range is always accepted by free: it is in the pool and in no bitmap. */
  lemma LiveMayBeFreed(n: nat, blk: Blocks, a: int, s: nat)
    requires Settled(n, blk) && Live(blk, a, s)
    ensures !InBitmap(blk, a) && 0 <= a < n * PAGE_SIZE
  {
    var g: nat, i: nat :| LiveAt(blk, a, s, g, i);
    LiveInside(n, blk, a, s, g, i);
    if InBitmap(blk, a) {
      var h: nat, j: nat :| BitmapChunk(blk, a, h, j);
      ChunkFits(blk[h].shift, j);
      if g != h {
        PagesApart(n, blk, h, g);
      } else {
        ChunksApart(blk[h].shift, i, j);
      }
    }
  }

  lemma LiveIsBusy(blk: Blocks, a: int, s: nat, h: nat, j: nat)
    ensures LiveAt(blk, a, s, h, j) <==> LiveAt(Busy(blk), a, s, h, j)
  {
  }

  /** One address has one owner. */
  lemma OneOwner(n: nat, blk: Blocks, a: int, s: nat, h: nat, i: nat, t: nat, g: nat, j: nat)
    requires Settled(n, blk) && LiveAt(blk, a, s, h, i) && LiveAt(blk, a, t, g, j)
    ensures h == g && s == t && (blk[h].Chunks? ==> i == j)
  {
    LiveInside(n, blk, a, s, h, i);
    LiveInside(n, blk, a, t, g, j);
    if h != g {
      PagesApart(n, blk, h, g);
    } else if blk[h].Chunks? && i != j {
      ChunksApart(blk[h].shift, i, j);
    }
  }

  // The size a request really gets.
  /** Whole pages, as few as hold the request; or the smallest power of two from 8 to 2048 that does. */
  ghost predicate Rounded(size: nat, got: nat) {
    if size > 2048 then got % 4096 == 0 && size <= got < size + 4096
    else got in {8, 16, 32, 64, 128, 256, 512, 1024, 2048} && size <= got && (got > 8 ==> got < 2 * size)
  }

  // The size of the range that a request gets.
  lemma AllocSize(n: nat, a: Blocks, b: Blocks, size: nat, addr: nat, h: nat, j: nat) returns (got: nat)
    requires Settled(n, a) && Settled(n, b) && AllocStep(a, b, size, addr, h, j)
    ensures Rounded(size, got) && got >= size && got > 0 && LiveAt(b, addr, got, h, j)
    ensures addr % (if got <= MAX_SIZE then got else PAGE_SIZE) == 0
  {
    if size > MAX_SIZE {
      got := PagesFor(size) * PAGE_SIZE;
      PagesAreEnough(size, PagesFor(size));
      PagesAreEnough(size, PagesFor(size) - 1);
      assert h in Busy(b) && Busy(b)[h] == Run(PagesFor(size));
    } else {
      var shift :| IsClass(size, shift) && ChunkStep(a, b, addr, h, shift, j);
      got := ChunkSize(shift);
      ChunkRange(a, b, size, addr, h, shift, j);
    }
  }

  lemma ChunkRange(a: Blocks, b: Blocks, size: nat, addr: nat, h: nat, shift: nat, j: nat)
    requires size <= MAX_SIZE && IsClass(size, shift) && ChunkStep(a, b, addr, h, shift, j)
    ensures 0 < ChunkSize(shift) <= MAX_SIZE && Rounded(size, ChunkSize(shift))
    ensures LiveAt(b, addr, ChunkSize(shift), h, j) && addr % ChunkSize(shift) == 0
  {
    assert h in Busy(b) && Busy(b)[h].Chunks? && Busy(b)[h].shift == shift && j in Busy(b)[h].used;
    hide Busy;
    Multiple(shift, h, j);
  }

  /** A successful request adds exactly one live range: big enough, aligned to its own size (to a
      page if larger), and not live before. */
  lemma AllocAddsOne(n: nat, a: Blocks, b: Blocks, size: nat, addr: nat, h: nat, j: nat) returns (got: nat)
    requires Settled(n, a) && Settled(n, b) && AllocStep(a, b, size, addr, h, j)
    ensures Rounded(size, got) && got >= size && got > 0
    ensures addr % (if got <= MAX_SIZE then got else PAGE_SIZE) == 0
    ensures !IsLive(a, addr)
    ensures forall x: int, s: nat :: Live(b, x, s) <==> Live(a, x, s) || (x == addr && s == got)
  {
    got := AllocSize(n, a, b, size, addr, h, j);
    hide Settled, AllocStep, Rounded, LiveAt, PagesFor;
    forall x: int, s: nat
      ensures Live(b, x, s) <==> Live(a, x, s) || (x == addr && s == got)
    {
      AllocLive(n, a, b, size, addr, h, j, got, x, s);
    }
    if IsLive(a, addr) {
      var s: nat :| Live(a, addr, s);
      AllocWasFree(n, a, b, size, addr, h, j, got, s);
    }
  }

  lemma Multiple(shift: nat, h: nat, j: nat)
    requires IsShift(shift)
    ensures (h * PAGE_SIZE + j * ChunkSize(shift)) % ChunkSize(shift) == 0
  {
    var q := match shift case 3 => 512 case 4 => 256 case 5 => 128 case 6 => 64 case 7 => 32 case 8 => 16
             case 9 => 8 case 10 => 4 case _ => 2;
    assert h * PAGE_SIZE + j * ChunkSize(shift) == (h * q + j) * ChunkSize(shift);
    MultipleMod(shift, h * q + j);
  }

  // What is live in `b` beside the new block was live in `a`.
  lemma AllocLive(n: nat, a: Blocks, b: Blocks, size: nat, addr: nat, h: nat, j: nat, got: nat, x: int, s: nat)
    requires Settled(n, a) && Settled(n, b) && AllocStep(a, b, size, addr, h, j) && LiveAt(b, addr, got, h, j)
    ensures Live(b, x, s) <==> Live(a, x, s) || (x == addr && s == got)
  {
    hide Settled;
    if Live(a, x, s) {
      var g: nat, i: nat :| LiveAt(a, x, s, g, i);
      AllocKeeps(a, b, size, addr, h, j, x, s, g, i);
    }
    if Live(b, x, s) {
      var g: nat, i: nat :| LiveAt(b, x, s, g, i);
      AllocAddsNoOther(a, b, size, addr, h, j, got, x, s, g, i);
    }
  }

  lemma AllocKeeps(a: Blocks, b: Blocks, size: nat, addr: nat, h: nat, j: nat, x: int, s: nat, g: nat, i: nat)
    requires AllocStep(a, b, size, addr, h, j) && LiveAt(a, x, s, g, i)
    ensures LiveAt(b, x, s, g, i) && (g == h ==> b[g].Chunks? && i != j)
  {
    assert g in Busy(a) && Busy(a)[g] == a[g];
    assert LiveAt(Busy(b), x, s, g, i);
    LiveIsBusy(b, x, s, g, i);
  }

  lemma AllocAddsNoOther(a: Blocks, b: Blocks, size: nat, addr: nat, h: nat, j: nat, got: nat,
                         x: int, s: nat, g: nat, i: nat)
    requires AllocStep(a, b, size, addr, h, j) && LiveAt(b, addr, got, h, j) && LiveAt(b, x, s, g, i)
    ensures LiveAt(a, x, s, g, i) || (x == addr && s == got)
  {
    assert g in Busy(b) && Busy(b)[g] == b[g];
    if g != h || (b[h].Chunks? && i != j) {
      assert LiveAt(Busy(a), x, s, g, i);
      LiveIsBusy(a, x, s, g, i);
    }
  }

  lemma AllocWasFree(n: nat, a: Blocks, b: Blocks, size: nat, addr: nat, h: nat, j: nat, got: nat, s: nat)
    requires Settled(n, a) && Settled(n, b) && AllocStep(a, b, size, addr, h, j) && LiveAt(b, addr, got, h, j)
    ensures !Live(a, addr, s)
  {
    hide Settled;
    if Live(a, addr, s) {
      var g: nat, i: nat :| LiveAt(a, addr, s, g, i);
      AllocKeeps(a, b, size, addr, h, j, addr, s, g, i);
      OneOwner(n, b, addr, s, g, i, got, h, j);
    }
  }

  /** A successful free removes exactly the range that was live at the address. */
  lemma FreeRemovesOne(n: nat, a: Blocks, b: Blocks, addr: int, h: nat, j: nat)
    requires Settled(n, a) && Settled(n, b) && FreeStep(a, b, addr, h, j)
    ensures IsLive(a, addr)
    ensures forall x: int, s: nat :: Live(b, x, s) <==> Live(a, x, s) && x != addr
  {
    var got := if a[h].Run? then a[h].pages * PAGE_SIZE else ChunkSize(a[h].shift);
    assert LiveAt(a, addr, got, h, j);
    assert Live(a, addr, got);
    forall x: int, s: nat
      ensures Live(b, x, s) <==> Live(a, x, s) && x != addr
    {
      FreeLive(n, a, b, addr, h, j, got, x, s);
    }
  }

  lemma FreeLive(n: nat, a: Blocks, b: Blocks, addr: int, h: nat, j: nat, got: nat, x: int, s: nat)
    requires Settled(n, a) && Settled(n, b) && FreeStep(a, b, addr, h, j) && LiveAt(a, addr, got, h, j)
    ensures Live(b, x, s) <==> Live(a, x, s) && x != addr
  {
    hide Settled;
    if Live(b, x, s) {
      var g: nat, i: nat :| LiveAt(b, x, s, g, i);
      FreeAddsNone(a, b, addr, h, j, x, s, g, i);
      if x == addr {
        OneOwner(n, a, addr, s, g, i, got, h, j);
      }
    }
    if Live(a, x, s) && x != addr {
      var g: nat, i: nat :| LiveAt(a, x, s, g, i);
      FreeKeeps(a, b, addr, h, j, x, s, g, i);
    }
  }

  lemma FreeAddsNone(a: Blocks, b: Blocks, addr: int, h: nat, j: nat, x: int, s: nat, g: nat, i: nat)
    requires FreeStep(a, b, addr, h, j) && LiveAt(b, x, s, g, i)
    ensures LiveAt(a, x, s, g, i) && (g == h ==> a[h].Chunks? && i != j)
  {
    assert g in Busy(b) && Busy(b)[g] == b[g];
    assert LiveAt(Busy(a), x, s, g, i);
    LiveIsBusy(a, x, s, g, i);
  }

  lemma FreeKeeps(a: Blocks, b: Blocks, addr: int, h: nat, j: nat, x: int, s: nat, g: nat, i: nat)
    requires FreeStep(a, b, addr, h, j) && LiveAt(a, x, s, g, i) && x != addr
    ensures LiveAt(b, x, s, g, i)
  {
    assert g in Busy(a) && Busy(a)[g] == a[g];
    assert LiveAt(Busy(b), x, s, g, i);
    LiveIsBusy(b, x, s, g, i);
  }

  /** Freeing what was just granted restores the pool exactly, free runs included. */
  // The size of the range that is freed.
  lemma FreeSize(a: Blocks, b: Blocks, addr: int, h: nat, j: nat) returns (got: nat)
    requires FreeStep(a, b, addr, h, j)
    ensures LiveAt(a, addr, got, h, j)
  {
    got := if a[h].Run? then a[h].pages * PAGE_SIZE else ChunkSize(a[h].shift);
  }

  lemma SettledParts(n: nat, blk: Blocks)
    requires Settled(n, blk)
    ensures Tiles(n, blk) && Maximal(blk)
  {
  }

  lemma FreeUndoesAlloc(n: nat, a: Blocks, b: Blocks, c: Blocks, size: nat, addr: nat, h: nat, j: nat, g: nat, i: nat)
    requires Settled(n, a) && Settled(n, b) && Settled(n, c)
    requires AllocStep(a, b, size, addr, h, j) && FreeStep(b, c, addr, g, i)
    ensures c == a
  {
    var got := AllocSize(n, a, b, size, addr, h, j);
    var got' := FreeSize(b, c, addr, g, i);
    hide *;
    OneOwner(n, b, addr, got, h, j, got', g, i);
    SameBusy(n, a, b, c, size, addr, h, j, i);
    SettledParts(n, a);
    SettledParts(n, c);
    FreeRunsAreDetermined(n, a, c);
  }

  lemma SameBusy(n: nat, a: Blocks, b: Blocks, c: Blocks, size: nat, addr: nat, h: nat, j: nat, i: nat)
    requires Settled(n, a) && h in b && (b[h].Chunks? ==> i == j)
    requires AllocStep(a, b, size, addr, h, j) && FreeStep(b, c, addr, h, i)
    ensures Busy(c) == Busy(a)
  {
    assert Busy(b)[h] == b[h];
    if size <= MAX_SIZE {
      var shift :| IsClass(size, shift) && ChunkStep(a, b, addr, h, shift, j);
      var u := UsedIn(Busy(a), h);
      assert b[h].used == u + {j} && (u + {j}) - {j} == u;
      if h in Busy(a) {
        assert Busy(a)[h] == a[h] && a[h] == Chunks(shift, u);
        assert u != {};
        assert b[h].used != {j};
        assert Busy(c) == Busy(a)[h := Chunks(shift, u)];
      } else {
        assert u == {};
        assert b[h].used == {j};
      }
    }
  }

  ghost predicate HalfUsed(blk: Blocks, slot: nat, h: nat) {
    && h in blk && blk[h].Chunks? && blk[h].shift == slot + 3 && blk[h].used != {}
    && exists j :: Reserved(slot + 3) <= j < Capacity(slot + 3) && j !in blk[h].used
  }

  /** A page is on the list of its slot exactly when it has both a used and a free chunk. */
  lemma OnListWhenHalfUsed(blk: Blocks, lists: Lists, slot: nat, h: nat)
    requires Filed(blk, lists) && NoEmpty(blk) && Ranged(blk) && slot < SLOTS
    ensures h in lists[1 + slot] <==> HalfUsed(blk, slot, h)
  {
    assert FiledIn(blk, lists[1 + slot], 1 + slot);
    assert h in lists[1 + slot] <==> Place(blk, h) == 1 + slot;
  }

  /** The chunks of a bitmap look taken to free, and clearing the bit of one leaves records and bitmaps
      that fit no blocks and no lists at all. */
  lemma FreeingABitmapChunk(n: nat, rec: seq<Record>, mem: seq<nat>, blk: Blocks, lists: Lists, h: nat, j: nat)
    requires Sound(n, rec, mem, blk, lists) && NoLoose(blk) && h in blk && blk[h].Chunks? && j < Reserved(blk[h].shift)
    ensures MapIndex(h, 0) < |mem| && Bit(mem[MapIndex(h, 0)], j)
    ensures Broken(n, rec, mem[MapIndex(h, 0) := ClearBit(mem[MapIndex(h, 0)], j)])
  {
    ChunkFacts(n, rec, mem, blk, lists, h);
    KindOfPage(n, rec, mem, blk, lists, h);
    SoundBitmap(n, rec, mem, blk, lists, h, j);
    BitOfClear(mem[MapIndex(h, 0)], j, j);
    BitmapBroken(n, rec, mem[MapIndex(h, 0) := ClearBit(mem[MapIndex(h, 0)], j)], h, blk[h].shift, j);
  }
}
