/** What the records of a pool tell each step of the allocator, and what each step does to the
    counters. */
module SlabFacts {
  import opened Words
  import opened SlabBlocks
  import opened SlabRecords
  import opened SlabMoves
  import opened SlabChunks
  import opened SlabSpec

  // ----- lemmas about single calls -----

  predicate Short(blk: Blocks, h: nat, pages: nat) {
    h in blk && blk[h].Free? && blk[h].pages < pages
  }

  /** Position i holds the first run of the free list that is long enough. */
  ghost predicate FirstFit(blk: Blocks, s: seq<nat>, i: int, pages: nat) {
    && 0 <= i < |s| && s[i] in blk && blk[s[i]].Free? && blk[s[i]].pages >= pages
    && forall j :: 0 <= j < i ==> Short(blk, s[j], pages)
  }

  lemma OnFreeList(n: nat, rec: seq<Record>, mem: seq<nat>, blk: Blocks, lists: Lists, i: nat)
    requires Sound(n, rec, mem, blk, lists) && i < |lists[0]|
    ensures var h := lists[0][i];
      && h in blk && blk[h].Free? && h + blk[h].pages <= n < |rec| && rec[h].slab == blk[h].pages
      && 0 <= rec[h].prev < |rec| && rec[h].next == (if i + 1 < |lists[0]| then lists[0][i + 1] else n)
      && 0 <= rec[h].next < |rec| && rec[h].prev != h && rec[h].next != h
  {
    var h := lists[0][i];
    assert FiledIn(blk, lists[0], 0) && h in lists[0];
    assert HeadOK(n, rec, mem, h, blk[h]);
    FiledApart(n, blk, lists);
    UnlinkAll(n, rec, lists, 0, i);
    assert LinkAt(rec, n + 0, lists[0], i);
  }

  lemma EndOfList(n: nat, blk: Blocks, lists: Lists, i: nat)
    requires Tiles(n, blk) && Filed(blk, lists) && i <= |lists[0]|
    ensures i < |lists[0]| ==> lists[0][i] != n
  {
    FiledApart(n, blk, lists);
    assert i < |lists[0]| ==> lists[0][i] in lists[0];
  }

  lemma NoneLeft(blk: Blocks, lists: Lists, pages: nat)
    requires Filed(blk, lists) && forall j :: 0 <= j < |lists[0]| ==> Short(blk, lists[0][j], pages)
    ensures forall h :: h in blk && blk[h].Free? ==> blk[h].pages < pages
  {
    assert FiledIn(blk, lists[0], 0);
    forall h | h in blk && blk[h].Free?
      ensures blk[h].pages < pages
    {
      assert Place(blk, h) == 0;
      assert h in lists[0];
      var j :| 0 <= j < |lists[0]| && lists[0][j] == h;
      assert Short(blk, lists[0][j], pages);
    }
  }

  lemma AllocSum(n: nat, blk: Blocks, h: nat, k: nat)
    requires Tiles(n, blk) && Maximal(blk) && h in blk && blk[h].Free? && 0 < k <= blk[h].pages
    ensures Sum(Unused, blk, n) >= k
    ensures Sum(Unused, SplitAt(blk, h, k), n) == Sum(Unused, blk, n) - k
  {
    SplitMaximal(n, blk, h, k);
    var a := blk[h := Run(k)];
    SumAtOne(Unused, blk, a, h, n);
    if k < blk[h].pages {
      SumAtOne(Unused, a, SplitAt(blk, h, k), h + k, n);
    }
  }

  // ----- lemmas about freeing -----

  ghost predicate OnlyLoose(blk: Blocks, h: nat) {
    h in blk && blk[h].Loose? && forall x :: x in blk && x != h ==> !blk[x].Loose?
  }

  predicate RightClear(blk: Blocks, h: nat) {
    h in blk && (h + blk[h].Len() in blk ==> !blk[h + blk[h].Len()].Free?)
  }

  ghost predicate LeftClear(blk: Blocks, h: nat) {
    forall x :: x in blk && x + blk[x].Len() == h ==> !blk[x].Free?
  }

  lemma DetachFacts(n: nat, rec: seq<Record>, mem: seq<nat>, blk: Blocks, lists: Lists, h: nat)
    requires Sound(n, rec, mem, blk, lists) && h in blk
    requires blk[h].Run? || (blk[h].Chunks? && blk[h].used == {})
    ensures h < n < |rec| && h + blk[h].Len() <= n && blk[h].Len() > 0
    ensures blk[h].Run? <==> rec[h].next == NULL
  {
    assert HeadOK(n, rec, mem, h, blk[h]);
    if blk[h].Chunks? {
      var k, i := Position(n, rec, mem, blk, lists, h);
      NoNull(n, rec, lists, k);
    }
  }

  /** Where a page with a free chunk is filed. */
  lemma Position(n: nat, rec: seq<Record>, mem: seq<nat>, blk: Blocks, lists: Lists, h: nat) returns (k: nat, i: nat)
    requires Sound(n, rec, mem, blk, lists) && h in blk && blk[h].Chunks? && blk[h].used == {}
    ensures k == blk[h].shift - 2 && k < |lists| && i < |lists[k]| && lists[k][i] == h
  {
    assert HeadOK(n, rec, mem, h, blk[h]);
    var s := blk[h].shift;
    assert Reserved(s) < Capacity(s) && !IsFull(s, {}) by {
      assert Reserved(s) !in blk[h].used;
    }
    k := s - 2;
    assert Place(blk, h) == k;
    assert FiledIn(blk, lists[k], k);
    i :| 0 <= i < |lists[k]| && lists[k][i] == h;
  }

  lemma FreePosition(blk: Blocks, lists: Lists, h: nat) returns (i: nat)
    requires Filed(blk, lists) && h in blk && blk[h].Free?
    ensures i < |lists[0]| && lists[0][i] == h
  {
    assert FiledIn(blk, lists[0], 0) && Place(blk, h) == 0;
    i :| 0 <= i < |lists[0]| && lists[0][i] == h;
  }

  lemma LooseKeeps(n: nat, blk: Blocks, h: nat)
    requires Tiles(n, blk) && Maximal(blk) && NoLoose(blk) && h in blk && !blk[h].Free?
    ensures var b := blk[h := Loose(blk[h].Len())];
      Maximal(b) && OnlyLoose(b, h) && Sum(Unused, b, n) == Sum(Unused, blk, n)
  {
    var b := blk[h := Loose(blk[h].Len())];
    SumAtOne(Unused, blk, b, h, n);
    forall x | x in b
      ensures Alone(b, x)
    {
      assert Alone(blk, x);
    }
  }

  lemma RightFacts(n: nat, rec: seq<Record>, mem: seq<nat>, blk: Blocks, lists: Lists, h: nat)
    requires Sound(n, rec, mem, blk, lists) && OnlyLoose(blk, h)
    ensures h < n < |rec| && rec[h].slab == blk[h].pages
    ensures var j := h + blk[h].pages;
      && j <= n && (j < n ==> j in blk)
      && (j < n ==> (blk[j].Free? <==> rec[j].kind == PAGE && rec[j].next != NULL))
    ensures n !in blk
  {
    assert HeadOK(n, rec, mem, h, blk[h]) && Follows(n, blk, h);
    var j := h + blk[h].pages;
    if j < n {
      HeadTells(n, rec, mem, blk, lists, j);
    }
  }

  /** On a block that is not loose, PAGE type with a next pointer means free. */
  lemma HeadTells(n: nat, rec: seq<Record>, mem: seq<nat>, blk: Blocks, lists: Lists, j: nat)
    requires Sound(n, rec, mem, blk, lists) && j in blk && !blk[j].Loose?
    ensures j < n && (blk[j].Free? <==> rec[j].kind == PAGE && rec[j].next != NULL)
    ensures blk[j].Chunks? <==> rec[j].kind != PAGE
    ensures rec[j].kind == PAGE ==> rec[j].slab != 0
  {
    assert HeadOK(n, rec, mem, j, blk[j]);
    if blk[j].Free? {
      var i := FreePosition(blk, lists, j);
      NoNull(n, rec, lists, 0);
    }
  }

  /** What the page before a block says about the block it belongs to. */
  lemma LeftFacts(n: nat, rec: seq<Record>, mem: seq<nat>, blk: Blocks, lists: Lists, h: nat) returns (g: nat)
    requires Sound(n, rec, mem, blk, lists) && OnlyLoose(blk, h) && h > 0
    ensures g in blk && g + blk[g].Len() == h && h - 1 < n < |rec|
    ensures rec[h - 1].kind == PAGE && rec[h - 1].slab == 0 ==> rec[h - 1].prev == g && blk[g].Free?
    ensures rec[h - 1].kind == PAGE && rec[h - 1].slab != 0 && rec[h - 1].next != NULL ==> g == h - 1 && blk[g].Free?
    ensures blk[g].Free? ==> rec[h - 1].kind == PAGE && rec[g].next != NULL
    ensures blk[g].Free? && rec[h - 1].slab != 0 ==> g == h - 1
  {
    g := Before(n, blk, h);
    HeadTells(n, rec, mem, blk, lists, g);
    if g < h - 1 {
      assert InnerOK(n, rec, g, blk[g], h - 1);
    }
  }

  lemma NoLeftNeighbour(n: nat, blk: Blocks, h: nat, g: nat)
    requires Tiles(n, blk) && h in blk && g in blk && g + blk[g].Len() == h && !blk[g].Free?
    ensures LeftClear(blk, h)
  {
  }

  lemma NoLeft(n: nat, blk: Blocks)
    requires Tiles(n, blk)
    ensures LeftClear(blk, 0)
  {
  }

  lemma AbsorbFacts(n: nat, rec: seq<Record>, mem: seq<nat>, blk: Blocks, g: nat, h: nat)
    requires Sized(n, rec, mem) && Tiles(n, blk) && Encoded(n, rec, mem, blk) && g in blk && h in blk
    requires (blk[g].Free? && blk[h].Loose?) || (blk[g].Loose? && blk[h].Free?)
    ensures rec[g].slab == blk[g].pages && rec[h].slab == blk[h].pages && g < n && h < n
  {
    assert HeadOK(n, rec, mem, g, blk[g]) && HeadOK(n, rec, mem, h, blk[h]);
  }

  ghost predicate JoinSides(blk: Blocks, g: nat, h: nat, f: nat) {
    || (f == g && g in blk && blk[g].Free? && OnlyLoose(blk, h) && RightClear(blk, h))
    || (f == h && h in blk && blk[h].Free? && OnlyLoose(blk, g))
  }

  lemma JoinKeeps(n: nat, blk: Blocks, g: nat, h: nat, f: nat)
    requires Tiles(n, blk) && Maximal(blk) && g in blk && h in blk && g + blk[g].Len() == h && JoinSides(blk, g, h, f)
    ensures var b := Joined(blk, g, h);
      && Maximal(b) && OnlyLoose(b, g) && RightClear(b, g) && (f == g ==> LeftClear(b, g))
      && g in b && b[g].Len() == blk[g].Len() + blk[h].Len()
  {
    assert Alone(blk, h);
    JoinMaximal(blk, g, h);
    if f == g {
      JoinLeftClear(n, blk, g, h);
    }
  }

  lemma JoinMaximal(blk: Blocks, g: nat, h: nat)
    requires Maximal(blk) && g in blk && h in blk
    ensures Maximal(Joined(blk, g, h))
  {
    var b := Joined(blk, g, h);
    forall x | x in b
      ensures Alone(b, x)
    {
      assert Alone(blk, x);
    }
  }

  lemma JoinLeftClear(n: nat, blk: Blocks, g: nat, h: nat)
    requires Tiles(n, blk) && Maximal(blk) && g in blk && h in blk && g + blk[g].Len() == h && blk[g].Free?
    ensures LeftClear(Joined(blk, g, h), g)
  {
    var b := Joined(blk, g, h);
    forall x | x in b && x + b[x].Len() == g
      ensures !b[x].Free?
    {
      assert x in blk && Alone(blk, x);
    }
  }

  /** Between the steps of free_pages: block `h` is the only loose one, and already counted. */
  ghost predicate Merged(n: nat, rec: seq<Record>, mem: seq<nat>, blk: Blocks, lists: Lists, pfree: nat, h: nat) {
    && Sound(n, rec, mem, blk, lists)
    && Maximal(blk) && OnlyLoose(blk, h)
    && pfree == Sum(Unused, blk, n) + blk[h].pages
  }

  lemma AbsorbStep(n: nat, rec: seq<Record>, mem: seq<nat>, blk: Blocks, lists: Lists, pfree: nat,
                   g: nat, h: nat, f: nat, i: nat)
    requires g in blk && h in blk && g + blk[g].Len() == h && (f == g || f == h)
    requires Merged(n, rec, mem, blk, lists, pfree, if f == g then h else g) && blk[f].Free?
    requires f == g ==> RightClear(blk, h)
    requires |lists| > 0 && i < |lists[0]| && lists[0][i] == f
    ensures g < n && h < n && n < |rec| && rec[f].slab == blk[f].pages
    ensures 0 <= rec[f].prev < |rec| && 0 <= rec[f].next < |rec|
    ensures var b := Joined(blk, g, h);
      && Merged(n, Absorbed(rec, g, h, f), mem, b, lists[0 := Without(lists[0], i)], pfree, g)
      && g in b && b[g] == Loose(blk[g].Len() + blk[h].Len())
      && RightClear(b, g) && (f == g ==> LeftClear(b, g))
      && Busy(b) - {g} == Busy(blk) - {if f == g then h else g}
  {
    hide Encoded, AllLinked, Filed;
    AbsorbFacts(n, rec, mem, blk, g, h);
    Absorb(n, rec, mem, blk, lists, g, h, i);
    JoinKeeps(n, blk, g, h, f);
    JoinCounts(n, blk, g, h, f);
  }

  lemma JoinCounts(n: nat, blk: Blocks, g: nat, h: nat, f: nat)
    requires Tiles(n, blk) && g in blk && h in blk && g + blk[g].Len() == h && JoinSides(blk, g, h, f)
    ensures Sum(Unused, blk, n) == Sum(Unused, Joined(blk, g, h), n) + blk[f].pages
    ensures Busy(Joined(blk, g, h)) - {g} == Busy(blk) - {if f == g then h else g}
  {
    assert g < h < n;
    hide Tiles;
    JoinUnused(n, blk, g, h, f);
    JoinBusy(blk, g, h, f);
  }

  lemma JoinUnused(n: nat, blk: Blocks, g: nat, h: nat, f: nat)
    requires g in blk && h in blk && g < h < n && JoinSides(blk, g, h, f)
    ensures Sum(Unused, blk, n) == Sum(Unused, Joined(blk, g, h), n) + blk[f].pages
  {
    hide Sum;
    var b := Joined(blk, g, h);
    var a := blk - {h};
    SumAtOne(Unused, blk, a, h, n);
    SumAtOne(Unused, a, b, g, n);
  }

  lemma JoinBusy(blk: Blocks, g: nat, h: nat, f: nat)
    requires g in blk && h in blk && g != h && JoinSides(blk, g, h, f)
    ensures Busy(Joined(blk, g, h)) - {g} == Busy(blk) - {if f == g then h else g}
  {
    var a, b := Busy(Joined(blk, g, h)), Busy(blk);
    forall x
      ensures x in a && x != g <==> x in b && x != (if f == g then h else g)
      ensures x in a && x != g ==> a[x] == b[x]
    {
    }
  }

  lemma FinishKeeps(n: nat, blk: Blocks, h: nat)
    requires Tiles(n, blk) && Maximal(blk) && OnlyLoose(blk, h) && RightClear(blk, h) && LeftClear(blk, h)
    ensures var b := blk[h := Free(blk[h].pages)];
      && Maximal(b) && NoLoose(b) && Busy(b) == Busy(blk) - {h}
      && Sum(Unused, b, n) == Sum(Unused, blk, n) + blk[h].pages
  {
    var b := blk[h := Free(blk[h].pages)];
    FinishCounts(n, blk, h);
    forall x | x in b
      ensures Alone(b, x)
    {
      assert Alone(blk, x);
    }
  }

  lemma FinishCounts(n: nat, blk: Blocks, h: nat)
    requires Tiles(n, blk) && h in blk && blk[h].Loose?
    ensures var b := blk[h := Free(blk[h].pages)];
      Busy(b) == Busy(blk) - {h} && Sum(Unused, b, n) == Sum(Unused, blk, n) + blk[h].pages
  {
    var b := blk[h := Free(blk[h].pages)];
    assert h < n;
    hide Tiles, Sum;
    SumAtOne(Unused, blk, b, h, n);
    forall x
      ensures x in Busy(b) <==> x in Busy(blk) && x != h
    {
    }
  }

  // ----- lemmas about chunks -----

  ghost predicate NoEmpty(blk: Blocks) {
    forall h :: h in blk && blk[h].Chunks? ==> blk[h].used != {}
  }

  ghost predicate Counted(stats: seq<Stat>, blk: Blocks, n: nat) {
    && |stats| == SLOTS
    && forall s: nat {:trigger stats[s]} :: s < SLOTS ==>
        stats[s].used == Sum(UsedChunks(s), blk, n) && stats[s].total == Sum(AllChunks(s), blk, n)
  }

  lemma OpenFacts(n: nat, rec: seq<Record>, mem: seq<nat>, blk: Blocks, lists: Lists, page: nat, shift: nat)
    requires Sound(n, rec, mem, blk, lists) && Open(blk, page, shift)
    ensures IsShift(shift) && page < n < |rec| && MapIndex(page + 1, 0) <= |mem| && ChunksInRange(shift, blk[page].used)
    ensures ChunkMap(rec[page].slab, mem, page, shift, blk[page].used)
  {
    assert HeadOK(n, rec, mem, page, blk[page]);
    assert (page + 1) * PAGE_WORDS <= n * PAGE_WORDS;
  }

  lemma OpenPosition(blk: Blocks, lists: Lists, h: nat, shift: nat) returns (k: nat, i: nat)
    requires Filed(blk, lists) && Open(blk, h, shift) && IsShift(shift)
    ensures k == shift - 2 && k < |lists| && i < |lists[k]| && lists[k][i] == h
  {
    k := shift - 2;
    assert Place(blk, h) == k;
    assert FiledIn(blk, lists[k], k);
    i :| 0 <= i < |lists[k]| && lists[k][i] == h;
  }

  /** The word is not all ones, so the search stops at a free chunk, the lowest of the page. */
  lemma HoleInWord(mem: seq<nat>, h: nat, shift: nat, used: set<nat>, w: nat, i: nat)
    requires 3 <= shift < EXACT_SHIFT && MapIndex(h + 1, 0) <= |mem| && SmallMap(mem, h, shift, used)
    requires w < Capacity(shift) / WORD_BITS && MapIndex(h, w) < |mem| && mem[MapIndex(h, w)] != ALL_ONES
    requires i <= WORD_BITS && AllBits(mem[MapIndex(h, w)], 0, i) && (i < WORD_BITS ==> !Bit(mem[MapIndex(h, w)], i))
    requires forall v: nat :: v < w ==> MapIndex(h, v) < |mem| && mem[MapIndex(h, v)] == ALL_ONES
    ensures i < WORD_BITS && ChunkAt(w, i) !in used && Reserved(shift) <= ChunkAt(w, i) < Capacity(shift)
    ensures forall c: nat :: Reserved(shift) <= c < ChunkAt(w, i) ==> c in used
  {
    WordSize();
    assert SmallWord(mem[MapIndex(h, w)], w, shift, used);
    FullBits(mem[MapIndex(h, w)], WORD_BITS);
    assert !TakenAt(w, i, shift, used);
    forall c: nat | Reserved(shift) <= c < ChunkAt(w, i)
      ensures c in used
    {
      var v, b := c / WORD_BITS, c % WORD_BITS;
      assert c == ChunkAt(v, b);
      assert SmallWord(mem[MapIndex(h, v)], v, shift, used);
      FullBits(mem[MapIndex(h, v)], WORD_BITS);
      assert Bit(mem[MapIndex(h, v)], b);
    }
  }

  lemma ChunkMaximal(blk: Blocks, h: nat, b: Block)
    requires Maximal(blk) && h in blk && !blk[h].Free? && !b.Free?
    ensures Maximal(blk[h := b])
  {
    var c := blk[h := b];
    forall x | x in c
      ensures Alone(c, x)
    {
      assert Alone(blk, x);
    }
  }

  lemma HoleInExact(slab: nat, used: set<nat>, i: nat)
    requires ExactMap(slab, used) && !IsFull(EXACT_SHIFT, used)
    requires i <= WORD_BITS && AllBits(slab, 0, i) && (i < WORD_BITS ==> !Bit(slab, i))
    ensures i < WORD_BITS && i !in used && forall c: nat :: c < i ==> c in used
  {
    forall c: nat | c < i && c < WORD_BITS
      ensures c in used
    {
      assert Bit(slab, c);
    }
  }

  lemma HoleInBig(slab: nat, shift: nat, used: set<nat>, i: nat)
    requires EXACT_SHIFT < shift < 12 && BigMap(slab, shift, used) && !IsFull(shift, used)
    requires MAP_SHIFT <= i <= MAP_SHIFT + Capacity(shift)
    requires AllBits(slab, MAP_SHIFT, i) && (i < MAP_SHIFT + Capacity(shift) ==> !Bit(slab, i))
    ensures i < MAP_SHIFT + Capacity(shift) && i - MAP_SHIFT !in used
    ensures forall c: nat :: c < i - MAP_SHIFT ==> c in used
  {
    forall c: nat | c < i - MAP_SHIFT
      ensures c in used
    {
      assert Bit(slab, MAP_SHIFT + c);
    }
  }

  lemma RunFacts(n: nat, rec: seq<Record>, mem: seq<nat>, blk: Blocks, lists: Lists, page: nat, shift: nat)
    requires Sound(n, rec, mem, blk, lists) && page in blk && IsShift(shift)
    requires forall h :: h in blk ==> !Open(blk, h, shift)
    ensures page < n < |rec| && MapIndex(page + 1, 0) <= |mem| && lists[shift - 2] == []
  {
    assert (page + 1) * PAGE_WORDS <= n * PAGE_WORDS;
    assert FiledIn(blk, lists[shift - 2], shift - 2);
    if lists[shift - 2] != [] {
      var x := lists[shift - 2][0];
      assert x in lists[shift - 2];
      assert Place(blk, x) == shift - 2;
      assert Open(blk, x, shift);
    }
  }

  lemma FreshNotFull(shift: nat)
    requires IsShift(shift)
    ensures !IsFull(shift, {Reserved(shift)}) && ChunksInRange(shift, {Reserved(shift)})
  {
    var j, u := Reserved(shift) + 1, {Reserved(shift)};
    assert j < Capacity(shift) && j !in u;
  }

  lemma {:induction false} ShrStep(w: nat, k: nat)
    ensures Shr(w, k + 1) == Shr(w, k) / 2
  {
    if k > 0 {
      ShrStep(w / 2, k - 1);
    }
  }

  lemma {:induction false} ShrZero(w: nat, k: nat)
    ensures Shr(w, k) == 0 <==> w < Pow2(k)
  {
    if k > 0 {
      ShrZero(w / 2, k - 1);
    }
  }

  lemma ChunkIsPow(shift: nat)
    requires IsShift(shift)
    ensures ChunkSize(shift) == Pow2(shift)
  {
    assert Pow2(3) == 8 && Pow2(4) == 2 * Pow2(3) && Pow2(5) == 2 * Pow2(4) && Pow2(6) == 2 * Pow2(5);
    assert Pow2(7) == 2 * Pow2(6) && Pow2(8) == 2 * Pow2(7) && Pow2(9) == 2 * Pow2(8);
    assert Pow2(10) == 2 * Pow2(9) && Pow2(11) == 2 * Pow2(10);
  }

  lemma ClassOf(size: nat, shift: nat)
    requires 8 < size <= MAX_SIZE && shift > 0 && Pow2(shift - 1) <= size - 1 < Pow2(shift)
    ensures IsClass(size, shift)
  {
    assert Pow2(3) == 8 by { ChunkIsPow(3); }
    ChunkIsPow(11);
    if shift <= 3 {
      PowGrows(shift, 3);
    } else if shift >= 12 {
      PowGrows(11, shift - 1);
    } else {
      ChunkIsPow(shift);
      ChunkIsPow(shift - 1);
    }
  }

  // ----- counters -----

  lemma BusySum(m: Measure, blk: Blocks, n: nat)
    requires !m.Unused?
    ensures Sum(m, blk, n) == Sum(m, Busy(blk), n)
  {
    SumSame(m, blk, Busy(blk), n);
  }

  /** The chunk counters see live blocks only. */
  lemma CountOne(m: Measure, a: Blocks, b: Blocks, h: nat, n: nat)
    requires !m.Unused? && h < n && forall x: nat :: x != h ==> At(m, Busy(a), x) == At(m, Busy(b), x)
    ensures Sum(m, b, n) == Sum(m, a, n) - At(m, Busy(a), h) + At(m, Busy(b), h)
  {
    BusySum(m, a, n);
    BusySum(m, b, n);
    SumAtOne(m, Busy(a), Busy(b), h, n);
  }

  /** Page runs coming and going do not touch the counters. */
  lemma CountRun(n: nat, a: Blocks, b: Blocks, h: nat, stats: seq<Stat>)
    requires Counted(stats, a, n) && NoEmpty(a) && h < n
    requires Busy(b) == Busy(a) || (exists k :: Busy(b) == Busy(a)[h := Run(k)] && h !in Busy(a))
          || (Busy(b) == Busy(a) - {h} && h in a && a[h].Run?)
    ensures Counted(stats, b, n) && NoEmpty(b)
  {
    forall s: nat | s < SLOTS
      ensures stats[s].used == Sum(UsedChunks(s), b, n) && stats[s].total == Sum(AllChunks(s), b, n)
    {
      assert stats[s].used == Sum(UsedChunks(s), a, n);
      CountOne(UsedChunks(s), a, b, h, n);
      CountOne(AllChunks(s), a, b, h, n);
    }
    forall x | x in b && b[x].Chunks?
      ensures b[x].used != {}
    {
      assert x in Busy(b);
      assert x in Busy(a) && Busy(a)[x] == b[x];
    }
  }

  lemma CountOther(stats: seq<Stat>, st: seq<Stat>, slot: nat, blk: Blocks, n: nat)
    requires Counted(stats, blk, n) && slot < SLOTS
    requires exists r, f :: st == stats[slot := stats[slot].(reqs := r, fails := f)]
    ensures Counted(st, blk, n)
  {
    forall s: nat | s < SLOTS
      ensures st[s].used == stats[s].used && st[s].total == stats[s].total
    {
    }
  }

  /** One page of slot `shift - 3` goes from `u` to `v` chunks used, both on a page that stays cut up. */
  lemma CountChunks(n: nat, a: Blocks, b: Blocks, h: nat, shift: nat, v: set<nat>, stats: seq<Stat>, st: seq<Stat>)
    requires Counted(stats, a, n) && NoEmpty(a) && h < n && IsShift(shift) && v != {}
    requires h in a && a[h].Chunks? && a[h].shift == shift
    requires Busy(b) == Busy(a)[h := Chunks(shift, v)]
    requires stats[shift - 3].used + |v| >= |a[h].used|
    requires st == stats[shift - 3 := stats[shift - 3].(used := stats[shift - 3].used + |v| - |a[h].used|)]
    ensures Counted(st, b, n) && NoEmpty(b)
  {
    assert Busy(a)[h] == a[h];
    forall s: nat | s < SLOTS
      ensures st[s].used == Sum(UsedChunks(s), b, n) && st[s].total == Sum(AllChunks(s), b, n)
    {
      assert stats[s].used == Sum(UsedChunks(s), a, n);
      CountOne(UsedChunks(s), a, b, h, n);
      CountOne(AllChunks(s), a, b, h, n);
    }
    forall x | x in b && b[x].Chunks?
      ensures b[x].used != {}
    {
      assert x in Busy(b);
      assert x != h ==> x in Busy(a) && Busy(a)[x] == b[x];
    }
  }

  /** A page becomes a chunk page of slot `shift - 3`. */
  lemma CountCarved(n: nat, a: Blocks, b: Blocks, h: nat, shift: nat, j: nat, stats: seq<Stat>, st: seq<Stat>)
    requires Counted(stats, a, n) && NoEmpty(a) && h < n && IsShift(shift) && h !in Busy(a)
    requires Busy(b) == Busy(a)[h := Chunks(shift, {j})]
    requires var x := stats[shift - 3];
      st == stats[shift - 3 := x.(used := x.used + 1, total := x.total + (Capacity(shift) - Reserved(shift)))]
    ensures Counted(st, b, n) && NoEmpty(b)
  {
    forall s: nat | s < SLOTS
      ensures st[s].used == Sum(UsedChunks(s), b, n) && st[s].total == Sum(AllChunks(s), b, n)
    {
      assert stats[s].used == Sum(UsedChunks(s), a, n);
      CountOne(UsedChunks(s), a, b, h, n);
      CountOne(AllChunks(s), a, b, h, n);
    }
    forall x | x in b && b[x].Chunks?
      ensures b[x].used != {}
    {
      assert x in Busy(b);
      assert x != h ==> x in Busy(a) && Busy(a)[x] == b[x];
    }
  }

  // ----- one request -----

  /** slots[slot].next leads to a page with a free chunk, or back to the slot itself. */
  lemma SlotHead(n: nat, rec: seq<Record>, mem: seq<nat>, blk: Blocks, lists: Lists, shift: nat)
    requires Sound(n, rec, mem, blk, lists) && IsShift(shift)
    ensures var head := n + shift - 2; head < |rec| && 0 <= rec[head].next < |rec|
    ensures var page := rec[n + shift - 2].next;
      if rec[page].next != page then Open(blk, page, shift) && page < n
      else forall h :: h in blk ==> !Open(blk, h, shift)
  {
    var k := shift - 2;
    var s := lists[k];
    assert Linked(rec, n + k, s) && FiledIn(blk, s, k);
    FiledApart(n, blk, lists);
    if s == [] {
      forall h | h in blk
        ensures !Open(blk, h, shift)
      {
        assert h !in s;
        assert Place(blk, h) != k;
      }
    } else {
      assert LinkAt(rec, n + k, s, 0) && s[0] in s;
      assert Place(blk, s[0]) == k;
      assert HeadOK(n, rec, mem, s[0], blk[s[0]]);
    }
  }

  lemma OneClass(size: nat, shift: nat)
    requires IsClass(size, shift)
    ensures forall t :: IsClass(size, t) <==> t == shift
  {
  }

  lemma TakenStep(n: nat, a: Blocks, b: Blocks, size: nat, h: nat, shift: nat, j: nat)
    requires Taken(a, b, h, shift, j) && size <= MAX_SIZE && IsClass(size, shift)
    ensures AllocStep(a, b, size, h * PAGE_SIZE + j * ChunkSize(shift), h, j)
    ensures Busy(b) == Busy(a)[h := Chunks(shift, a[h].used + {j})]
    ensures !NoRoom(a, size) && (NoLoose(a) ==> NoLoose(b))
    ensures h in a && a[h].Chunks? && a[h].shift == shift && j !in a[h].used
  {
    assert h in Busy(a) && Busy(a)[h] == a[h];
    assert ChunkStep(a, b, h * PAGE_SIZE + j * ChunkSize(shift), h, shift, j);
  }

  lemma CarvedStep(n: nat, a: Blocks, c: Blocks, b: Blocks, size: nat, h: nat, shift: nat, j: nat)
    requires size <= MAX_SIZE && IsClass(size, shift) && h !in Busy(a) && Busy(c) == Busy(a)[h := Run(1)]
    requires h in c && b == c[h := Chunks(shift, {j})] && j == Reserved(shift)
    requires forall x :: x in a ==> !Open(a, x, shift)
    ensures AllocStep(a, b, size, h * PAGE_SIZE + j * ChunkSize(shift), h, j)
    ensures Busy(b) == Busy(a)[h := Chunks(shift, {j})]
    ensures NoLoose(a) ==> NoLoose(b)
  {
    assert NoLoose(a) ==> NoLoose(b) by {
      LiveNoLoose(a, c, h);
    }
    assert Busy(b) == Busy(c)[h := Chunks(shift, {j})];
    assert UsedIn(Busy(a), h) + {j} == {j};
    assert ChunkStep(a, b, h * PAGE_SIZE + j * ChunkSize(shift), h, shift, j);
  }

  lemma LiveNoLoose(a: Blocks, c: Blocks, h: nat)
    requires Busy(c) == Busy(a)[h := Run(1)]
    ensures NoLoose(a) ==> NoLoose(c)
  {
    forall x | x in c && c[x].Loose?
      ensures x in a && a[x].Loose?
    {
      assert x in Busy(c) && x != h;
      assert Busy(a)[x] == c[x];
    }
  }

  lemma StillNotOpen(a: Blocks, c: Blocks, h: nat, shift: nat)
    requires Busy(c) == Busy(a)[h := Run(1)] && forall x :: x in a ==> !Open(a, x, shift)
    ensures forall x :: x in c ==> !Open(c, x, shift)
  {
    forall x | x in c
      ensures !Open(c, x, shift)
    {
      if c[x].Chunks? {
        assert x in Busy(c) && x != h;
        assert Busy(a)[x] == c[x];
      }
    }
  }

  // ----- freeing by address -----

  // What the record of page `page`, which lies in block `h`, says.
  ghost predicate PageFacts(r: Record, b: Block, h: nat, page: nat) {
    && (r.kind != PAGE <==> b.Chunks?)
    && (b.Chunks? ==> h == page && IsShift(b.shift) && r.kind == KindOf(b.shift)
                      && (r.kind != EXACT ==> Low(r.slab, 4) == b.shift))
    && (r.kind == PAGE ==> (r.slab >= PAGE_START && r.slab != PAGE_BUSY <==> b.Run? && h == page))
    && (b.Run? && h == page ==> r.slab == PAGE_START + b.pages)
  }

  lemma WhatIsThere(n: nat, rec: seq<Record>, mem: seq<nat>, blk: Blocks, lists: Lists, h: nat, page: nat)
    requires Sound(n, rec, mem, blk, lists) && NoLoose(blk) && Covers(blk, h, page)
    ensures page < n < |rec| && PageFacts(rec[page], blk[h], h, page) && Ranged(blk)
  {
    AllRanged(n, rec, mem, blk);
    assert HeadOK(n, rec, mem, h, blk[h]);
    if h < page {
      assert InnerOK(n, rec, h, blk[h], page);
    }
    if blk[h].Chunks? {
      var shift := blk[h].shift;
      if KindOf(shift) == SMALL {
        assert Pow2(4) == 16;
        LowFits(shift, 4);
      } else if KindOf(shift) == BIG {
        BigShift(rec[h].slab, shift, blk[h].used);
      }
    }
  }

  ghost predicate Ranged(blk: Blocks) {
    forall h :: h in blk && blk[h].Chunks? ==> IsShift(blk[h].shift) && ChunksInRange(blk[h].shift, blk[h].used)
  }

  lemma AllRanged(n: nat, rec: seq<Record>, mem: seq<nat>, blk: Blocks)
    requires Sized(n, rec, mem) && Tiles(n, blk) && Encoded(n, rec, mem, blk)
    ensures Ranged(blk)
  {
    forall h | h in blk && blk[h].Chunks?
      ensures IsShift(blk[h].shift) && ChunksInRange(blk[h].shift, blk[h].used)
    {
      assert HeadOK(n, rec, mem, h, blk[h]);
    }
  }

  lemma ChunkFacts(n: nat, rec: seq<Record>, mem: seq<nat>, blk: Blocks, lists: Lists, page: nat)
    requires Sound(n, rec, mem, blk, lists) && page in blk && blk[page].Chunks?
    ensures page < n < |rec| && MapIndex(page + 1, 0) <= |mem|
    ensures var b := blk[page];
      && IsShift(b.shift) && ChunksInRange(b.shift, b.used) && ChunkMap(rec[page].slab, mem, page, b.shift, b.used)
      && (IsFull(b.shift, b.used) <==> rec[page].next == NULL)
  {
    var b := blk[page];
    assert HeadOK(n, rec, mem, page, b);
    assert (page + 1) * PAGE_WORDS <= n * PAGE_WORDS;
    if !IsFull(b.shift, b.used) {
      assert FiledIn(blk, lists[b.shift - 2], b.shift - 2) && Place(blk, page) == b.shift - 2;
      NoNull(n, rec, lists, b.shift - 2);
    }
  }

  lemma ChunkFits(shift: nat, j: nat)
    requires IsShift(shift)
    ensures j < Capacity(shift) <==> j * ChunkSize(shift) < PAGE_SIZE
    ensures j < Capacity(shift) <==> j * ChunkSize(shift) + ChunkSize(shift) <= PAGE_SIZE
  {
  }

  lemma ChunkNumber(shift: nat, offset: nat, c: nat)
    requires IsShift(shift) && offset < PAGE_SIZE && offset % ChunkSize(shift) == 0 && c == offset / ChunkSize(shift)
    ensures offset == c * ChunkSize(shift) && c < Capacity(shift)
  {
    ChunkFits(shift, c);
  }

  lemma NoChunkThere(shift: nat, offset: nat, used: set<nat>)
    requires IsShift(shift) && offset % ChunkSize(shift) != 0
    ensures forall j :: j in used ==> offset != j * ChunkSize(shift)
  {
    forall j | j in used
      ensures offset != j * ChunkSize(shift)
    {
      MultipleMod(shift, j);
    }
  }

  lemma MultipleMod(shift: nat, j: nat)
    requires IsShift(shift)
    ensures (j * ChunkSize(shift)) % ChunkSize(shift) == 0 && (j * ChunkSize(shift)) / ChunkSize(shift) == j
  {
  }

  /** The bit that free tests is set for the chunks in use and for those of the bitmap. */
  lemma BitTells(n: nat, rec: seq<Record>, mem: seq<nat>, blk: Blocks, page: nat, shift: nat, c: nat)
    requires page in blk && blk[page].Chunks? && blk[page].shift == shift && IsShift(shift) && c < Capacity(shift)
    requires page < |rec| && MapIndex(page + 1, 0) <= |mem|
    requires ChunkMap(rec[page].slab, mem, page, shift, blk[page].used)
    requires ChunksInRange(shift, blk[page].used)
    ensures shift < EXACT_SHIFT ==>
      c / WORD_BITS < PAGE_WORDS && (Bit(mem[MapIndex(page, c / WORD_BITS)], c % WORD_BITS) <==>
        c < Reserved(shift) || c in blk[page].used)
    ensures shift == EXACT_SHIFT ==> (Bit(rec[page].slab, c) <==> c in blk[page].used)
    ensures shift > EXACT_SHIFT ==> (Bit(rec[page].slab, MAP_SHIFT + c) <==> c in blk[page].used)
  {
    if shift < EXACT_SHIFT {
      var w, i := c / WORD_BITS, c % WORD_BITS;
      assert c == ChunkAt(w, i) && w < Capacity(shift) / WORD_BITS;
      assert SmallWord(mem[MapIndex(page, w)], w, shift, blk[page].used);
      assert TakenAt(w, i, shift, blk[page].used) <==> c < Reserved(shift) || c in blk[page].used;
    }
  }

  /** An address is one of a bitmap's own chunks exactly when the page is a page of small chunks, and the
      offset is that of one of its first chunks. */
  lemma BitmapHere(n: nat, blk: Blocks, p: int, h: nat, page: nat, offset: nat)
    requires Tiles(n, blk) && Ranged(blk) && Covers(blk, h, page) && p == page * PAGE_SIZE + offset
    requires offset < PAGE_SIZE
    ensures InBitmap(blk, p) <==>
      blk[h].Chunks? && exists j: nat :: j < Reserved(blk[h].shift) && offset == j * ChunkSize(blk[h].shift)
  {
    if InBitmap(blk, p) {
      var x: nat, j: nat :| BitmapChunk(blk, p, x, j);
      ChunkFits(blk[x].shift, j);
      assert x == page && Covers(blk, x, page);
    }
    if blk[h].Chunks? && exists j: nat :: j < Reserved(blk[h].shift) && offset == j * ChunkSize(blk[h].shift) {
      var j: nat :| j < Reserved(blk[h].shift) && offset == j * ChunkSize(blk[h].shift);
      assert BitmapChunk(blk, p, h, j);
    }
  }

  lemma BitmapIsInside(n: nat, blk: Blocks, p: int)
    requires Tiles(n, blk) && Ranged(blk)
    ensures InBitmap(blk, p) ==> 0 <= p < n * PAGE_SIZE
  {
    if InBitmap(blk, p) {
      var x: nat, j: nat :| BitmapChunk(blk, p, x, j);
      ChunkFits(blk[x].shift, j);
      assert Covers(blk, x, x);
    }
  }

  lemma NoBitmapThere(shift: nat, offset: nat)
    requires IsShift(shift) && offset % ChunkSize(shift) != 0
    ensures forall j: nat :: offset != j * ChunkSize(shift)
  {
    forall j: nat
      ensures offset != j * ChunkSize(shift)
    {
      MultipleMod(shift, j);
    }
  }

  lemma OneChunk(shift: nat, offset: nat, c: nat)
    requires IsShift(shift) && offset == c * ChunkSize(shift)
    ensures forall j: nat :: offset == j * ChunkSize(shift) <==> j == c
  {
  }

  lemma KindOfPage(n: nat, rec: seq<Record>, mem: seq<nat>, blk: Blocks, lists: Lists, page: nat)
    requires Sound(n, rec, mem, blk, lists) && page in blk && blk[page].Chunks?
    ensures page < n < |rec| && rec[page].kind == KindOf(blk[page].shift)
  {
    assert HeadOK(n, rec, mem, page, blk[page]);
  }

  /** These records and bitmaps are those of no pool: no block map and no lists fit them. */
  ghost predicate Broken(n: nat, rec: seq<Record>, mem: seq<nat>) {
    forall b, l :: NoLoose(b) ==> !Sound(n, rec, mem, b, l)
  }

  /** A bitmap without the bit of one of its own chunks. */
  lemma BitmapBroken(n: nat, rec: seq<Record>, mem: seq<nat>, page: nat, shift: nat, j: nat)
    requires page < n && page < |rec| && rec[page].kind == SMALL && rec[page].slab == shift && j < Reserved(shift)
    requires MapIndex(page, 0) < |mem| && !Bit(mem[MapIndex(page, 0)], j)
    ensures Broken(n, rec, mem)
  {
    forall b, l | NoLoose(b) && Sound(n, rec, mem, b, l)
      ensures false
    {
      SoundBitmap(n, rec, mem, b, l, page, j);
    }
  }

  lemma SoundBitmap(n: nat, rec: seq<Record>, mem: seq<nat>, blk: Blocks, lists: Lists, page: nat, j: nat)
    requires Sound(n, rec, mem, blk, lists) && NoLoose(blk) && page < n && rec[page].kind == SMALL
    requires j < Reserved(rec[page].slab)
    ensures Bit(mem[MapIndex(page, 0)], j)
  {
    var h := BlockOf(n, blk, page);
    WhatIsThere(n, rec, mem, blk, lists, h, page);
    ChunkFacts(n, rec, mem, blk, lists, page);
    var b := blk[page];
    assert SmallWord(mem[MapIndex(page, 0)], 0, b.shift, b.used);
    assert TakenAt(0, j, b.shift, b.used);
  }

  /** An address is live exactly when it is the start of the run, or of a used chunk, of its page. */
  lemma LiveHere(n: nat, blk: Blocks, p: int, h: nat, page: nat, offset: nat)
    requires Tiles(n, blk) && Ranged(blk) && Covers(blk, h, page) && p == page * PAGE_SIZE + offset
    requires offset < PAGE_SIZE
    ensures IsLive(blk, p) <==>
      || (blk[h].Run? && h == page && offset == 0)
      || (blk[h].Chunks? && exists j :: j in blk[h].used && offset == j * ChunkSize(blk[h].shift))
  {
    if IsLive(blk, p) {
      var size: nat :| Live(blk, p, size);
      var x: nat, j: nat :| LiveAt(blk, p, size, x, j);
      if blk[x].Chunks? {
        ChunkFits(blk[x].shift, j);
      }
      assert x == page && Covers(blk, x, page);
    }
    if blk[h].Run? && h == page && offset == 0 {
      assert LiveAt(blk, p, blk[h].pages * PAGE_SIZE, h, 0);
      assert Live(blk, p, blk[h].pages * PAGE_SIZE);
    }
    if blk[h].Chunks? && exists j :: j in blk[h].used && offset == j * ChunkSize(blk[h].shift) {
      var j :| j in blk[h].used && offset == j * ChunkSize(blk[h].shift);
      assert LiveAt(blk, p, ChunkSize(blk[h].shift), h, j);
      assert Live(blk, p, ChunkSize(blk[h].shift));
    }
  }

  lemma LiveInside(n: nat, blk: Blocks, p: int, size: nat, h: nat, j: nat)
    requires Tiles(n, blk) && Ranged(blk) && LiveAt(blk, p, size, h, j)
    ensures h * PAGE_SIZE <= p && p + size <= (h + blk[h].Len()) * PAGE_SIZE <= n * PAGE_SIZE && size > 0
    ensures blk[h].Chunks? ==> p >= h * PAGE_SIZE + Reserved(blk[h].shift) * ChunkSize(blk[h].shift)
  {
    if blk[h].Chunks? {
      ChunkFits(blk[h].shift, j);
    }
  }

  lemma LiveIsInside(n: nat, blk: Blocks, p: int)
    requires Tiles(n, blk) && Ranged(blk)
    ensures IsLive(blk, p) ==> 0 <= p < n * PAGE_SIZE
  {
    if IsLive(blk, p) {
      var size: nat :| Live(blk, p, size);
      var x: nat, j: nat :| LiveAt(blk, p, size, x, j);
      LiveInside(n, blk, p, size, x, j);
    }
  }

  lemma NotFullNow(shift: nat, used: set<nat>, u: set<nat>)
    requires IsShift(shift) && ChunksInRange(shift, used) && exists c :: c in used && u == used - {c}
    ensures !IsFull(shift, u) && ChunksInRange(shift, u)
  {
    var c :| c in used && u == used - {c};
    assert c !in u;
  }

  lemma UsedIsCounted(n: nat, a: Blocks, h: nat, shift: nat, c: nat, stats: seq<Stat>)
    requires Counted(stats, a, n) && IsShift(shift) && h < n && h in a && a[h].Chunks? && a[h].shift == shift
    requires c in a[h].used
    ensures stats[shift - 3].used >= |a[h].used| >= 1
    ensures stats[shift - 3].total >= Capacity(shift) - Reserved(shift)
  {
    SumHas(UsedChunks(shift - 3), a, h, n);
    SumHas(AllChunks(shift - 3), a, h, n);
    assert |a[h].used| == |a[h].used - {c}| + 1;
  }

  lemma {:induction false} SumHas(m: Measure, blk: Blocks, h: nat, n: nat)
    requires h < n
    ensures Sum(m, blk, n) >= At(m, blk, h)
  {
    if h < n - 1 {
      SumHas(m, blk, h, n - 1);
    }
  }

  lemma ReleaseFacts(a: Blocks, b: Blocks, h: nat, shift: nat, c: nat)
    requires h in a && a[h].Chunks? && a[h].shift == shift && c in a[h].used && NoLoose(a)
    requires b == a[h := Chunks(shift, a[h].used - {c})]
    ensures NoLoose(b) && Busy(b) == Busy(a)[h := Chunks(shift, a[h].used - {c})]
    ensures a[h].used - {c} == {} <==> a[h].used == {c}
    ensures Busy(b) - {h} == Busy(a) - {h}
  {
  }

  lemma CountReleased(n: nat, a: Blocks, b: Blocks, h: nat, shift: nat, c: nat, stats: seq<Stat>, st: seq<Stat>)
    requires Counted(stats, a, n) && NoEmpty(a) && h < n && IsShift(shift)
    requires h in a && a[h].Chunks? && a[h].shift == shift && c in a[h].used && ChunkGone(a, b, h, c)
    requires stats[shift - 3].used >= |a[h].used| >= 1 && stats[shift - 3].total >= Capacity(shift) - Reserved(shift)
    requires var x, empty := stats[shift - 3], a[h].used == {c};
      st == stats[shift - 3 := x.(used := x.used - 1,
                                  total := x.total - if empty then Capacity(shift) - Reserved(shift) else 0)]
    ensures Counted(st, b, n) && NoEmpty(b)
  {
    assert Busy(a)[h] == a[h];
    assert |a[h].used - {c}| == |a[h].used| - 1;
    assert a[h].used - {c} == {} <==> a[h].used == {c};
    forall s: nat | s < SLOTS
      ensures st[s].used == Sum(UsedChunks(s), b, n) && st[s].total == Sum(AllChunks(s), b, n)
    {
      assert stats[s].used == Sum(UsedChunks(s), a, n);
      CountOne(UsedChunks(s), a, b, h, n);
      CountOne(AllChunks(s), a, b, h, n);
    }
    forall x | x in b && b[x].Chunks?
      ensures b[x].used != {}
    {
      assert x in Busy(b);
      assert x != h ==> x in Busy(a) && Busy(a)[x] == b[x];
    }
  }

  // ----- stores by the owner of a block -----

  lemma StoreInside(n: nat, rec: seq<Record>, mem: seq<nat>, blk: Blocks, lists: Lists, q: nat, word: nat,
                    addr: int, size: nat)
    requires Sound(n, rec, mem, blk, lists) && Live(blk, addr, size) && addr <= q * 8 < addr + size
    ensures q < |mem| && Sound(n, rec, mem[q := word], blk, lists)
  {
    var h: nat, j: nat :| LiveAt(blk, addr, size, h, j);
    AllRanged(n, rec, mem, blk);
    LiveInside(n, blk, addr, size, h, j);
    assert h * PAGE_WORDS <= q < (h + blk[h].Len()) * PAGE_WORDS <= n * PAGE_WORDS;
    var m := mem[q := word];
    forall x | x in blk
      ensures BlockOK(n, rec, m, x, blk[x])
    {
      EncodedAt(n, rec, mem, blk, x);
      if blk[x].Chunks? && KindOf(blk[x].shift) == SMALL {
        StoreAvoids(n, blk, h, x, q);
        StoreKeepsMap(n, mem, m, x, blk[x].shift, blk[x].used, q);
      }
    }
  }

  lemma StoreKeepsMap(n: nat, mem: seq<nat>, m: seq<nat>, x: nat, shift: nat, used: set<nat>, q: nat)
    requires IsShift(shift) && shift < EXACT_SHIFT && |mem| == |m| && MapIndex(x + 1, 0) <= |mem|
    requires forall p :: 0 <= p < |mem| && p != q ==> m[p] == mem[p]
    requires SmallMap(mem, x, shift, used)
    requires q < MapIndex(x, 0) || q >= MapIndex(x, Capacity(shift) / WORD_BITS)
    ensures SmallMap(m, x, shift, used)
  {
    forall w: nat | w < Capacity(shift) / WORD_BITS
      ensures w < PAGE_WORDS && SmallWord(m[MapIndex(x, w)], w, shift, used)
    {
      assert SmallWord(mem[MapIndex(x, w)], w, shift, used);
    }
  }

  // A store inside block `h` is outside every other page, and above the bitmap of its own.
  lemma StoreAvoids(n: nat, blk: Blocks, h: nat, x: nat, q: nat)
    requires Tiles(n, blk) && Ranged(blk) && h in blk && x in blk && blk[x].Chunks? && blk[x].shift < EXACT_SHIFT
    requires h * PAGE_WORDS <= q < (h + blk[h].Len()) * PAGE_WORDS
    requires h == x ==> q * 8 >= h * PAGE_SIZE + Reserved(blk[x].shift) * ChunkSize(blk[x].shift)
    ensures q < MapIndex(x, 0) || q >= MapIndex(x, Capacity(blk[x].shift) / WORD_BITS)
  {
    AboveBitmap(blk[x].shift);
    if h < x {
      assert (h + blk[h].Len()) * PAGE_WORDS <= x * PAGE_WORDS;
    } else if h > x {
      assert (x + 1) * PAGE_WORDS <= h * PAGE_WORDS;
    }
  }

  /** The bitmap fits in the chunks reserved for it. */
  lemma AboveBitmap(shift: nat)
    requires IsShift(shift) && shift < EXACT_SHIFT
    ensures 8 * (Capacity(shift) / WORD_BITS) <= Reserved(shift) * ChunkSize(shift)
  {
  }

  // ----- a fresh pool -----

  lemma FreshPool(n: nat, rec: seq<Record>, mem: seq<nat>, lists: Lists)
    requires Sized(n, rec, mem)
    requires forall q :: 0 <= q < |rec| ==>
      rec[q] == if q == 0 then Record(n, n, n, PAGE)
                else if q == n then ZERO.(next := 0) else if n < q then ZERO.(next := q) else ZERO
    requires |lists| == 1 + SLOTS && lists[0] == [0] && forall k :: 0 < k < |lists| ==> lists[k] == []
    ensures var blk := map[0 := Free(n)];
      Sound(n, rec, mem, blk, lists) && Maximal(blk) && NoLoose(blk) && NoEmpty(blk) && Sum(Unused, blk, n) == n
  {
    var blk := map[0 := Free(n)];
    assert Follows(n, blk, 0);
    forall k: nat | k < |lists|
      ensures FiledIn(blk, lists[k], k) && Linked(rec, n + k, lists[k])
    {
      if k == 0 {
        assert LinkAt(rec, n, [0], 0);
      }
    }
    OneRunSum(n, n);
  }

  lemma {:induction false} OneRunSum(n: nat, k: nat)
    requires k <= n
    ensures Sum(Unused, map[0 := Free(n)], k) == if k == 0 then 0 else n
  {
    if k > 0 {
      OneRunSum(n, k - 1);
    }
  }

  lemma FreshCounts(n: nat, stats: seq<Stat>)
    requires |stats| == SLOTS && forall s :: 0 <= s < SLOTS ==> stats[s] == Stat(0, 0, 0, 0)
    ensures Counted(stats, map[0 := Free(n)], n)
  {
    forall s: nat | s < SLOTS
      ensures Sum(UsedChunks(s), map[0 := Free(n)], n) == 0 && Sum(AllChunks(s), map[0 := Free(n)], n) == 0
    {
      NoChunksSum(UsedChunks(s), map[0 := Free(n)], n);
      NoChunksSum(AllChunks(s), map[0 := Free(n)], n);
    }
  }

  lemma {:induction false} NoChunksSum(m: Measure, blk: Blocks, n: nat)
    requires !m.Unused? && forall h :: h in blk ==> blk[h].Free?
    ensures Sum(m, blk, n) == 0
  {
    if n > 0 {
      NoChunksSum(m, blk, n - 1);
    }
  }
}
