/** The shared-memory slab allocator: the page layer and the chunk layer of one pool. */
module Slab {
  import opened Common
  import opened Words
  import opened SlabBlocks
  import opened SlabRecords
  import opened SlabMoves
  import opened SlabChunks
  import opened SlabSpec
  import opened SlabFacts
  import opened SlabLive

  class Pool {
    const n: nat                   // pool->last - pool->pages
    const rec: array<Record>       // the page records, &pool->free, the slots
    const mem: array<nat>          // the pages themselves, word by word
    const stats: array<Stat>       // one per slot
    const end: nat                 // pool->end, as every address counted from pool->start
    var pfree: nat

    ghost var blk: Blocks          // what the records mean
    ghost var lists: Lists         // the order of the free list and of each slot list

    ghost predicate PagesValid()
      reads this, rec, mem
    {
      && Sound(n, rec[..], mem[..], blk, lists)
      && Maximal(blk)
      && pfree == Sum(Unused, blk, n)
    }

    // prev = page_prev(page); prev->next = page->next; page->next->prev = page->prev;
    method UnlinkCell(x: nat)
      requires x < rec.Length && 0 <= rec[x].prev < rec.Length && 0 <= rec[x].next < rec.Length
      modifies rec
      ensures rec[..] == Unlinked(old(rec[..]), x)
    {
      var p, e, kind := rec[x].prev, rec[x].next, rec[x].kind;
      rec[p] := rec[p].(next := e);
      rec[e] := rec[e].(prev := p, kind := kind);
    }

    // page->prev = head | kind; page->next = head->next; page->next->prev = page | kind; head->next = page;
    method PushCell(head: nat, x: nat, kind: Kind)
      requires x < rec.Length && head < rec.Length && 0 <= rec[head].next < rec.Length
      modifies rec
      ensures rec[..] == Pushed(old(rec[..]), head, x, kind)
    {
      var first := rec[head].next;
      rec[x] := rec[x].(next := first, prev := head, kind := kind);
      rec[first] := rec[first].(prev := x, kind := kind);
      rec[head] := rec[head].(next := x);
    }

    /** First fit over the free list. NULL exactly when no free run is long enough; otherwise the
        first `pages` pages of the first long enough run become a live run and nothing else changes. */
    method AllocPages(pages: nat) returns (page: int)
      requires PagesValid() && pages > 0
      modifies this, rec
      ensures PagesValid()
      ensures page == NULL ==> blk == old(blk) && lists == old(lists) && rec[..] == old(rec[..])
      ensures page == NULL <==> forall h :: h in old(blk) && old(blk)[h].Free? ==> old(blk)[h].pages < pages
      ensures page != NULL ==>
        && 0 <= page < n && page in old(blk) && old(blk)[page].Free? && old(blk)[page].pages >= pages
        && Busy(blk) == Busy(old(blk))[page := Run(pages)] && blk == SplitAt(old(blk), page, pages)
        && (exists i ::
              0 <= i < |old(lists)[0]| && FirstFit(old(blk), old(lists)[0], i, pages) && old(lists)[0][i] == page)
      ensures lists[1..] == old(lists)[1..]
    {
      ghost var i, r0 := 0, rec[..];
      assert Linked(r0, n + 0, lists[0]);
      page := rec[n].next;
      while page != n
        invariant PagesValid() && rec[..] == r0 && blk == old(blk) && lists == old(lists)
        invariant 0 <= i <= |lists[0]| && page == if i < |lists[0]| then lists[0][i] else n
        invariant forall j :: 0 <= j < i ==> Short(blk, lists[0][j], pages)
        decreases |lists[0]| - i
      {
        OnFreeList(n, r0, mem[..], blk, lists, i);
        if rec[page].slab >= pages {
          assert FirstFit(blk, lists[0], i, pages);
          SplitOffPages(page, pages, i);
          return;
        }
        assert Short(blk, lists[0][i], pages);
        page := rec[page].next;
        i := i + 1;
      }
      EndOfList(n, blk, lists, i);
      NoneLeft(blk, lists, pages);
      page := NULL;
    }

    method SplitOffPages(page: nat, pages: nat, ghost i: nat)
      requires PagesValid() && pages > 0 && i < |lists[0]| && lists[0][i] == page
      requires page in blk && blk[page].Free? && blk[page].pages >= pages && rec[page].slab == blk[page].pages
      requires page + blk[page].pages <= n
      requires 0 <= rec[page].prev < rec.Length && 0 <= rec[page].next < rec.Length
      requires rec[page].prev != page && rec[page].next != page
      modifies this, rec
      ensures PagesValid() && blk == SplitAt(old(blk), page, pages)
      ensures Busy(blk) == Busy(old(blk))[page := Run(pages)]
      ensures lists[1..] == old(lists)[1..]
    {
      hide Encoded, AllLinked, Filed, Granted;
      ghost var r0 := rec[..];
      var size := rec[page].slab;
      CutRun(page, size, pages);
      MarkBusy(page, pages);
      AllocSum(n, blk, page, pages);
      pfree := pfree - pages;
      SplitOff(n, r0, mem[..], blk, lists, i, pages, rec[..]);
      SplitMaximal(n, blk, page, pages);
      SplitBusy(n, blk, page, pages);
      lists := lists[0 := CutList(lists[0], i, blk[page].pages, pages)];
      blk := SplitAt(blk, page, pages);
    }

    // The first half of the hit branch: the run leaves the free list, or its rest takes its place.
    method CutRun(page: nat, size: nat, pages: nat)
      requires 0 < pages <= size && page + size <= n < rec.Length
      requires 0 <= rec[page].prev < rec.Length && 0 <= rec[page].next < rec.Length
      requires rec[page].prev != page && rec[page].next != page
      modifies rec
      ensures rec[..] == Cut(old(rec[..]), page, size, pages)
    {
      if size > pages {
        var tail := page + size - 1;
        rec[tail] := rec[tail].(prev := page + pages, kind := PAGE);
        rec[page + pages] := rec[page].(slab := size - pages);
        var p := rec[page].prev;
        rec[p] := rec[p].(next := page + pages);
        var e := rec[page].next;
        rec[e] := rec[e].(prev := page + pages, kind := PAGE);
      } else {
        UnlinkCell(page);
      }
    }

    // The second half: page->slab = pages | START, and BUSY in the pages after it.
    method MarkBusy(page: nat, pages: nat)
      requires 0 < pages && page + pages <= n < rec.Length
      modifies rec
      ensures Granted(old(rec[..]), rec[..], page, pages)
    {
      rec[page] := Record(PAGE_START + pages, NULL, NULL, PAGE);
      var p := page + 1;
      while p < page + pages
        invariant page < p <= page + pages
        invariant forall q :: 0 <= q < rec.Length ==>
          rec[q] == if q == page then Record(PAGE_START + pages, NULL, NULL, PAGE)
                    else if page < q < p then Record(PAGE_BUSY, NULL, NULL, PAGE)
                    else old(rec[q])
      {
        rec[p] := Record(PAGE_BUSY, NULL, NULL, PAGE);
        p := p + 1;
      }
    }

    /** The run or the emptied chunk page `page` goes back: it is merged with the free runs on
        both sides, so the free runs stay maximal, and only the live block `page` disappears. */
    method FreePages(page: nat, pages: nat)
      requires PagesValid() && NoLoose(blk) && page in blk && blk[page].Len() == pages
      requires blk[page].Run? || (blk[page].Chunks? && blk[page].used == {})
      modifies this, rec
      ensures PagesValid() && NoLoose(blk)
      ensures Busy(blk) == Busy(old(blk)) - {page}
    {
      hide Sound, Maximal, RightClear, LeftClear;
      Detach(page, pages);
      var left := JoinRight(page, pages - 1);
      var head;
      head, left := JoinLeft(page, left);
      PutBack(head, left);
    }

    // Between the steps of FreePages: block `h` is the only loose one, and already counted.
    ghost predicate Merging(h: nat)
      reads this, rec, mem
    {
      Merged(n, rec[..], mem[..], blk, lists, pfree, h)
    }

    method Detach(page: nat, pages: nat)
      requires PagesValid() && NoLoose(blk) && page in blk && blk[page].Len() == pages
      requires blk[page].Run? || (blk[page].Chunks? && blk[page].used == {})
      modifies this, rec
      ensures pages > 0 && Merging(page) && blk == old(blk)[page := Loose(pages)]
    {
      ghost var r0 := rec[..];
      DetachFacts(n, r0, mem[..], blk, lists, page);
      pfree := pfree + pages;
      rec[page] := rec[page].(slab := pages);
      ZeroRecords(page + 1, page + pages);
      ghost var b := blk[page := Loose(pages)];
      if rec[page].next != NULL {
        ghost var k, i := Position(n, r0, mem[..], blk, lists, page);
        DetachChunks(n, r0, mem[..], blk, lists, page, k, i);
        assert rec[..] == r0[page := r0[page].(slab := 1)];
        UnlinkCell(page);
        lists := lists[k := Without(lists[k], i)];
      } else {
        DetachRun(n, r0, mem[..], blk, lists, page, rec[..]);
      }
      LooseKeeps(n, blk, page);
      blk := b;
    }

    method ZeroRecords(from: nat, to: nat)
      requires from <= to <= rec.Length
      modifies rec
      ensures forall q :: 0 <= q < rec.Length ==> rec[q] == if from <= q < to then ZERO else old(rec[q])
    {
      var p := from;
      while p < to
        invariant from <= p <= to
        invariant forall q :: 0 <= q < rec.Length ==> rec[q] == if from <= q < p then ZERO else old(rec[q])
      {
        rec[p] := ZERO;
        p := p + 1;
      }
    }

    // join = page + page->slab
    method JoinRight(page: nat, left: nat) returns (left': nat)
      requires Merging(page) && left + 1 == blk[page].pages
      modifies this, rec
      ensures Merging(page) && left' + 1 == blk[page].pages
      ensures RightClear(blk, page)
      ensures Busy(blk) - {page} == Busy(old(blk)) - {page}
    {
      left' := left;
      RightFacts(n, rec[..], mem[..], blk, lists, page);
      var join := page + rec[page].slab;
      if join < n {
        if rec[join].kind == PAGE {
          if rec[join].next != NULL {
            ghost var i := FreePosition(blk, lists, join);
            left' := AbsorbInto(page, join, join, left, i);
            return;
          }
        }
      }
    }

    // join = page - 1, or the head its back-pointer names
    method JoinLeft(page: nat, left: nat) returns (head: nat, left': nat)
      requires Merging(page) && left + 1 == blk[page].pages && RightClear(blk, page)
      modifies this, rec
      ensures Merging(head) && left' + 1 == blk[head].pages
      ensures RightClear(blk, head) && LeftClear(blk, head)
      ensures Busy(blk) - {head} == Busy(old(blk)) - {page}
    {
      head, left' := page, left;
      if page > 0 {
        ghost var g := LeftFacts(n, rec[..], mem[..], blk, lists, page);
        var join: int := page - 1;
        if rec[join].kind == PAGE {
          if rec[join].slab == 0 {
            join := rec[join].prev;
          }
          if rec[join].next != NULL {
            ghost var i := FreePosition(blk, lists, join);
            left' := AbsorbInto(join, page, join, left, i);
            head := join;
            return;
          }
        }
        NoLeftNeighbour(n, blk, page, g);
      } else {
        NoLeft(n, blk);
      }
    }

    // The merge itself, on either side: `f` is the free one of the neighbours `g` and `h`.
    method AbsorbInto(g: nat, h: nat, f: nat, left: nat, ghost i: nat) returns (left': nat)
      requires g in blk && h in blk && g + blk[g].Len() == h && (f == g || f == h)
      requires Merging(if f == g then h else g) && blk[f].Free?
      requires blk[if f == g then h else g].Loose? && left + 1 == blk[if f == g then h else g].pages
      requires f == g ==> RightClear(blk, h)
      requires |lists| > 0 && i < |lists[0]| && lists[0][i] == f
      modifies this, rec
      ensures Merging(g) && left' + 1 == blk[g].pages && g in blk
      ensures blk == Joined(old(blk), g, h) && RightClear(blk, g)
      ensures f == g ==> LeftClear(blk, g)
      ensures Busy(blk) - {g} == Busy(old(blk)) - {if f == g then h else g}
    {
      hide Merged, Maximal, LeftClear, Joined;
      ghost var r0 := rec[..];
      AbsorbStep(n, r0, mem[..], blk, lists, pfree, g, h, f, i);
      left' := left + rec[f].slab;
      rec[g] := rec[g].(slab := rec[g].slab + rec[h].slab);
      UnlinkCell(f);
      rec[h] := ZERO;
      assert rec[..] == Absorbed(r0, g, h, f);
      lists := lists[0 := Without(lists[0], i)];
      blk := Joined(blk, g, h);
    }

    // if (pages) page[pages].prev = page; then insert at the head of the free list
    method PutBack(page: nat, left: nat)
      requires Merging(page) && left + 1 == blk[page].pages && RightClear(blk, page) && LeftClear(blk, page)
      modifies this, rec
      ensures PagesValid() && NoLoose(blk) && Busy(blk) == Busy(old(blk)) - {page}
    {
      ghost var r0 := rec[..];
      Finish(n, r0, mem[..], blk, lists, page);
      if left > 0 {
        rec[page + left] := rec[page + left].(prev := page, kind := PAGE);
      }
      PushCell(n, page, PAGE);
      assert rec[..] == Finished(n, r0, page, blk[page].pages);
      FinishKeeps(n, blk, page);
      lists := lists[0 := [page] + lists[0]];
      blk := blk[page := Free(blk[page].pages)];
    }

    // ----- the chunk layer -----

    /** A pool of `pages` pages with nothing allocated: one free run. */
    constructor (pages: nat, end: nat)
      requires 0 < pages < PAGE_START - 1 && pages * PAGE_SIZE <= end
      ensures Valid() && n == pages && this.end == end && blk == map[0 := Free(pages)]
      ensures fresh(rec) && fresh(mem) && fresh(stats)
    {
      n := pages;
      this.end := end;
      rec := new Record[pages + 1 + SLOTS](_ => ZERO);
      mem := new nat[pages * PAGE_WORDS];
      stats := new Stat[SLOTS](_ => Stat(0, 0, 0, 0));
      new;
      var i := 0;
      while i < SLOTS
        invariant 0 <= i <= SLOTS
        invariant forall q :: 0 <= q < rec.Length ==>
          rec[q] == if n < q <= n + i then ZERO.(next := q) else ZERO
        invariant forall s :: 0 <= s < SLOTS ==> stats[s] == Stat(0, 0, 0, 0)
      {
        rec[n + 1 + i] := Record(0, n + 1 + i, NULL, PAGE);
        i := i + 1;
      }
      rec[n] := Record(0, 0, NULL, PAGE);
      rec[0] := Record(pages, n, n, PAGE);
      pfree := pages;
      blk := map[0 := Free(pages)];
      lists := seq(1 + SLOTS, k => if k == 0 then [0] else []);
      FreshPool(n, rec[..], mem[..], lists);
      FreshCounts(n, stats[..]);
    }

    /** Everything the allocator promises between calls. */
    ghost predicate Valid()
      reads this, rec, mem, stats
    {
      && PagesValid() && NoLoose(blk) && NoEmpty(blk)
      && stats.Length == SLOTS && Counted(stats[..], blk, n)
      && n * PAGE_SIZE <= end
    }

    /** So the promises of SlabLive hold of every pool between calls. */
    lemma IsSettled()
      requires Valid()
      ensures Settled(n, blk)
      ensures forall slot: nat, h :: slot < SLOTS ==> (h in lists[1 + slot] <==> HalfUsed(blk, slot, h))
    {
      AllRanged(n, rec[..], mem[..], blk);
      forall slot: nat, h | slot < SLOTS
        ensures h in lists[1 + slot] <==> HalfUsed(blk, slot, h)
      {
        OnListWhenHalfUsed(blk, lists, slot, h);
      }
    }

    /** The first clear bit of `word` from bit `from` on, or `to` if there is none. */
    method FirstClear(word: nat, from: nat, to: nat) returns (i: nat)
      requires from <= to
      ensures from <= i <= to && AllBits(word, from, i) && (i < to ==> !Bit(word, i))
    {
      i := from;
      while i < to
        invariant from <= i <= to && AllBits(word, from, i)
      {
        if !Bit(word, i) {
          return;
        }
        i := i + 1;
      }
    }

    /** The lowest free chunk of a small-chunk page is taken. The page has one, so the search cannot
        fail; it leaves its slot list exactly when that chunk was the last. */
    method TakeSmall(page: nat, shift: nat) returns (j: nat)
      requires PagesValid() && Open(blk, page, shift) && KindOf(shift) == SMALL
      modifies this`blk, this`lists, rec, mem
      ensures PagesValid() && Taken(old(blk), blk, page, shift, j)
    {
      ghost var used := blk[page].used;
      OpenFacts(n, rec[..], mem[..], blk, lists, page, shift);
      var words := Capacity(shift) / WORD_BITS;
      SmallFull(mem[..], page, shift, used);
      var w := 0;
      while w < words
        invariant 0 <= w <= words
        invariant forall v: nat :: v < w ==> mem[MapIndex(page, v)] == ALL_ONES
      {
        if mem[MapIndex(page, w)] != ALL_ONES {
          var i := FirstClear(mem[MapIndex(page, w)], 0, WORD_BITS);
          HoleInWord(mem[..], page, shift, used, w, i);
          SmallTake(mem[..], page, shift, used, w, i);
          ghost var m0 := mem[..];
          mem[MapIndex(page, w)] := SetBit(mem[MapIndex(page, w)], i);
          j := ChunkAt(w, i);
          var full := AllWordsFull(page, w, words);
          SmallFull(mem[..], page, shift, used + {j});
          Settle(page, shift, rec[page].slab, m0, used + {j}, full);
          return;
        }
        w := w + 1;
      }
      assert false;
    }

    // The words from `w` on are all ones.
    method AllWordsFull(page: nat, w: nat, words: nat) returns (full: bool)
      requires w < words && MapIndex(page, words) <= mem.Length
      ensures full <==> forall v: nat :: w <= v < words ==> mem[MapIndex(page, v)] == ALL_ONES
    {
      var v := w;
      while v < words
        invariant w <= v <= words
        invariant forall x: nat :: w <= x < v ==> mem[MapIndex(page, x)] == ALL_ONES
      {
        if mem[MapIndex(page, v)] != ALL_ONES {
          return false;
        }
        v := v + 1;
      }
      return true;
    }

    // Store the page's new map word and, if the page is now full, take it off its slot list.
    method Settle(page: nat, shift: nat, slab: nat, ghost m0: seq<nat>, ghost used: set<nat>, full: bool)
      requires Sound(n, rec[..], m0, blk, lists) && Maximal(blk) && pfree == Sum(Unused, blk, n)
      requires Open(blk, page, shift) && OnlyPage(m0, mem[..], page)
      requires page < n && ChunksInRange(shift, used) && ChunkMap(slab, mem[..], page, shift, used)
      requires full <==> IsFull(shift, used)
      modifies this`blk, this`lists, rec
      ensures PagesValid() && blk == old(blk)[page := Chunks(shift, used)]
    {
      ghost var r0 := rec[..];
      ghost var b := blk[page := Chunks(shift, used)];
      SumAtOne(Unused, blk, b, page, n);
      ChunkMaximal(blk, page, b[page]);
      if full {
        ghost var k, i := OpenPosition(blk, lists, page, shift);
        ChunkFills(n, r0, m0, mem[..], blk, lists, page, slab, used, k, i);
        rec[page] := rec[page].(slab := slab);
        UnlinkCell(page);
        rec[page] := Record(slab, NULL, NULL, KindOf(shift));
        lists := lists[k := Without(lists[k], i)];
      } else {
        ChunkChanged(n, r0, m0, mem[..], blk, lists, page, slab, used);
        rec[page] := rec[page].(slab := slab);
      }
      blk := b;
    }

    method TakeExact(page: nat) returns (j: nat)
      requires PagesValid() && Open(blk, page, EXACT_SHIFT)
      modifies this`blk, this`lists, rec
      ensures PagesValid() && Taken(old(blk), blk, page, EXACT_SHIFT, j)
    {
      ghost var used := blk[page].used;
      OpenFacts(n, rec[..], mem[..], blk, lists, page, EXACT_SHIFT);
      var i := FirstClear(rec[page].slab, 0, WORD_BITS);
      HoleInExact(rec[page].slab, used, i);
      var slab := SetBit(rec[page].slab, i);
      ExactTake(rec[page].slab, used, i);
      ExactFull(slab, used + {i});
      Settle(page, EXACT_SHIFT, slab, mem[..], used + {i}, slab == ALL_ONES);
      j := i;
    }

    method TakeBig(page: nat, shift: nat) returns (j: nat)
      requires PagesValid() && Open(blk, page, shift) && shift > EXACT_SHIFT
      modifies this`blk, this`lists, rec
      ensures PagesValid() && Taken(old(blk), blk, page, shift, j)
    {
      hide ClearLow, BigMap;
      ghost var used := blk[page].used;
      OpenFacts(n, rec[..], mem[..], blk, lists, page, shift);
      var i := FirstClear(rec[page].slab, MAP_SHIFT, MAP_SHIFT + Capacity(shift));
      HoleInBig(rec[page].slab, shift, used, i);
      j := i - MAP_SHIFT;
      var slab := SetBit(rec[page].slab, i);
      BigTake(rec[page].slab, shift, used, j);
      BigFull(slab, shift, used + {j});
      Settle(page, shift, slab, mem[..], used + {j},
             ClearLow(slab, MAP_SHIFT) == Shl(Pow2(Capacity(shift)) - 1, MAP_SHIFT));
    }

    /** A page just allocated is cut into 2^shift-byte chunks; the first one after the bitmap, if
        there is a bitmap, is taken. */
    method CarvePage(page: nat, shift: nat) returns (j: nat)
      requires PagesValid() && page in blk && blk[page] == Run(1) && IsShift(shift)
      requires forall h :: h in blk ==> !Open(blk, h, shift)
      modifies this`blk, this`lists, rec, mem
      ensures PagesValid() && j == Reserved(shift) && blk == old(blk)[page := Chunks(shift, {j})]
    {
      hide Encoded, AllLinked, Filed, Maximal;
      ghost var r0, m0 := rec[..], mem[..];
      RunFacts(n, r0, m0, blk, lists, page, shift);
      var slab;
      slab, j := FirstMap(page, shift);
      FreshNotFull(shift);
      PageCarved(n, r0, m0, mem[..], blk, lists, page, slab, shift, {Reserved(shift)});
      var head := n + 1 + (shift - 3);
      rec[page] := Record(slab, head, head, KindOf(shift));
      rec[head] := rec[head].(next := page);
      ghost var b := blk[page := Chunks(shift, {Reserved(shift)})];
      SumAtOne(Unused, blk, b, page, n);
      ChunkMaximal(blk, page, b[page]);
      lists := lists[shift - 2 := [page]];
      blk := b;
    }

    // The map of a fresh page, with one chunk taken.
    method FirstMap(page: nat, shift: nat) returns (slab: nat, j: nat)
      requires IsShift(shift) && MapIndex(page + 1, 0) <= mem.Length
      modifies mem
      ensures OnlyPage(old(mem[..]), mem[..], page) && j == Reserved(shift)
      ensures ChunkMap(slab, mem[..], page, shift, {Reserved(shift)})
    {
      if shift < EXACT_SHIFT {
        j := Reserved(shift);
        WriteBitmap(page, j, Capacity(shift) / WORD_BITS);
        SmallFresh(mem[..], page, shift);
        slab := shift;
      } else if shift == EXACT_SHIFT {
        j := 0;
        slab := 1;
        ExactFresh();
      } else {
        j := 0;
        slab := SetBit(shift, MAP_SHIFT);
        BigFresh(shift);
      }
    }

    // The bitmap of a fresh page: its own chunks and one more are taken.
    method WriteBitmap(page: nat, first: nat, words: nat)
      requires MapIndex(page + 1, 0) <= mem.Length && 0 < words <= PAGE_WORDS && first + 1 < WORD_BITS
      modifies mem
      ensures OnlyPage(old(mem[..]), mem[..], page)
      ensures mem[MapIndex(page, 0)] == Pow2(first + 1) - 1
      ensures forall w: nat :: 0 < w < words ==> mem[MapIndex(page, w)] == 0
    {
      mem[MapIndex(page, 0)] := Pow2(first + 1) - 1;
      var w := 1;
      while w < words
        invariant 1 <= w <= words
        invariant OnlyPage(old(mem[..]), mem[..], page)
        invariant mem[MapIndex(page, 0)] == Pow2(first + 1) - 1
        invariant forall v: nat :: 0 < v < w ==> mem[MapIndex(page, v)] == 0
      {
        mem[MapIndex(page, w)] := 0;
        w := w + 1;
      }
    }

    /** Any request: whole pages above half a page, a chunk of the next power of two below. It fails
        exactly when there is no room, and then nothing is granted; when it succeeds, one block of
        the right size that was free before is live, and everything else stays as it was. */
    method AllocLocked(size: nat) returns (p: Option<nat>)
      requires Valid()
      modifies this, rec, mem, stats
      ensures Valid()
      ensures p.None? <==> NoRoom(old(blk), size)
      ensures size > 2048 ==>
        (p.None? <==> forall h :: h in old(blk) && old(blk)[h].Free? ==> old(blk)[h].pages * 4096 < size)
      ensures p.None? ==> blk == old(blk) && lists == old(lists)
      ensures p.Some? ==> exists h: nat, j: nat :: AllocStep(old(blk), blk, size, p.value, h, j)
      ensures Requested(old(stats[..]), stats[..], size, p.None?)
    {
      LargeRequest(blk, size);
      hide AllocStep, NoRoom;
      if size > MAX_SIZE {
        p := AllocRun(size);
        return;
      }
      var shift := SizeClass(size);
      var slot := shift - 3;
      OneClass(size, shift);
      stats[slot] := stats[slot].(reqs := stats[slot].reqs + 1);
      assert Counted(stats[..], blk, n);
      SlotHead(n, rec[..], mem[..], blk, lists, shift);
      var page := rec[n + 1 + slot].next;
      if rec[page].next != page {
        p := AllocChunk(size, page, shift);
      } else {
        p := AllocFresh(size, shift);
      }
    }

    // size > ngx_slab_max_size
    method AllocRun(size: nat) returns (p: Option<nat>)
      requires Valid() && size > MAX_SIZE
      modifies this, rec
      ensures Valid()
      ensures p.None? <==> NoRoom(old(blk), size)
      ensures p.None? ==> blk == old(blk) && lists == old(lists)
      ensures p.Some? ==> exists h: nat, j: nat :: AllocStep(old(blk), blk, size, p.value, h, j)
    {
      hide Sound, Maximal, Counted, NoEmpty;
      ghost var a := blk;
      var page := AllocPages(PagesFor(size));
      if page == NULL {
        p := None;
      } else {
        CountRun(n, a, blk, page, stats[..]);
        p := Some(page * PAGE_SIZE);
        assert AllocStep(a, blk, size, p.value, page, 0);
      }
    }

    // The slot has a page with a free chunk.
    method AllocChunk(size: nat, page: nat, shift: nat) returns (p: Option<nat>)
      requires Valid() && size <= MAX_SIZE && IsClass(size, shift) && Open(blk, page, shift) && page < n
      modifies this, rec, mem, stats
      ensures Valid() && p.Some? && !NoRoom(old(blk), size)
      ensures exists h: nat, j: nat :: AllocStep(old(blk), blk, size, p.value, h, j)
      ensures forall s :: 0 <= s < SLOTS ==>
        stats[s].reqs == old(stats[s].reqs) && stats[s].fails == old(stats[s].fails)
    {
      hide Sound, Maximal, Counted, NoEmpty, NoRoom, AllocStep, Taken;
      ghost var a, st := blk, stats[..];
      var j: nat;
      if shift < EXACT_SHIFT {
        j := TakeSmall(page, shift);
      } else if shift == EXACT_SHIFT {
        j := TakeExact(page);
      } else {
        j := TakeBig(page, shift);
      }
      TakenStep(n, a, blk, size, page, shift, j);
      var slot := shift - 3;
      stats[slot] := stats[slot].(used := stats[slot].used + 1);
      CountChunks(n, a, blk, page, shift, a[page].used + {j}, st, stats[..]);
      p := Some(page * PAGE_SIZE + j * ChunkSize(shift));
    }

    // No page of the slot has a free chunk: take a fresh page.
    method AllocFresh(size: nat, shift: nat) returns (p: Option<nat>)
      requires Valid() && size <= MAX_SIZE && IsClass(size, shift)
      requires forall h :: h in blk ==> !Open(blk, h, shift)
      modifies this, rec, mem, stats
      ensures Valid()
      ensures p.None? <==> NoRoom(old(blk), size)
      ensures p.None? ==> blk == old(blk) && lists == old(lists)
      ensures p.Some? ==> exists h: nat, j: nat :: AllocStep(old(blk), blk, size, p.value, h, j)
      ensures forall s :: 0 <= s < SLOTS ==> stats[s].reqs == old(stats[s].reqs)
      ensures forall s :: 0 <= s < SLOTS ==>
        stats[s].fails == old(stats[s].fails) + if p.None? && s == shift - 3 then 1 else 0
    {
      hide Sound, Maximal, Counted, NoEmpty, AllocStep, IsFull;
      ghost var a, st := blk, stats[..];
      var slot := shift - 3;
      var page := AllocPages(1);
      if page == NULL {
        stats[slot] := stats[slot].(fails := stats[slot].fails + 1);
        CountOther(st, stats[..], slot, blk, n);
        return None;
      }
      ghost var c := blk;
      StillNotOpen(a, c, page, shift);
      var j := CarvePage(page, shift);
      CarvedStep(n, a, c, blk, size, page, shift, j);
      stats[slot] := stats[slot].(total := stats[slot].total + (Capacity(shift) - j), used := stats[slot].used + 1);
      CountCarved(n, a, blk, page, shift, j, st, stats[..]);
      p := Some(page * PAGE_SIZE + j * ChunkSize(shift));
    }

    // ----- freeing -----

    /** Free by address. Of the addresses in the pages exactly those of live blocks and those of the chunks
        that a bitmap occupies are freed; every other one is refused with the state untouched. The pool is
        sound afterwards if and only if it was not a chunk of a bitmap: the source does not tell these
        apart. From the end of the last page up to and including `end` the source reads a record behind the
        last one; what that says is not known here. */
    method FreeLocked(p: int) returns (r: FreeResult)
      requires Valid()
      modifies this, rec, mem, stats
      ensures Valid() <==> !InBitmap(old(blk), p)
      ensures r == PastTheRecords <==> n * PAGE_SIZE <= p <= end
      ensures r == Freed <==> IsLive(old(blk), p) || InBitmap(old(blk), p)
      ensures IsLive(old(blk), p) ==> exists h: nat, j: nat :: FreeStep(old(blk), blk, p, h, j)
      ensures InBitmap(old(blk), p) ==> Broken(n, rec[..], mem[..])
      ensures r != Freed ==>
        && blk == old(blk) && lists == old(lists) && pfree == old(pfree)
        && rec[..] == old(rec[..]) && mem[..] == old(mem[..]) && stats[..] == old(stats[..])
    {
      AllRanged(n, rec[..], mem[..], blk);
      LiveIsInside(n, blk, p);
      BitmapIsInside(n, blk, p);
      if p < 0 || p > end {
        return OutsideOfPool;
      }
      var page := p / PAGE_SIZE;
      var offset := p % PAGE_SIZE;
      if page >= n {
        return PastTheRecords;
      }
      ghost var h := BlockOf(n, blk, page);
      WhatIsThere(n, rec[..], mem[..], blk, lists, h, page);
      LiveHere(n, blk, p, h, page, offset);
      BitmapHere(n, blk, p, h, page, offset);
      if rec[page].kind == PAGE {
        r := FreeAsPages(p, page, offset, h);
      } else {
        var shift := if rec[page].kind == EXACT then EXACT_SHIFT else Low(rec[page].slab, 4);
        r := FreeAsChunk(p, page, offset, shift);
      }
    }

    // case SLAB_PAGE
    method FreeAsPages(p: int, page: nat, offset: nat, ghost h: nat) returns (r: FreeResult)
      requires Valid() && Covers(blk, h, page) && page < n && p == page * PAGE_SIZE + offset && offset < PAGE_SIZE
      requires PageFacts(rec[page], blk[h], h, page) && rec[page].kind == PAGE
      requires IsLive(blk, p) <==> blk[h].Run? && h == page && offset == 0
      modifies this, rec
      ensures Valid() && r != PastTheRecords
      ensures r == Freed <==> IsLive(old(blk), p)
      ensures r == Freed ==> FreeStep(old(blk), blk, p, page, 0)
      ensures r != Freed ==> blk == old(blk) && lists == old(lists) && pfree == old(pfree) && rec[..] == old(rec[..])
    {
      if offset != 0 {
        return WrongChunk;
      }
      if rec[page].slab < PAGE_START {
        return PageAlreadyFree;
      }
      if rec[page].slab == PAGE_BUSY {
        return WrongPage;
      }
      ghost var a := blk;
      FreePages(page, rec[page].slab - PAGE_START);
      CountRun(n, a, blk, page, stats[..]);
      r := Freed;
    }

    // cases SLAB_SMALL, SLAB_EXACT and SLAB_BIG
    method FreeAsChunk(p: int, page: nat, offset: nat, shift: nat) returns (r: FreeResult)
      requires Valid() && page in blk && page < n && p == page * PAGE_SIZE + offset && offset < PAGE_SIZE
      requires blk[page].Chunks? && blk[page].shift == shift
      requires IsLive(blk, p) <==> exists j :: j in blk[page].used && offset == j * ChunkSize(shift)
      requires InBitmap(blk, p) <==> exists j: nat :: j < Reserved(shift) && offset == j * ChunkSize(shift)
      modifies this, rec, mem, stats
      ensures r != PastTheRecords && (Valid() <==> !InBitmap(old(blk), p))
      ensures r == Freed <==> IsLive(old(blk), p) || InBitmap(old(blk), p)
      ensures IsLive(old(blk), p) ==> exists j: nat :: FreeStep(old(blk), blk, p, page, j)
      ensures InBitmap(old(blk), p) ==> Broken(n, rec[..], mem[..])
      ensures r != Freed ==>
        && blk == old(blk) && lists == old(lists) && pfree == old(pfree)
        && rec[..] == old(rec[..]) && mem[..] == old(mem[..]) && stats[..] == old(stats[..])
    {
      hide IsLive, InBitmap, Broken;
      ChunkFacts(n, rec[..], mem[..], blk, lists, page);
      if offset % ChunkSize(shift) != 0 {
        NoChunkThere(shift, offset, blk[page].used);
        NoBitmapThere(shift, offset);
        return WrongChunk;
      }
      var c := offset / ChunkSize(shift);
      ChunkNumber(shift, offset, c);
      var bit := if shift < EXACT_SHIFT then Bit(mem[MapIndex(page, c / WORD_BITS)], c % WORD_BITS)
                 else if shift == EXACT_SHIFT then Bit(rec[page].slab, c)
                 else Bit(rec[page].slab, MAP_SHIFT + c);
      BitTells(n, rec[..], mem[..], blk, page, shift, c);
      OneChunk(shift, offset, c);
      if !bit {
        return ChunkAlreadyFree;
      }
      if c < Reserved(shift) {
        FreeBitmapChunk(page, shift, c);
        BrokenIsInvalid();
      } else {
        FreeChunk(page, shift, c);
        assert FreeStep(old(blk), blk, p, page, c);
      }
      r := Freed;
    }

    lemma BrokenIsInvalid()
      requires Broken(n, rec[..], mem[..])
      ensures !Valid()
    {
    }

    // The source frees a chunk of the bitmap like any other chunk of its page. The page has a live chunk,
    // so it is not given back.
    method FreeBitmapChunk(page: nat, shift: nat, c: nat)
      requires Valid() && page in blk && blk[page].Chunks? && blk[page].shift == shift && c < Reserved(shift)
      modifies rec, mem, stats
      ensures Broken(n, rec[..], mem[..])
      ensures var q := MapIndex(page, c / WORD_BITS);
        q < mem.Length && mem[..] == old(mem[..])[q := ClearBit(old(mem[q]), c % WORD_BITS)]
      ensures 0 <= shift - 3 < stats.Length && old(stats[shift - 3]).used > 0
      ensures stats[..] == old(stats[..])[shift - 3 := old(stats[shift - 3]).(used := old(stats[shift - 3]).used - 1)]
    {
      hide Sound, Maximal, Counted, Broken, SmallMap;
      ghost var used := blk[page].used;
      ghost var u: nat :| u in used;
      ChunkFacts(n, rec[..], mem[..], blk, lists, page);
      KindOfPage(n, rec[..], mem[..], blk, lists, page);
      SlotHead(n, rec[..], mem[..], blk, lists, shift);
      SmallEmpty(mem[..], page, shift, used);
      UsedIsCounted(n, blk, page, shift, u, stats[..]);
      ghost var word := mem[MapIndex(page, 0)];
      var slot := shift - 3;
      if rec[page].next == NULL {
        PushCell(n + 1 + slot, page, SMALL);
      }
      mem[MapIndex(page, c / WORD_BITS)] := ClearBit(mem[MapIndex(page, c / WORD_BITS)], c % WORD_BITS);
      ClearLowAfterClear(word, c, Reserved(shift));
      var empty := MapIsEmpty(page, shift);
      assert !empty;
      stats[slot] := stats[slot].(used := stats[slot].used - 1);
      BitmapBroken(n, rec[..], mem[..], page, shift, c) by { BitOfClear(word, c, c); }
    }

    method FreeChunk(page: nat, shift: nat, c: nat)
      requires Valid() && page in blk && blk[page].Chunks? && blk[page].shift == shift && c in blk[page].used
      modifies this, rec, mem, stats
      ensures Valid() && ChunkGone(old(blk), blk, page, c)
    {
      ghost var a, used := blk, blk[page].used;
      ChunkFacts(n, rec[..], mem[..], blk, lists, page);
      var empty;
      if shift < EXACT_SHIFT {
        GiveSmall(page, shift, c);
        empty := SmallIsEmpty(page, shift, used - {c});
      } else if shift == EXACT_SHIFT {
        ExactGive(rec[page].slab, used, c);
        ExactFull(rec[page].slab, used);
        GiveChunk(page, shift, ClearBit(rec[page].slab, c), mem[..], used - {c}, rec[page].slab == ALL_ONES);
        ExactFull(rec[page].slab, used - {c}) by { ChunkFacts(n, rec[..], mem[..], blk, lists, page); }
        empty := rec[page].slab == 0;
      } else {
        BigGive(rec[page].slab, shift, used, c);
        GiveChunk(page, shift, ClearBit(rec[page].slab, MAP_SHIFT + c), mem[..], used - {c}, rec[page].next == NULL);
        BigFull(rec[page].slab, shift, used - {c}) by { ChunkFacts(n, rec[..], mem[..], blk, lists, page); }
        empty := ClearLow(rec[page].slab, MAP_SHIFT) == 0;
      }
      Release(page, shift, c, empty, a);
    }

    method GiveSmall(page: nat, shift: nat, c: nat)
      requires PagesValid() && page in blk && blk[page].Chunks? && blk[page].shift == shift && c in blk[page].used
      requires shift < EXACT_SHIFT
      modifies this`blk, this`lists, rec, mem
      ensures PagesValid() && blk == old(blk)[page := Chunks(shift, old(blk)[page].used - {c})]
    {
      ghost var used := blk[page].used;
      ChunkFacts(n, rec[..], mem[..], blk, lists, page);
      var w, i := c / WORD_BITS, c % WORD_BITS;
      assert c == ChunkAt(w, i) && w < Capacity(shift) / WORD_BITS;
      SmallGive(mem[..], page, shift, used, w, i);
      ghost var m0 := mem[..];
      mem[MapIndex(page, w)] := ClearBit(mem[MapIndex(page, w)], i);
      GiveChunk(page, shift, rec[page].slab, m0, used - {c}, rec[page].next == NULL);
    }

    // A page that was full goes back to the head of its slot list; the map word is stored.
    method GiveChunk(page: nat, shift: nat, slab: nat, ghost m0: seq<nat>, ghost u: set<nat>, full: bool)
      requires Sound(n, rec[..], m0, blk, lists) && Maximal(blk) && pfree == Sum(Unused, blk, n)
      requires page in blk && blk[page].Chunks? && blk[page].shift == shift && IsShift(shift) && page < n
      requires OnlyPage(m0, mem[..], page) && ChunkMap(slab, mem[..], page, shift, u)
      requires exists c :: c in blk[page].used && u == blk[page].used - {c}
      requires ChunksInRange(shift, blk[page].used) && (full <==> IsFull(shift, blk[page].used))
      modifies this`blk, this`lists, rec
      ensures PagesValid() && blk == old(blk)[page := Chunks(shift, u)] && rec[page].slab == slab
    {
      hide Encoded, AllLinked, Filed, Maximal;
      ghost var r0 := rec[..];
      ghost var b := blk[page := Chunks(shift, u)];
      SumAtOne(Unused, blk, b, page, n);
      ChunkMaximal(blk, page, b[page]);
      NotFullNow(shift, blk[page].used, u);
      if full {
        ChunkReopens(n, r0, m0, mem[..], blk, lists, page, slab, u, shift - 2);
        PushCell(n + 1 + (shift - 3), page, KindOf(shift));
        lists := lists[shift - 2 := [page] + lists[shift - 2]];
      } else {
        ChunkChanged(n, r0, m0, mem[..], blk, lists, page, slab, u);
      }
      rec[page] := rec[page].(slab := slab);
      blk := b;
    }

    // No bit of the bitmap is set above the bitmap's own.
    method MapIsEmpty(page: nat, shift: nat) returns (empty: bool)
      requires 3 <= shift < EXACT_SHIFT && MapIndex(page + 1, 0) <= mem.Length
      ensures empty <==>
        && ClearLow(mem[MapIndex(page, 0)], Reserved(shift)) == 0
        && forall w: nat :: 0 < w < Capacity(shift) / WORD_BITS ==> mem[MapIndex(page, w)] == 0
    {
      if ClearLow(mem[MapIndex(page, 0)], Reserved(shift)) != 0 {
        return false;
      }
      var w := 1;
      while w < Capacity(shift) / WORD_BITS
        invariant 1 <= w <= Capacity(shift) / WORD_BITS
        invariant forall v: nat :: 0 < v < w ==> mem[MapIndex(page, v)] == 0
      {
        if mem[MapIndex(page, w)] != 0 {
          return false;
        }
        w := w + 1;
      }
      return true;
    }

    method SmallIsEmpty(page: nat, shift: nat, ghost u: set<nat>) returns (empty: bool)
      requires PagesValid() && page in blk && blk[page] == Chunks(shift, u) && shift < EXACT_SHIFT
      ensures empty <==> u == {}
    {
      ChunkFacts(n, rec[..], mem[..], blk, lists, page);
      SmallEmpty(mem[..], page, shift, u);
      empty := MapIsEmpty(page, shift);
    }

    // An emptied page goes back to the page layer; the counters follow.
    method Release(page: nat, shift: nat, c: nat, empty: bool, ghost a: Blocks)
      requires PagesValid() && stats.Length == SLOTS && Counted(stats[..], a, n) && NoEmpty(a) && NoLoose(a)
      requires n * PAGE_SIZE <= end && IsShift(shift) && page < n
      requires page in a && a[page].Chunks? && a[page].shift == shift && c in a[page].used
      requires blk == a[page := Chunks(shift, a[page].used - {c})]
      requires empty <==> a[page].used - {c} == {}
      modifies this, rec, stats
      ensures Valid() && ChunkGone(a, blk, page, c)
    {
      ghost var st := stats[..];
      var slot := shift - 3;
      UsedIsCounted(n, a, page, shift, c, st);
      ReleaseFacts(a, blk, page, shift, c);
      if empty {
        FreePages(page, 1);
        stats[slot] := stats[slot].(total := stats[slot].total - (Capacity(shift) - Reserved(shift)));
      }
      stats[slot] := stats[slot].(used := stats[slot].used - 1);
      CountReleased(n, a, blk, page, shift, c, st, stats[..]);
    }

    /** A process stores into memory it was granted: no bitmap is touched, so nothing changes for
        the allocator. */
    method Store(q: nat, word: nat, ghost addr: int, ghost size: nat)
      requires Valid() && Live(blk, addr, size) && addr <= q * 8 < addr + size
      modifies mem
      ensures Valid() && q < mem.Length && mem[..] == old(mem[..])[q := word]
    {
      ghost var m0 := mem[..];
      StoreInside(n, rec[..], m0, blk, lists, q, word, addr, size);
      mem[q] := word;
    }
  }

  /** A large request fails exactly if every free run has fewer bytes. */
  lemma LargeRequest(blk: Blocks, size: nat)
    ensures size > 2048 ==>
      (NoRoom(blk, size) <==> forall h :: h in blk && blk[h].Free? ==> blk[h].pages * 4096 < size)
  {
    forall h | h in blk && blk[h].Free?
      ensures blk[h].pages < PagesFor(size) <==> blk[h].pages * 4096 < size
    {
      PagesAreEnough(size, blk[h].pages);
    }
  }

  const HEAD_SIZE: nat := 9 * (24 + 32)    // the slots and the statistics
  const RECORD_SIZE: nat := 24

  const ADDRESSES: nat := 0x100_0000_0000_0000   // of a process

  // A difference of addresses, as size_t.
  function Word(d: int): nat {
    d % WRAP
  }

  function Align(p: nat): nat {
    (p + PAGE_SIZE - 1) / PAGE_SIZE * PAGE_SIZE
  }

  lemma AlignUp(p: nat)
    ensures Align(p) % PAGE_SIZE == 0 && p <= Align(p) < p + PAGE_SIZE
  {
  }

  // As many pages with their records as the size allows, but for the one that the alignment takes.
  function Corrected(k: nat, start: nat, end: nat): int {
    var m := k - Word(end - start) / PAGE_SIZE;
    if m > 0 then k - m else k
  }

  lemma EnoughRoom(p: nat, end: nat, k: nat, start: nat)
    requires p <= end < ADDRESSES && k == (end - p) / (PAGE_SIZE + RECORD_SIZE)
    requires start == Align(p + k * RECORD_SIZE)
    ensures var pages := Corrected(k, start, end);
      && k - 1 <= pages <= k && pages >= 0 && p + pages * RECORD_SIZE <= start
      && (pages > 0 ==> start + pages * PAGE_SIZE <= end)
      && end < p + (pages + 2) * (PAGE_SIZE + RECORD_SIZE)
      && (pages > 0 <==> Align(p + RECORD_SIZE) + PAGE_SIZE <= end)
  {
    AlignUp(p + k * RECORD_SIZE);
    AlignUp(p + RECORD_SIZE);
    hide Align;
    if k > 0 {
      assert end - start > (k - 1) * PAGE_SIZE;
      assert Word(end - start) == end - start;
    }
  }

  lemma NoRoomAtAll(p: nat, end: nat, k: nat, start: nat)
    requires p - HEAD_SIZE <= end < p && end < ADDRESSES && k == Word(end - p) / (PAGE_SIZE + RECORD_SIZE)
    requires start == Align(p + k * RECORD_SIZE)
    ensures Corrected(k, start, end) * RECORD_SIZE > ADDRESSES
  {
    AlignUp(p + k * RECORD_SIZE);
    hide Align;
    assert Word(end - p) == end - p + WRAP;
    assert Word(end - start) == end - start + WRAP;
  }

  /** Where ngx_slab_init puts the pages: everything after the slots is shared between page records
      and page-aligned pages; records and pages do not overlap and end before `end`, if there is room for one
      record. There are pages if and only if one page fits behind one record. With less room than the slots
      need, the size wraps around. */
  method Layout(slots: nat, end: nat) returns (pages: nat, start: nat)
    requires slots <= end < ADDRESSES
    ensures start % 4096 == 0
    ensures slots + 528 <= end <==> slots + 504 + (if pages > 0 then pages else 1) * 24 <= end
    ensures pages > 0 && slots + 504 <= end ==> start + pages * 4096 <= end
    ensures slots + 504 <= end ==> slots + 504 + pages * 24 <= start && end < slots + 504 + (pages + 2) * 4120
    ensures slots + 504 <= end ==> (pages > 0 <==> (slots + 528 + 4095) / 4096 * 4096 + 4096 <= end)
    ensures end < slots + 504 ==> pages * 24 > ADDRESSES
  {
    var p := slots + HEAD_SIZE;
    var size := Word(end - slots - HEAD_SIZE);
    pages := size / (PAGE_SIZE + RECORD_SIZE);
    start := Align(p + pages * RECORD_SIZE);
    if p <= end {
      EnoughRoom(p, end, pages, start);
    } else {
      NoRoomAtAll(p, end, pages, start);
    }
    AlignUp(p + pages * RECORD_SIZE);
    ghost var c := Corrected(pages, start, end);
    hide Align, Word;
    var m := pages - Word(end - start) / PAGE_SIZE;
    if m > 0 {
      pages := pages - m;
    }
    assert pages == c;
  }

  /** The shift of the size class: the smallest chunk, 8 bytes or more, that holds the request. */
  method SizeClass(size: nat) returns (shift: nat)
    requires size <= MAX_SIZE
    ensures IsClass(size, shift)
  {
    if size <= 8 {
      return 3;
    }
    shift := 1;
    var s := (size - 1) / 2;
    while s != 0
      invariant 1 <= shift && s == Shr(size - 1, shift) && Pow2(shift - 1) <= size - 1
      decreases s
    {
      ShrStep(size - 1, shift);
      ShrZero(size - 1, shift);
      shift := shift + 1;
      s := s / 2;
    }
    ShrZero(size - 1, shift);
    ClassOf(size, shift);
  }

  // One small request in a pool of one page.
  lemma SmallStep(a: Blocks, b: Blocks, addr: nat, h: nat, j: nat)
    requires a == map[0 := Free(1)] && Tiles(1, b) && AllocStep(a, b, 8, addr, h, j)
    ensures h == 0 && InBitmap(b, 0)
  {
    var shift :| IsClass(8, shift) && ChunkStep(a, b, addr, h, shift, j);
    assert h in Busy(b) && b[h] == Busy(b)[h] && b[h].Chunks?;
    assert h < 1;
    assert BitmapChunk(b, 0, 0, 0);
  }

  /** After one request for 8 bytes the first address of the page is a chunk of its bitmap, and freeing it
      breaks the pool. */
  method FreeExample() returns (pool: Pool, r: FreeResult)
    ensures r == Freed && !pool.Valid()
  {
    pool := new Pool(1, PAGE_SIZE);
    ghost var a := pool.blk;
    assert !NoRoom(a, 8) by { assert a[0].Free? && a[0].pages == 1; }
    var p := pool.AllocLocked(8);
    ghost var h: nat, j: nat :| AllocStep(a, pool.blk, 8, p.value, h, j);
    SmallStep(a, pool.blk, p.value, h, j);
    r := pool.FreeLocked(0);
  }
}
