/** Taking and giving back one chunk: what it does to the three kinds of chunk map, to the records
    and to the slot lists. */
module SlabChunks {
  import opened Words
  import opened SlabBlocks
  import opened SlabRecords
  import opened SlabMoves

  // ----- the maps -----

  /** A small-chunk page has a free chunk exactly when some bitmap word is not all ones. */
  lemma SmallFull(mem: seq<nat>, h: nat, shift: nat, used: set<nat>)
    requires 3 <= shift < EXACT_SHIFT && MapIndex(h + 1, 0) <= |mem| && SmallMap(mem, h, shift, used)
    ensures IsFull(shift, used) <==>
      forall w: nat :: w < Capacity(shift) / WORD_BITS ==> mem[MapIndex(h, w)] == ALL_ONES
  {
    forall w: nat | w < Capacity(shift) / WORD_BITS
      ensures mem[MapIndex(h, w)] == ALL_ONES <==> WordFull(w, shift, used)
    {
      WordIsFull(mem[MapIndex(h, w)], w, shift, used);
    }
    if IsFull(shift, used) {
      forall w: nat | w < Capacity(shift) / WORD_BITS
        ensures WordFull(w, shift, used)
      {
        assert forall i: nat :: i < WORD_BITS ==> ChunkAt(w, i) < Capacity(shift);
      }
    } else {
      var j :| Reserved(shift) <= j < Capacity(shift) && j !in used;
      assert j == ChunkAt(j / WORD_BITS, j % WORD_BITS);
      assert !TakenAt(j / WORD_BITS, j % WORD_BITS, shift, used);
      assert !WordFull(j / WORD_BITS, shift, used);
      assert j / WORD_BITS < Capacity(shift) / WORD_BITS;
    }
  }

  ghost predicate WordFull(w: nat, shift: nat, used: set<nat>) {
    forall i: nat :: i < WORD_BITS ==> TakenAt(w, i, shift, used)
  }

  lemma WordIsFull(word: nat, w: nat, shift: nat, used: set<nat>)
    requires SmallWord(word, w, shift, used)
    ensures word == ALL_ONES <==> WordFull(w, shift, used)
  {
    WordSize();
    FullBits(word, WORD_BITS);
  }

  lemma SmallTake(mem: seq<nat>, h: nat, shift: nat, used: set<nat>, w: nat, i: nat)
    requires 3 <= shift < EXACT_SHIFT && MapIndex(h + 1, 0) <= |mem| && SmallMap(mem, h, shift, used)
    requires w < Capacity(shift) / WORD_BITS && i < WORD_BITS
    ensures MapIndex(h, w) < |mem|
    ensures SmallMap(mem[MapIndex(h, w) := SetBit(mem[MapIndex(h, w)], i)], h, shift, used + {ChunkAt(w, i)})
  {
    assert SmallWord(mem[MapIndex(h, w)], w, shift, used);
    var m := mem[MapIndex(h, w) := SetBit(mem[MapIndex(h, w)], i)];
    forall v: nat | v < Capacity(shift) / WORD_BITS
      ensures v < PAGE_WORDS && SmallWord(m[MapIndex(h, v)], v, shift, used + {ChunkAt(w, i)})
    {
      assert SmallWord(mem[MapIndex(h, v)], v, shift, used);
      if v == w {
        SetInWord(mem[MapIndex(h, w)], w, shift, used, i);
      } else {
        OtherWord(mem[MapIndex(h, v)], v, shift, used, used + {ChunkAt(w, i)}, w, i);
      }
    }
  }

  lemma SetInWord(word: nat, w: nat, shift: nat, used: set<nat>, i: nat)
    requires SmallWord(word, w, shift, used) && i < WORD_BITS
    ensures SmallWord(SetBit(word, i), w, shift, used + {ChunkAt(w, i)})
  {
    WordSize();
    SetBitFits(word, i, WORD_BITS);
    forall b: nat | b < WORD_BITS
      ensures Bit(SetBit(word, i), b) <==> TakenAt(w, b, shift, used + {ChunkAt(w, i)})
    {
      BitOfSet(word, i, b);
    }
  }

  lemma ClearInWord(word: nat, w: nat, shift: nat, used: set<nat>, i: nat)
    requires SmallWord(word, w, shift, used) && i < WORD_BITS && ChunkAt(w, i) >= Reserved(shift)
    ensures SmallWord(ClearBit(word, i), w, shift, used - {ChunkAt(w, i)})
  {
    ClearBitFits(word, i);
    forall b: nat | b < WORD_BITS
      ensures Bit(ClearBit(word, i), b) <==> TakenAt(w, b, shift, used - {ChunkAt(w, i)})
    {
      BitOfClear(word, i, b);
    }
  }

  lemma OtherWord(word: nat, v: nat, shift: nat, used: set<nat>, u: set<nat>, w: nat, i: nat)
    requires SmallWord(word, v, shift, used) && v != w && i < WORD_BITS
    requires u == used + {ChunkAt(w, i)} || u == used - {ChunkAt(w, i)}
    ensures SmallWord(word, v, shift, u)
  {
    forall b: nat | b < WORD_BITS
      ensures Bit(word, b) <==> TakenAt(v, b, shift, u)
    {
      assert ChunkAt(v, b) != ChunkAt(w, i);
    }
  }

  lemma SmallGive(mem: seq<nat>, h: nat, shift: nat, used: set<nat>, w: nat, i: nat)
    requires 3 <= shift < EXACT_SHIFT && MapIndex(h + 1, 0) <= |mem| && SmallMap(mem, h, shift, used)
    requires w < Capacity(shift) / WORD_BITS && i < WORD_BITS && ChunkAt(w, i) >= Reserved(shift)
    ensures MapIndex(h, w) < |mem|
    ensures SmallMap(mem[MapIndex(h, w) := ClearBit(mem[MapIndex(h, w)], i)], h, shift, used - {ChunkAt(w, i)})
  {
    assert SmallWord(mem[MapIndex(h, w)], w, shift, used);
    var m := mem[MapIndex(h, w) := ClearBit(mem[MapIndex(h, w)], i)];
    forall v: nat | v < Capacity(shift) / WORD_BITS
      ensures v < PAGE_WORDS && SmallWord(m[MapIndex(h, v)], v, shift, used - {ChunkAt(w, i)})
    {
      assert SmallWord(mem[MapIndex(h, v)], v, shift, used);
      if v == w {
        ClearInWord(mem[MapIndex(h, w)], w, shift, used, i);
      } else {
        OtherWord(mem[MapIndex(h, v)], v, shift, used, used - {ChunkAt(w, i)}, w, i);
      }
    }
  }

  /** The emptiness test of the source: no bit above the bitmap's own, in any word. */
  lemma SmallEmpty(mem: seq<nat>, h: nat, shift: nat, used: set<nat>)
    requires 3 <= shift < EXACT_SHIFT && MapIndex(h + 1, 0) <= |mem| && SmallMap(mem, h, shift, used)
    requires ChunksInRange(shift, used)
    ensures used == {} <==>
      && ClearLow(mem[MapIndex(h, 0)], Reserved(shift)) == 0
      && forall w: nat :: 0 < w < Capacity(shift) / WORD_BITS ==> mem[MapIndex(h, w)] == 0
  {
    WordSize();
    assert SmallWord(mem[MapIndex(h, 0)], 0, shift, used);
    HighBits(mem[MapIndex(h, 0)], Reserved(shift), WORD_BITS);
    forall w: nat | 0 < w < Capacity(shift) / WORD_BITS
      ensures mem[MapIndex(h, w)] == 0 <==> NoneUsed(w, used)
    {
      assert SmallWord(mem[MapIndex(h, w)], w, shift, used);
      WordIsEmpty(mem[MapIndex(h, w)], w, shift, used);
    }
    if used != {} {
      var j :| j in used;
      var w, i := j / WORD_BITS, j % WORD_BITS;
      assert j == ChunkAt(w, i);
      if w == 0 {
        assert Bit(mem[MapIndex(h, 0)], i) && Reserved(shift) <= i;
      } else {
        assert !NoneUsed(w, used);
        assert w < Capacity(shift) / WORD_BITS;
      }
    } else {
      forall i: nat | Reserved(shift) <= i < WORD_BITS
        ensures !Bit(mem[MapIndex(h, 0)], i)
      {
        assert !TakenAt(0, i, shift, used);
      }
    }
  }

  ghost predicate NoneUsed(w: nat, used: set<nat>) {
    forall i: nat :: i < WORD_BITS ==> ChunkAt(w, i) !in used
  }

  lemma WordIsEmpty(word: nat, w: nat, shift: nat, used: set<nat>)
    requires SmallWord(word, w, shift, used) && w > 0 && Reserved(shift) <= WORD_BITS
    ensures word == 0 <==> NoneUsed(w, used)
  {
    WordSize();
    ZeroBits(word, WORD_BITS);
    assert forall i: nat :: i < WORD_BITS ==> (Bit(word, i) <==> ChunkAt(w, i) in used);
  }

  /** The bitmap of a fresh small-chunk page: its own chunks and the first one after them. */
  lemma SmallFresh(mem: seq<nat>, h: nat, shift: nat)
    requires 3 <= shift < EXACT_SHIFT && MapIndex(h + 1, 0) <= |mem|
    requires mem[MapIndex(h, 0)] == Pow2(Reserved(shift) + 1) - 1
    requires forall w: nat :: 0 < w < Capacity(shift) / WORD_BITS ==> mem[MapIndex(h, w)] == 0
    ensures SmallMap(mem, h, shift, {Reserved(shift)})
  {
    var used := {Reserved(shift)};
    forall w: nat | w < Capacity(shift) / WORD_BITS
      ensures w < PAGE_WORDS && SmallWord(mem[MapIndex(h, w)], w, shift, used)
    {
      forall i: nat | i < WORD_BITS
        ensures Bit(mem[MapIndex(h, w)], i) <==> TakenAt(w, i, shift, used)
      {
        if w == 0 {
          BitsOfMask(Reserved(shift) + 1, i);
        } else {
          BitsOfZero(i);
        }
      }
      assert Pow2(9) == 512;
    }
  }

  lemma ExactFull(slab: nat, used: set<nat>)
    requires ExactMap(slab, used)
    ensures IsFull(EXACT_SHIFT, used) <==> slab == ALL_ONES
    ensures ChunksInRange(EXACT_SHIFT, used) ==> (used == {} <==> slab == 0)
  {
    WordSize();
    FullBits(slab, WORD_BITS);
    ZeroBits(slab, WORD_BITS);
    if used != {} && ChunksInRange(EXACT_SHIFT, used) {
      var j :| j in used;
      assert Bit(slab, j);
    }
    assert IsFull(EXACT_SHIFT, used) <==> AllBits(slab, 0, WORD_BITS);
  }

  lemma ExactTake(slab: nat, used: set<nat>, i: nat)
    requires ExactMap(slab, used) && i < WORD_BITS
    ensures ExactMap(SetBit(slab, i), used + {i})
  {
    WordSize();
    SetBitFits(slab, i, WORD_BITS);
    forall b: nat | b < WORD_BITS
      ensures Bit(SetBit(slab, i), b) <==> b in used + {i}
    {
      BitOfSet(slab, i, b);
    }
  }

  lemma ExactGive(slab: nat, used: set<nat>, i: nat)
    requires ExactMap(slab, used) && i < WORD_BITS
    ensures ExactMap(ClearBit(slab, i), used - {i})
  {
    ClearBitFits(slab, i);
    forall b: nat | b < WORD_BITS
      ensures Bit(ClearBit(slab, i), b) <==> b in used - {i}
    {
      BitOfClear(slab, i, b);
    }
  }

  lemma ExactFresh()
    ensures ExactMap(1, {0})
  {
    forall b: nat | b < WORD_BITS
      ensures Bit(1, b) <==> b in {0}
    {
      BitsOfMask(1, b);
    }
  }

  lemma BigFull(slab: nat, shift: nat, used: set<nat>)
    requires EXACT_SHIFT < shift < 12 && BigMap(slab, shift, used) && ChunksInRange(shift, used)
    ensures IsFull(shift, used) <==> ClearLow(slab, MAP_SHIFT) == Shl(Pow2(Capacity(shift)) - 1, MAP_SHIFT)
    ensures used == {} <==> ClearLow(slab, MAP_SHIFT) == 0
  {
    WordSize();
    BigFits(slab, shift, used);
    HighBitsFull(slab, MAP_SHIFT, Capacity(shift));
    HighBits(slab, MAP_SHIFT, WORD_BITS);
    if IsFull(shift, used) {
      assert AllBits(slab, MAP_SHIFT, MAP_SHIFT + Capacity(shift));
    } else {
      var j :| Reserved(shift) <= j < Capacity(shift) && j !in used;
      assert !Bit(slab, MAP_SHIFT + j);
    }
    if used != {} {
      var j :| j in used;
      assert Bit(slab, MAP_SHIFT + j);
    }
  }

  /** No bit above the map: the map of a page with c chunks has c bits. */
  lemma BigFits(slab: nat, shift: nat, used: set<nat>)
    requires EXACT_SHIFT < shift < 12 && BigMap(slab, shift, used) && ChunksInRange(shift, used)
    ensures slab < Pow2(MAP_SHIFT + Capacity(shift))
  {
    WordSize();
    assert forall i: nat :: MAP_SHIFT + Capacity(shift) <= i < WORD_BITS ==> !Bit(slab, i);
    HighBits(slab, MAP_SHIFT + Capacity(shift), WORD_BITS);
    NoHighBits(slab, MAP_SHIFT + Capacity(shift));
  }

  lemma {:induction false} NoHighBits(w: nat, k: nat)
    requires ClearLow(w, k) == 0
    ensures w < Pow2(k)
  {
    if k > 0 {
      NoHighBits(w / 2, k - 1);
    }
  }

  lemma BigTake(slab: nat, shift: nat, used: set<nat>, j: nat)
    requires BigMap(slab, shift, used) && j < WORD_BITS - MAP_SHIFT
    ensures BigMap(SetBit(slab, MAP_SHIFT + j), shift, used + {j})
  {
    WordSize();
    SetBitFits(slab, MAP_SHIFT + j, WORD_BITS);
    LowOfSet(slab, MAP_SHIFT + j, MAP_SHIFT);
    forall b: nat {:trigger Bit(SetBit(slab, MAP_SHIFT + j), b)} | MAP_SHIFT <= b < WORD_BITS
      ensures Bit(SetBit(slab, MAP_SHIFT + j), b) <==> b - MAP_SHIFT in used + {j}
    {
      BitOfSet(slab, MAP_SHIFT + j, b);
    }
  }

  lemma BigGive(slab: nat, shift: nat, used: set<nat>, j: nat)
    requires BigMap(slab, shift, used) && j < WORD_BITS - MAP_SHIFT
    ensures BigMap(ClearBit(slab, MAP_SHIFT + j), shift, used - {j})
  {
    ClearBitFits(slab, MAP_SHIFT + j);
    LowOfClear(slab, MAP_SHIFT + j, MAP_SHIFT);
    forall b: nat {:trigger Bit(ClearBit(slab, MAP_SHIFT + j), b)} | MAP_SHIFT <= b < WORD_BITS
      ensures Bit(ClearBit(slab, MAP_SHIFT + j), b) <==> b - MAP_SHIFT in used - {j}
    {
      BitOfClear(slab, MAP_SHIFT + j, b);
    }
  }

  /** slab & SHIFT_MASK gives the shift back, whatever the map says. */
  lemma BigShift(slab: nat, shift: nat, used: set<nat>)
    requires BigMap(slab, shift, used) && shift < 16
    ensures Low(slab, 4) == shift
  {
    LowOfLow(slab, 4, MAP_SHIFT);
    assert Pow2(4) == 16;
    LowFits(shift, 4);
  }

  lemma BigFresh(shift: nat)
    requires shift < 16
    ensures BigMap(SetBit(shift, MAP_SHIFT), shift, {0})
  {
    WordSize();
    PowSplit(4, 28);
    PowSplit(32, 32);
    assert Pow2(4) == 16 && shift < Pow2(32);
    LowOfSet(shift, MAP_SHIFT, MAP_SHIFT);
    LowFits(shift, MAP_SHIFT);
    PowGrows(4, 32);
    SetBitFits(shift, MAP_SHIFT, WORD_BITS) by { PowGrows(4, WORD_BITS); }
    forall b: nat | MAP_SHIFT <= b < WORD_BITS
      ensures Bit(SetBit(shift, MAP_SHIFT), b) <==> b - MAP_SHIFT in {0}
    {
      BitOfSet(shift, MAP_SHIFT, b);
      SmallHasNoBit(shift, 4, b);
    }
  }

  lemma {:induction false} PowGrows(a: nat, b: nat)
    requires a <= b
    ensures Pow2(a) <= Pow2(b)
  {
    if a < b {
      PowGrows(a, b - 1);
    }
  }

  lemma {:induction false} SmallHasNoBit(w: nat, k: nat, b: nat)
    requires w < Pow2(k) && k <= b
    ensures !Bit(w, b)
  {
    if k == 0 {
      BitsOfZero(b);
    } else {
      SmallHasNoBit(w / 2, k - 1, b - 1);
    }
  }

  // ----- the records and the lists -----

  // Only the words of page `h` may differ.
  ghost predicate OnlyPage(mem: seq<nat>, m: seq<nat>, h: nat) {
    && |m| == |mem| && MapIndex(h + 1, 0) <= |mem|
    && forall q :: 0 <= q < |mem| && !(MapIndex(h, 0) <= q < MapIndex(h + 1, 0)) ==> m[q] == mem[q]
  }

  lemma OtherPages(mem: seq<nat>, m: seq<nat>, h: nat, x: nat)
    requires OnlyPage(mem, m, h) && x != h && MapIndex(x + 1, 0) <= |mem|
    ensures SameMap(mem, m, x)
  {
    assert x < h ==> MapIndex(x + 1, 0) <= MapIndex(h, 0);
    assert x > h ==> MapIndex(h + 1, 0) <= MapIndex(x, 0);
  }

  lemma EncodedOne(n: nat, rec: seq<Record>, r: seq<Record>, mem: seq<nat>, m: seq<nat>, blk: Blocks, h: nat, b: Block)
    requires Sized(n, rec, mem) && |r| == |rec| && Tiles(n, blk) && Encoded(n, rec, mem, blk) && OnlyPage(mem, m, h)
    requires h in blk && b.Len() == blk[h].Len() && OthersSame(n, rec, r, blk, h) && BlockOK(n, r, m, h, b)
    ensures Tiles(n, blk[h := b]) && Encoded(n, r, m, blk[h := b])
  {
    hide HeadOK, InnerOK, SameBody, SameMap;
    var c := blk[h := b];
    SameShape(n, blk, h, b);
    forall x | x in c
      ensures BlockOK(n, r, m, x, c[x])
    {
      if x != h {
        EncodedAt(n, rec, mem, blk, x);
        OtherPages(mem, m, h, x);
        KeepBlock(n, rec, r, mem, m, x, blk[x]);
      }
    }
  }

  lemma SameShape(n: nat, blk: Blocks, h: nat, b: Block)
    requires Tiles(n, blk) && h in blk && b.Len() == blk[h].Len()
    ensures Tiles(n, blk[h := b])
  {
    var c := blk[h := b];
    forall x | x in c
      ensures Follows(n, c, x)
    {
      assert Follows(n, blk, x);
    }
  }

  /** A chunk is taken or given back and the page stays where it is filed. */
  lemma ChunkChanged(n: nat, rec: seq<Record>, mem: seq<nat>, m: seq<nat>, blk: Blocks, lists: Lists,
                     h: nat, slab: nat, u: set<nat>)
    requires Sound(n, rec, mem, blk, lists) && h in blk && blk[h].Chunks? && OnlyPage(mem, m, h)
    requires ChunksInRange(blk[h].shift, u) && ChunkMap(slab, m, h, blk[h].shift, u)
    requires !IsFull(blk[h].shift, u) && !IsFull(blk[h].shift, blk[h].used)
    ensures h < n && Sound(n, rec[h := rec[h].(slab := slab)], m, blk[h := Chunks(blk[h].shift, u)], lists)
  {
    assert HeadOK(n, rec, mem, h, blk[h]);
    var r := rec[h := rec[h].(slab := slab)];
    EncodedOne(n, rec, r, mem, m, blk, h, Chunks(blk[h].shift, u));
    FiledApart(n, blk, lists);
    AllLinkFrame(n, rec, r, lists);
    FiledSame(blk, blk[h := Chunks(blk[h].shift, u)], lists);
  }

  /** The last free chunk is taken: the page leaves its slot list. */
  function Filled(rec: seq<Record>, h: nat, slab: nat, kind: Kind): seq<Record>
    requires h < |rec| && 0 <= rec[h].prev < |rec| && 0 <= rec[h].next < |rec|
  {
    Unlinked(rec[h := rec[h].(slab := slab)], h)[h := Record(slab, NULL, NULL, kind)]
  }

  lemma ChunkFills(n: nat, rec: seq<Record>, mem: seq<nat>, m: seq<nat>, blk: Blocks, lists: Lists,
                   h: nat, slab: nat, u: set<nat>, k: nat, i: nat)
    requires Sound(n, rec, mem, blk, lists) && h in blk && blk[h].Chunks? && OnlyPage(mem, m, h)
    requires ChunksInRange(blk[h].shift, u) && ChunkMap(slab, m, h, blk[h].shift, u) && IsFull(blk[h].shift, u)
    requires k < |lists| && i < |lists[k]| && lists[k][i] == h
    ensures h < |rec| && 0 <= rec[h].prev < |rec| && 0 <= rec[h].next < |rec|
    ensures Sound(n, Filled(rec, h, slab, KindOf(blk[h].shift)), m,
                  blk[h := Chunks(blk[h].shift, u)], lists[k := Without(lists[k], i)])
  {
    var b := blk[h := Chunks(blk[h].shift, u)];
    var s := rec[h := rec[h].(slab := slab)];
    assert HeadOK(n, rec, mem, h, blk[h]);
    FiledApart(n, blk, lists);
    KindsOnList(n, rec, mem, blk, lists, k);
    AllLinkFrame(n, rec, s, lists);
    UnlinkTouches(n, s, blk, lists, k, i, ListKind(k));
    FiledRemove(blk, b, lists, k, i);
    FillLinks(n, s, lists, k, i, Record(slab, NULL, NULL, KindOf(blk[h].shift)));
    var r := Filled(rec, h, slab, KindOf(blk[h].shift));
    forall y | y in blk && y != h
      ensures SameBody(rec, r, y, blk[y])
    {
      assert SameBody(s, Unlinked(s, h), y, blk[y]);
    }
    EncodedOne(n, rec, r, mem, m, blk, h, b[h]);
  }

  lemma FillLinks(n: nat, s: seq<Record>, lists: Lists, k: nat, i: nat, c: Record)
    requires AllLinked(n, s, lists) && Apart(n, lists) && |s| == n + 1 + SLOTS
    requires k < |lists| && i < |lists[k]|
    ensures lists[k][i] < n && 0 <= s[lists[k][i]].prev < |s| && 0 <= s[lists[k][i]].next < |s|
    ensures AllLinked(n, Unlinked(s, lists[k][i])[lists[k][i] := c], lists[k := Without(lists[k], i)])
  {
    assert lists[k][i] in lists[k];
    UnlinkAll(n, s, lists, k, i);
    WithoutElements(lists[k], i);
    var l := lists[k := Without(lists[k], i)];
    var u := Unlinked(s, lists[k][i]);
    assert Apart(n, l) by {
      forall p: nat, q: nat | p < |l| && q < |l| && p != q
        ensures forall x :: x in l[p] ==> x !in l[q]
      {
        assert forall x :: x in lists[p] ==> x !in lists[q];
      }
    }
    forall p: nat | p < |l|
      ensures lists[k][i] !in l[p]
    {
    }
    AllLinkFrame(n, u, u[lists[k][i] := c], l);
  }

  /** A full page gets a free chunk: it goes to the head of its slot list. */
  function Relisted(n: nat, rec: seq<Record>, k: nat, h: nat, slab: nat, kind: Kind): seq<Record>
    requires h < |rec| && n + k < |rec| && 0 <= rec[n + k].next < |rec|
  {
    var r := Pushed(rec, n + k, h, kind);
    r[h := r[h].(slab := slab)]
  }

  lemma ChunkReopens(n: nat, rec: seq<Record>, mem: seq<nat>, m: seq<nat>, blk: Blocks, lists: Lists,
                     h: nat, slab: nat, u: set<nat>, k: nat)
    requires Sound(n, rec, mem, blk, lists) && h in blk && blk[h].Chunks? && OnlyPage(mem, m, h)
    requires ChunksInRange(blk[h].shift, u) && ChunkMap(slab, m, h, blk[h].shift, u) && !IsFull(blk[h].shift, u)
    requires IsFull(blk[h].shift, blk[h].used) && k == blk[h].shift - 2
    ensures h < n && k < |lists| && 0 <= rec[n + k].next < |rec|
    ensures Sound(n, Relisted(n, rec, k, h, slab, KindOf(blk[h].shift)), m,
                  blk[h := Chunks(blk[h].shift, u)], lists[k := [h] + lists[k]])
  {
    var b := blk[h := Chunks(blk[h].shift, u)];
    assert HeadOK(n, rec, mem, h, blk[h]);
    KindsOnList(n, rec, mem, blk, lists, k);
    ReopenLinks(n, rec, blk, lists, h, k, slab, KindOf(blk[h].shift));
    FiledInsert(blk, b, lists, k, h);
    EncodedOne(n, rec, Relisted(n, rec, k, h, slab, KindOf(blk[h].shift)), mem, m, blk, h, b[h]);
  }

  lemma ReopenLinks(n: nat, rec: seq<Record>, blk: Blocks, lists: Lists, h: nat, k: nat, slab: nat, kind: Kind)
    requires Tiles(n, blk) && AllLinked(n, rec, lists) && Filed(blk, lists) && |rec| == n + 1 + SLOTS
    requires h in blk && Place(blk, h) == -1 && k < |lists| && SameKinds(rec, lists[k], kind)
    ensures 0 <= rec[n + k].next < |rec|
    ensures var r := Relisted(n, rec, k, h, slab, kind);
      && AllLinked(n, r, lists[k := [h] + lists[k]]) && OthersSame(n, rec, r, blk, h)
      && r[h].slab == slab && r[h].kind == kind
  {
    FiledApart(n, blk, lists);
    forall l: nat | l < |lists|
      ensures h !in lists[l]
    {
      assert FiledIn(blk, lists[l], l);
    }
    PushTouches(n, rec, blk, lists, k, h, kind);
    PushAll(n, rec, lists, k, h, kind);
    var p := Pushed(rec, n + k, h, kind);
    var r := Relisted(n, rec, k, h, slab, kind);
    forall y | y in blk && y != h
      ensures SameBody(rec, r, y, blk[y])
    {
      assert SameBody(rec, p, y, blk[y]);
    }
    SlabRings(n, p, r, lists[k := [h] + lists[k]]);
  }

  /** Rings do not look at the slab word. */
  lemma SlabRings(n: nat, rec: seq<Record>, r: seq<Record>, lists: Lists)
    requires AllLinked(n, rec, lists) && |r| == |rec|
    requires forall q :: 0 <= q < |rec| ==> r[q].next == rec[q].next && r[q].prev == rec[q].prev
    ensures AllLinked(n, r, lists)
  {
    forall l: nat | l < |lists|
      ensures Linked(r, n + l, lists[l])
    {
      assert Linked(rec, n + l, lists[l]);
      LinkFrame(rec, r, n + l, lists[l]);
    }
  }

  /** A fresh page is cut into chunks and becomes the only page of its slot. */
  function Carved(n: nat, rec: seq<Record>, k: nat, h: nat, slab: nat, kind: Kind): seq<Record>
    requires h < |rec| && n + k < |rec|
  {
    var r := rec[h := Record(slab, n + k, n + k, kind)];
    r[n + k := r[n + k].(next := h)]
  }

  lemma PageCarved(n: nat, rec: seq<Record>, mem: seq<nat>, m: seq<nat>, blk: Blocks, lists: Lists,
                   h: nat, slab: nat, shift: nat, u: set<nat>)
    requires Sound(n, rec, mem, blk, lists) && h in blk && blk[h] == Run(1) && OnlyPage(mem, m, h)
    requires IsShift(shift) && ChunksInRange(shift, u) && ChunkMap(slab, m, h, shift, u) && !IsFull(shift, u)
    requires lists[shift - 2] == []
    ensures h < n && Sound(n, Carved(n, rec, shift - 2, h, slab, KindOf(shift)), m,
                           blk[h := Chunks(shift, u)], lists[shift - 2 := [h]])
  {
    var k := shift - 2;
    var b := blk[h := Chunks(shift, u)];
    var r := Carved(n, rec, k, h, slab, KindOf(shift));
    FiledApart(n, blk, lists);
    forall l: nat | l < |lists|
      ensures h !in lists[l]
    {
      assert FiledIn(blk, lists[l], l) && Place(blk, h) == -1;
    }
    FiledInsert(blk, b, lists, k, h);
    assert [h] + lists[k] == [h];
    EncodedOne(n, rec, r, mem, m, blk, h, b[h]);
    CarveLinks(n, rec, r, lists, k, h);
  }

  lemma CarveLinks(n: nat, rec: seq<Record>, r: seq<Record>, lists: Lists, k: nat, h: nat)
    requires AllLinked(n, rec, lists) && Apart(n, lists) && |r| == |rec| == n + 1 + SLOTS && h < n && k < |lists|
    requires r[h].prev == r[h].next == n + k && r[n + k].next == h
    requires forall q :: 0 <= q < |rec| && q != h && q != n + k ==> r[q] == rec[q]
    requires forall l: nat {:trigger lists[l]} :: l < |lists| ==> h !in lists[l]
    ensures AllLinked(n, r, lists[k := [h]])
  {
    var l := lists[k := [h]];
    forall q: nat | q < |l|
      ensures Linked(r, n + q, l[q])
    {
      if q == k {
        assert LinkAt(r, n + k, [h], 0);
      } else {
        assert Linked(rec, n + q, lists[q]);
        assert forall x :: x in lists[q] ==> x < n && x != h;
        LinkFrame(rec, r, n + q, lists[q]);
      }
    }
  }
}
