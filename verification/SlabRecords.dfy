/** How a pool's page records, list links and in-page bitmaps encode its blocks.

    A record cell is named by an index: pages 0 .. n-1, then the head of the free list, then one
    head per slot. The low two bits of the C field `prev` are kept apart, as `kind`. */
module SlabRecords {
  import opened Common
  import opened Words
  import opened SlabBlocks

  const NULL: int := -1
  const SLOTS: nat := 9
  const PAGE_WORDS: nat := 512
  const PAGE_START: nat := 0x8000_0000_0000_0000
  const PAGE_BUSY: nat := ALL_ONES
  const EXACT_SHIFT: nat := 6
  const MAP_SHIFT: nat := 32

  datatype Kind = PAGE | BIG | EXACT | SMALL

  datatype Record = Record(slab: nat, next: int, prev: int, kind: Kind)

  function KindOf(shift: nat): Kind {
    if shift < EXACT_SHIFT then SMALL else if shift == EXACT_SHIFT then EXACT else BIG
  }

  // ----- one block -----

  predicate IsShift(shift: nat) {
    3 <= shift < 12
  }

  ghost predicate ChunksInRange(shift: nat, used: set<nat>) {
    forall j :: j in used ==> Reserved(shift) <= j < Capacity(shift)
  }

  predicate IsFull(shift: nat, used: set<nat>) {
    forall j :: Reserved(shift) <= j < Capacity(shift) ==> j in used
  }

  // Word `w` of the bitmap at the start of page `h`.
  function MapIndex(h: nat, w: nat): nat {
    h * PAGE_WORDS + w
  }

  /** Small chunks: bit j of the in-page bitmap says that chunk j is taken; the bitmap's own
      chunks count as taken for ever. */
  ghost predicate SmallMap(mem: seq<nat>, h: nat, shift: nat, used: set<nat>)
    requires MapIndex(h + 1, 0) <= |mem|
  {
    forall w: nat :: w < Capacity(shift) / WORD_BITS ==>
      w < PAGE_WORDS && SmallWord(mem[MapIndex(h, w)], w, shift, used)
  }

  ghost predicate SmallWord(word: nat, w: nat, shift: nat, used: set<nat>) {
    && word <= ALL_ONES
    && forall i: nat :: i < WORD_BITS ==> (Bit(word, i) <==> TakenAt(w, i, shift, used))
  }

  // Chunk i of the 64 that bitmap word w speaks for.
  function ChunkAt(w: nat, i: nat): nat {
    w * WORD_BITS + i
  }

  predicate TakenAt(w: nat, i: nat, shift: nat, used: set<nat>) {
    ChunkAt(w, i) < Reserved(shift) || ChunkAt(w, i) in used
  }

  ghost predicate ExactMap(slab: nat, used: set<nat>) {
    && slab <= ALL_ONES
    && forall i: nat :: i < WORD_BITS ==> (Bit(slab, i) <==> i in used)
  }

  /** Big chunks: the map is in the high half of the word, the shift in the low half. */
  ghost predicate BigMap(slab: nat, shift: nat, used: set<nat>) {
    && slab <= ALL_ONES
    && Low(slab, MAP_SHIFT) == shift
    && forall i: nat :: MAP_SHIFT <= i < WORD_BITS ==> (Bit(slab, i) <==> i - MAP_SHIFT in used)
  }

  ghost predicate ChunkMap(slab: nat, mem: seq<nat>, h: nat, shift: nat, used: set<nat>)
    requires MapIndex(h + 1, 0) <= |mem|
  {
    match KindOf(shift)
    case SMALL => slab == shift && SmallMap(mem, h, shift, used)
    case EXACT => ExactMap(slab, used)
    case _ => BigMap(slab, shift, used)
  }

  ghost predicate Sized(n: nat, rec: seq<Record>, mem: seq<nat>) {
    && 0 < n < PAGE_START - 1
    && |rec| == n + 1 + SLOTS
    && |mem| == n * PAGE_WORDS
  }

  /** The record of a block's first page. */
  ghost predicate HeadOK(n: nat, rec: seq<Record>, mem: seq<nat>, h: nat, b: Block)
    requires Sized(n, rec, mem) && h < n
  {
    match b
    case Free(k) => rec[h].slab == k && rec[h].kind == PAGE
    case Loose(k) => rec[h].slab == k
    case Run(k) => rec[h].slab == PAGE_START + k && rec[h].kind == PAGE && rec[h].next == NULL
    case Chunks(shift, used) =>
      && IsShift(shift) && ChunksInRange(shift, used)
      && rec[h].kind == KindOf(shift)
      && (IsFull(shift, used) ==> rec[h].next == NULL)
      && ChunkMap(rec[h].slab, mem, h, shift, used)
  }

  /** The record of page `q` inside block `h`, after its first page. */
  ghost predicate InnerOK(n: nat, rec: seq<Record>, h: nat, b: Block, q: nat)
    requires |rec| == n + 1 + SLOTS && q < n
  {
    && rec[q].kind == PAGE && rec[q].next == NULL
    && rec[q].slab == (if b.Run? then PAGE_BUSY else 0)
    && (b.Free? && q + 1 == h + b.Len() && q + 1 < n ==> rec[q].prev == h)
  }

  ghost predicate Encoded(n: nat, rec: seq<Record>, mem: seq<nat>, blk: Blocks)
    requires Sized(n, rec, mem) && Tiles(n, blk)
  {
    && (forall h {:trigger HeadOK(n, rec, mem, h, blk[h])} :: h in blk ==> HeadOK(n, rec, mem, h, blk[h]))
    && (forall h, q {:trigger InnerOK(n, rec, h, blk[h], q)} :: h in blk && h < q < h + blk[h].Len() ==>
          InnerOK(n, rec, h, blk[h], q))
  }

  // ----- the lists -----

  type Lists = seq<seq<nat>>

  function Pred(head: nat, s: seq<nat>, i: nat): nat
    requires i < |s|
  {
    if i == 0 then head else s[i - 1]
  }

  function Succ(head: nat, s: seq<nat>, i: nat): nat
    requires i < |s|
  {
    if i == |s| - 1 then head else s[i + 1]
  }

  function First(head: nat, s: seq<nat>): nat {
    if s == [] then head else s[0]
  }

  /** The cells `s`, in this order, form a doubly linked ring with `head`; the head's own `prev`
      is not used. */
  ghost predicate Linked(rec: seq<Record>, head: nat, s: seq<nat>) {
    && head < |rec|
    && rec[head].next == First(head, s)
    && forall i: nat {:trigger LinkAt(rec, head, s, i)} :: i < |s| ==> LinkAt(rec, head, s, i)
  }

  ghost predicate LinkAt(rec: seq<Record>, head: nat, s: seq<nat>, i: nat)
    requires i < |s|
  {
    s[i] < |rec| && rec[s[i]].prev == Pred(head, s, i) && rec[s[i]].next == Succ(head, s, i)
  }

  ghost predicate AllLinked(n: nat, rec: seq<Record>, lists: Lists) {
    |lists| == 1 + SLOTS && forall k: nat :: k < |lists| ==> Linked(rec, n + k, lists[k])
  }

  // Which list holds a block: 0 is the free list, 1 + slot the pages of a slot with room left.
  function ListOf(b: Block): int {
    match b
    case Free(_) => 0
    case Chunks(shift, used) => if IsFull(shift, used) then -1 else shift - 2
    case _ => -1
  }

  function Place(blk: Blocks, x: nat): int {
    if x in blk then ListOf(blk[x]) else -1
  }

  ghost predicate Filed(blk: Blocks, lists: Lists) {
    && |lists| == 1 + SLOTS
    && (forall k: nat {:trigger lists[k]} :: k < |lists| ==> FiledIn(blk, lists[k], k))
  }

  // The list holds exactly the blocks that belong on list k, each once.
  ghost predicate FiledIn(blk: Blocks, s: seq<nat>, k: nat) {
    Distinct(s) && forall x: nat :: x in s <==> Place(blk, x) == k
  }

  /** Everything but the counters. */
  ghost predicate Sound(n: nat, rec: seq<Record>, mem: seq<nat>, blk: Blocks, lists: Lists) {
    && Sized(n, rec, mem) && Tiles(n, blk) && |lists| == 1 + SLOTS
    && Encoded(n, rec, mem, blk) && AllLinked(n, rec, lists) && Filed(blk, lists)
  }

  // ----- what the link operations of the source do to the records -----

  // prev = page_prev(page); prev->next = page->next; page->next->prev = page->prev;
  function Unlinked(rec: seq<Record>, x: nat): seq<Record>
    requires x < |rec| && 0 <= rec[x].prev < |rec| && 0 <= rec[x].next < |rec|
  {
    var r := rec[rec[x].prev := rec[rec[x].prev].(next := rec[x].next)];
    r[rec[x].next := r[rec[x].next].(prev := rec[x].prev, kind := rec[x].kind)]
  }

  // page->next = head->next; page->prev = head | kind; page->next->prev = page | kind; head->next = page;
  function Pushed(rec: seq<Record>, head: nat, x: nat, kind: Kind): seq<Record>
    requires x < |rec| && head < |rec| && 0 <= rec[head].next < |rec|
  {
    var first := rec[head].next;
    var r := rec[x := rec[x].(next := first, prev := head, kind := kind)];
    var r := r[first := r[first].(prev := x, kind := kind)];
    r[head := r[head].(next := x)]
  }

  // p = page->prev; p->next = y; page->next->prev = y;   with y's own links copied from page
  function Replaced(rec: seq<Record>, x: nat, y: nat, slab: nat): seq<Record>
    requires x < |rec| && y < |rec| && 0 <= rec[x].prev < |rec| && 0 <= rec[x].next < |rec|
  {
    var r := rec[y := Record(slab, rec[x].next, rec[x].prev, rec[x].kind)];
    var r := r[rec[x].prev := r[rec[x].prev].(next := y)];
    r[rec[x].next := r[rec[x].next].(prev := y, kind := PAGE)]
  }

  function Without(s: seq<nat>, i: nat): seq<nat>
    requires i < |s|
  {
    s[..i] + s[i + 1..]
  }

  function With(s: seq<nat>, i: nat, y: nat): seq<nat>
    requires i < |s|
  {
    s[i := y]
  }

  // ----- single-list lemmas -----

  lemma WithoutElements(s: seq<nat>, i: nat)
    requires Distinct(s) && i < |s|
    ensures Distinct(Without(s, i))
    ensures forall x :: x in Without(s, i) <==> x in s && x != s[i]
    ensures forall j :: 0 <= j < |s| - 1 ==> Without(s, i)[j] == s[if j < i then j else j + 1]
  {
    var t := Without(s, i);
    forall x | x in s && x != s[i]
      ensures x in t
    {
      var j :| 0 <= j < |s| && s[j] == x;
      assert t[if j < i then j else j - 1] == x;
    }
  }

  lemma UnlinkOne(rec: seq<Record>, head: nat, s: seq<nat>, i: nat)
    requires Linked(rec, head, s) && Distinct(s) && head !in s && i < |s|
    ensures LinkAt(rec, head, s, i)
    ensures i > 0 ==> s[i - 1] < |rec|
    ensures i + 1 < |s| ==> s[i + 1] < |rec|
    ensures Linked(Unlinked(rec, s[i]), head, Without(s, i))
  {
    assert LinkAt(rec, head, s, i);
    assert i > 0 ==> LinkAt(rec, head, s, i - 1);
    assert i + 1 < |s| ==> LinkAt(rec, head, s, i + 1);
    var t := Without(s, i);
    var r := Unlinked(rec, s[i]);
    WithoutElements(s, i);
    forall j: nat | j < |t|
      ensures LinkAt(r, head, t, j)
    {
      var j' := if j < i then j else j + 1;
      assert LinkAt(rec, head, s, j');
      assert t[j] == s[j'];
      assert s[j'] != head && s[j'] in s;
    }
  }

  lemma PushOne(rec: seq<Record>, head: nat, s: seq<nat>, x: nat, kind: Kind)
    requires Linked(rec, head, s) && Distinct(s) && head !in s && x !in s && x < |rec| && x != head
    ensures 0 <= rec[head].next < |rec|
    ensures Linked(Pushed(rec, head, x, kind), head, [x] + s) && Distinct([x] + s)
  {
    assert s != [] ==> LinkAt(rec, head, s, 0);
    var t := [x] + s;
    var r := Pushed(rec, head, x, kind);
    forall j: nat | j < |t|
      ensures LinkAt(r, head, t, j)
    {
      if j > 0 {
        assert t[j] == s[j - 1] && s[j - 1] in s;
        assert LinkAt(rec, head, s, j - 1);
      }
    }
  }

  lemma ReplaceOne(rec: seq<Record>, head: nat, s: seq<nat>, i: nat, y: nat, slab: nat)
    requires Linked(rec, head, s) && Distinct(s) && head !in s && i < |s| && y !in s && y < |rec| && y != head
    ensures LinkAt(rec, head, s, i)
    ensures i > 0 ==> s[i - 1] < |rec|
    ensures i + 1 < |s| ==> s[i + 1] < |rec|
    ensures Linked(Replaced(rec, s[i], y, slab), head, With(s, i, y))
  {
    assert LinkAt(rec, head, s, i);
    assert i > 0 ==> LinkAt(rec, head, s, i - 1);
    assert i + 1 < |s| ==> LinkAt(rec, head, s, i + 1);
    var t := With(s, i, y);
    var r := Replaced(rec, s[i], y, slab);
    forall j: nat | j < |t|
      ensures LinkAt(r, head, t, j)
    {
      if j != i {
        assert t[j] == s[j] && s[j] in s;
        assert LinkAt(rec, head, s, j);
      }
    }
  }

  lemma ReplaceElements(s: seq<nat>, i: nat, y: nat)
    requires Distinct(s) && i < |s| && y !in s
    ensures Distinct(With(s, i, y))
    ensures forall x :: x in With(s, i, y) <==> x == y || (x in s && x != s[i])
  {
    var t := With(s, i, y);
    assert t[i] == y;
    forall x | x in s && x != s[i]
      ensures x in t
    {
      var j :| 0 <= j < |s| && s[j] == x;
      assert t[j] == x;
    }
  }

  /** A ring does not notice changes to cells outside it. */
  lemma LinkFrame(rec: seq<Record>, r: seq<Record>, head: nat, s: seq<nat>)
    requires Linked(rec, head, s) && |r| == |rec| && r[head].next == rec[head].next
    requires forall x :: x in s && x < |rec| ==> r[x].prev == rec[x].prev && r[x].next == rec[x].next
    ensures Linked(r, head, s)
  {
    forall i: nat | i < |s|
      ensures LinkAt(r, head, s, i)
    {
      assert LinkAt(rec, head, s, i) && s[i] in s;
    }
  }
}
