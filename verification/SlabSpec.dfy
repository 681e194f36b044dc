/** What a slab pool promises, in terms of its live blocks alone. */
module SlabSpec {
  import opened Words
  import opened SlabBlocks
  import opened SlabRecords

  datatype Stat = Stat(total: nat, used: nat, reqs: nat, fails: nat)

  // ----- requests and size classes -----

  const PAGE_SIZE: nat := 4096
  const MAX_SIZE: nat := 2048

  function PagesFor(size: nat): nat {
    size / PAGE_SIZE + if size % PAGE_SIZE != 0 then 1 else 0
  }

  /** The pages of a request: `k` pages are enough exactly if their bytes are. */
  lemma PagesAreEnough(size: nat, k: nat)
    ensures PagesFor(size) <= k <==> size <= 4096 * k
  {
  }

  function ChunkSize(shift: nat): nat {
    match shift
    case 3 => 8
    case 4 => 16
    case 5 => 32
    case 6 => 64
    case 7 => 128
    case 8 => 256
    case 9 => 512
    case 10 => 1024
    case _ => 2048
  }

  /** A chunk has 2^shift bytes, the chunks fill the page, and the first ones hold a bit for each of them if
      the record's word has not enough. */
  lemma PageOfChunks(shift: nat)
    requires IsShift(shift)
    ensures ChunkSize(shift) == Pow2(shift) && Capacity(shift) * ChunkSize(shift) == 4096
    ensures Capacity(shift) <= 64 ==> Reserved(shift) == 0
    ensures Capacity(shift) > 64 ==>
      (Reserved(shift) - 1) * ChunkSize(shift) * 8 < Capacity(shift) <= Reserved(shift) * ChunkSize(shift) * 8
  {
    assert Pow2(3) == 8;
    assert Pow2(5) == 2 * (2 * Pow2(3)) && Pow2(7) == 2 * (2 * Pow2(5)) && Pow2(9) == 2 * (2 * Pow2(7));
    assert Pow2(11) == 2 * (2 * Pow2(9));
  }

  // A page of this slot with a free chunk.
  ghost predicate Open(blk: Blocks, page: nat, shift: nat) {
    page in blk && blk[page].Chunks? && blk[page].shift == shift && !IsFull(shift, blk[page].used)
  }

  /** The lowest free chunk of `page`, and nothing else, became used. */
  ghost predicate Taken(a: Blocks, b: Blocks, page: nat, shift: nat, j: int) {
    && Open(a, page, shift)
    && Reserved(shift) <= j < Capacity(shift) && j !in a[page].used
    && (forall i: nat :: Reserved(shift) <= i < j ==> i in a[page].used)
    && b == a[page := Chunks(shift, a[page].used + {j})]
  }

  // The smallest chunk, 8 bytes or more, that holds `size` bytes.
  predicate IsClass(size: nat, shift: nat) {
    IsShift(shift) && size <= ChunkSize(shift) && (shift > 3 ==> ChunkSize(shift - 1) < size)
  }

  ghost predicate RunTooLong(blk: Blocks, pages: nat) {
    forall h :: h in blk && blk[h].Free? ==> blk[h].pages < pages
  }

  /** No free run is long enough and, for a small request, no page of its class has a free chunk. */
  ghost predicate NoRoom(blk: Blocks, size: nat) {
    if size > MAX_SIZE then RunTooLong(blk, PagesFor(size))
    else RunTooLong(blk, 1) && forall h, shift :: h in blk && IsClass(size, shift) ==> !Open(blk, h, shift)
  }

  function UsedIn(busy: Blocks, h: nat): set<nat> {
    if h in busy && busy[h].Chunks? then busy[h].used else {}
  }

  /** `addr` is granted for `size` bytes: pages of a new run, the lowest free chunk of a page of the
      right class, or the first chunk of a fresh page when no page of the class has a free one. */
  ghost predicate AllocStep(a: Blocks, b: Blocks, size: nat, addr: nat, h: nat, j: nat) {
    if size > MAX_SIZE then
      && addr == h * PAGE_SIZE && h !in Busy(a)
      && Busy(b) == Busy(a)[h := Run(PagesFor(size))]
    else
      exists shift :: IsClass(size, shift) && ChunkStep(a, b, addr, h, shift, j)
  }

  ghost predicate ChunkStep(a: Blocks, b: Blocks, addr: nat, h: nat, shift: nat, j: nat) {
    && addr == h * PAGE_SIZE + j * ChunkSize(shift)
    && Reserved(shift) <= j < Capacity(shift) && j !in UsedIn(Busy(a), h)
    && (if h in Busy(a) then Open(a, h, shift) else j == Reserved(shift) && forall x :: x in a ==> !Open(a, x, shift))
    && (forall i: nat :: h in Busy(a) && Reserved(shift) <= i < j ==> i in UsedIn(Busy(a), h))
    && Busy(b) == Busy(a)[h := Chunks(shift, UsedIn(Busy(a), h) + {j})]
  }

  // ----- live allocations as address ranges -----

  ghost predicate LiveRun(blk: Blocks, addr: int, size: nat, h: nat) {
    h in blk && blk[h].Run? && addr == h * PAGE_SIZE && size == blk[h].pages * PAGE_SIZE
  }

  ghost predicate LiveChunk(blk: Blocks, addr: int, size: nat, h: nat, j: nat) {
    && h in blk && blk[h].Chunks? && j in blk[h].used
    && addr == h * PAGE_SIZE + j * ChunkSize(blk[h].shift) && size == ChunkSize(blk[h].shift)
  }

  ghost predicate LiveAt(blk: Blocks, addr: int, size: nat, h: nat, j: nat) {
    LiveRun(blk, addr, size, h) || LiveChunk(blk, addr, size, h, j)
  }

  /** The `size` bytes at `addr` were granted and not yet freed. */
  ghost predicate Live(blk: Blocks, addr: int, size: nat) {
    exists h: nat, j: nat :: LiveAt(blk, addr, size, h, j)
  }

  ghost predicate IsLive(blk: Blocks, addr: int) {
    exists size: nat :: Live(blk, addr, size)
  }

  // The address of one of the chunks that the bitmap of a small-chunk page occupies.
  ghost predicate BitmapChunk(blk: Blocks, addr: int, h: nat, j: nat) {
    h in blk && blk[h].Chunks? && j < Reserved(blk[h].shift) && addr == h * PAGE_SIZE + j * ChunkSize(blk[h].shift)
  }

  ghost predicate InBitmap(blk: Blocks, addr: int) {
    exists h: nat, j: nat :: BitmapChunk(blk, addr, h, j)
  }

  datatype FreeResult =
    | Freed | OutsideOfPool | WrongChunk | ChunkAlreadyFree | PageAlreadyFree | WrongPage | PastTheRecords

  /** The block that was live at `addr`, and nothing else, is gone. */
  ghost predicate FreeStep(a: Blocks, b: Blocks, addr: int, h: nat, j: nat) {
    && h in a
    && (if a[h].Run? then addr == h * PAGE_SIZE && Busy(b) == Busy(a) - {h}
        else
          && a[h].Chunks? && j in a[h].used && addr == h * PAGE_SIZE + j * ChunkSize(a[h].shift)
          && ChunkGone(a, b, h, j))
  }

  ghost predicate ChunkGone(a: Blocks, b: Blocks, h: nat, j: nat)
    requires h in a && a[h].Chunks?
  {
    Busy(b) == if a[h].used == {j} then Busy(a) - {h} else Busy(a)[h := Chunks(a[h].shift, a[h].used - {j})]
  }

  /** A small request counts in its class; a small request that failed also counts as a failure. */
  ghost predicate Requested(a: seq<Stat>, b: seq<Stat>, size: nat, failed: bool) {
    && |a| == |b| == SLOTS
    && forall s: nat {:trigger b[s]} :: s < SLOTS ==>
        var hit := size <= MAX_SIZE && IsClass(size, s + 3);
        && b[s].reqs == a[s].reqs + (if hit then 1 else 0)
        && b[s].fails == a[s].fails + (if hit && failed then 1 else 0)
  }
}
