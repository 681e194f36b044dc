/** The pages of a slab pool seen as a partition into blocks, with no record or pointer in sight:
    what "maximal free runs" means, and why the free runs are determined by the live blocks. */
module SlabBlocks {

  /** A block is named by its first page. `Run` is a page allocation, `Chunks` a page cut into
      2^shift-byte chunks, `Loose` a run that free_pages is still merging. */
  datatype Block =
    | Free(pages: nat)
    | Loose(pages: nat)
    | Run(pages: nat)
    | Chunks(shift: nat, used: set<nat>)
  {
    function Len(): nat {
      if Chunks? then 1 else pages
    }
  }

  type Blocks = map<nat, Block>

  /** The blocks cover pages 0 .. n-1 without gap or overlap. */
  ghost predicate Tiles(n: nat, blk: Blocks) {
    n > 0 && 0 in blk && Sizes(n, blk) && Chain(n, blk) && NoOverlap(blk)
  }

  ghost predicate Sizes(n: nat, blk: Blocks) {
    forall h :: h in blk ==> blk[h].Len() > 0 && h + blk[h].Len() <= n
  }

  ghost predicate Chain(n: nat, blk: Blocks) {
    forall h {:trigger Follows(n, blk, h)} :: h in blk ==> Follows(n, blk, h)
  }

  ghost predicate NoOverlap(blk: Blocks) {
    forall g, h :: g in blk && h in blk && g < h ==> g + blk[g].Len() <= h
  }

  // The block after `h` starts where `h` ends, unless `h` is the last one.
  predicate Follows(n: nat, blk: Blocks, h: nat)
    requires h in blk
  {
    h + blk[h].Len() == n || h + blk[h].Len() in blk
  }

  /** No two free blocks touch. */
  ghost predicate Maximal(blk: Blocks) {
    forall h {:trigger Alone(blk, h)} :: h in blk ==> Alone(blk, h)
  }

  predicate Alone(blk: Blocks, h: nat)
    requires h in blk
  {
    blk[h].Free? && h + blk[h].pages in blk ==> !blk[h + blk[h].pages].Free?
  }

  predicate Covers(blk: Blocks, h: nat, p: nat) {
    h in blk && h <= p < h + blk[h].Len()
  }

  function Busy(blk: Blocks): Blocks {
    map h | h in blk && !blk[h].Free? :: blk[h]
  }

  ghost predicate NoLoose(blk: Blocks) {
    forall h :: h in blk ==> !blk[h].Loose?
  }

  // ----- finding the block of a page -----

  /** Every page lies in exactly one block. */
  lemma {:induction false} BlockOf(n: nat, blk: Blocks, p: nat, from: nat := 0) returns (h: nat)
    requires Tiles(n, blk) && from in blk && from <= p < n
    ensures Covers(blk, h, p) && forall g :: Covers(blk, g, p) ==> g == h
    decreases n - from
  {
    assert Follows(n, blk, from);
    var next := from + blk[from].Len();
    if p < next {
      h := from;
    } else {
      h := BlockOf(n, blk, p, next);
    }
  }

  /** The block that ends where block `h` starts. */
  lemma Before(n: nat, blk: Blocks, h: nat) returns (g: nat)
    requires Tiles(n, blk) && h in blk && h > 0
    ensures g in blk && g < h && g + blk[g].Len() == h
  {
    g := BlockOf(n, blk, h - 1);
    assert Follows(n, blk, g);
  }

  // ----- the free runs depend on the live blocks alone -----

  lemma {:induction false} SameUpTo(n: nat, a: Blocks, b: Blocks, h: nat)
    requires Tiles(n, a) && Tiles(n, b) && Maximal(a) && Maximal(b) && Busy(a) == Busy(b)
    requires h in a
    ensures h in b && b[h] == a[h]
    decreases h
  {
    if h > 0 {
      var g := Before(n, a, h);
      SameUpTo(n, a, b, g);
      assert Follows(n, b, g);
    }
    assert h in b;
    assert h in Busy(a) <==> !a[h].Free?;
    assert h in Busy(b) <==> !b[h].Free?;
    if a[h].Free? {
      NotLonger(n, a, b, h);
      NotLonger(n, b, a, h);
    }
  }

  lemma NotLonger(n: nat, a: Blocks, b: Blocks, h: nat)
    requires Tiles(n, a) && Tiles(n, b) && Maximal(a) && Busy(a) == Busy(b)
    requires h in a && h in b && a[h].Free? && b[h].Free?
    ensures a[h].pages >= b[h].pages
  {
    var e := h + a[h].pages;
    assert Follows(n, a, h) && Alone(a, h);
    assert e in a ==> e in Busy(a);
    assert e in Busy(b) ==> e in b;
  }

  /** History does not matter: two pools with the same live blocks have the same free runs. */
  lemma FreeRunsAreDetermined(n: nat, a: Blocks, b: Blocks)
    requires Tiles(n, a) && Tiles(n, b) && Maximal(a) && Maximal(b) && Busy(a) == Busy(b)
    ensures a == b
  {
    forall h | h in a
      ensures h in b && b[h] == a[h]
    {
      SameUpTo(n, a, b, h);
    }
    forall h | h in b
      ensures h in a
    {
      SameUpTo(n, b, a, h);
    }
  }

  /** With nothing live, all pages form one run again. */
  lemma NothingLiveIsOneRun(n: nat, blk: Blocks)
    requires Tiles(n, blk) && Maximal(blk) && Busy(blk) == map[]
    ensures blk == map[0 := Free(n)]
  {
    var one := map[0 := Free(n)];
    assert Busy(one) == map[];
    FreeRunsAreDetermined(n, blk, one);
  }

  // ----- the transitions -----

  function SplitAt(blk: Blocks, h: nat, k: nat): Blocks
    requires h in blk && blk[h].Free? && k <= blk[h].pages
  {
    if k == blk[h].pages then blk[h := Run(k)]
    else blk[h := Run(k)][h + k := Free(blk[h].pages - k)]
  }

  lemma SplitTiles(n: nat, blk: Blocks, h: nat, k: nat)
    requires Tiles(n, blk) && h in blk && blk[h].Free? && 0 < k <= blk[h].pages
    ensures Tiles(n, SplitAt(blk, h, k))
  {
    SplitChain(n, blk, h, k);
    SplitApart(blk, h, k);
  }

  lemma SplitChain(n: nat, blk: Blocks, h: nat, k: nat)
    requires Sizes(n, blk) && Chain(n, blk) && h in blk && blk[h].Free? && 0 < k <= blk[h].pages
    requires h + k in blk ==> k == blk[h].pages
    ensures Sizes(n, SplitAt(blk, h, k)) && Chain(n, SplitAt(blk, h, k))
  {
    var b := SplitAt(blk, h, k);
    forall x | x in b
      ensures Follows(n, b, x)
    {
      assert Follows(n, blk, if x == h + k && k < blk[h].pages then h else x);
    }
  }

  lemma SplitApart(blk: Blocks, h: nat, k: nat)
    requires NoOverlap(blk) && h in blk && blk[h].Free? && 0 < k <= blk[h].pages
    ensures NoOverlap(SplitAt(blk, h, k))
  {
    var b := SplitAt(blk, h, k);
    forall x, y | x in b && y in b && x < y
      ensures x + b[x].Len() <= y
    {
      // page x lies in block x', page y in block y'
      var x', y' := if x in blk then x else h, if y in blk then y else h;
      assert x' < y' ==> x' + blk[x'].Len() <= y';
    }
  }

  lemma SplitMaximal(n: nat, blk: Blocks, h: nat, k: nat)
    requires Tiles(n, blk) && Maximal(blk) && h in blk && blk[h].Free? && 0 < k <= blk[h].pages
    ensures Maximal(SplitAt(blk, h, k))
    ensures h + k in blk ==> k == blk[h].pages
  {
    assert h + k in blk ==> k == blk[h].pages;
    assert forall x :: x in blk && x != h ==> x + blk[x].Len() <= h || h + blk[h].Len() <= x;
    hide Tiles;
    if k == blk[h].pages {
      WholeMaximal(blk, h);
    } else {
      PartMaximal(blk, h, k);
    }
  }

  lemma WholeMaximal(blk: Blocks, h: nat)
    requires Maximal(blk) && h in blk && blk[h].Free?
    ensures Maximal(blk[h := Run(blk[h].pages)])
  {
    forall x | x in blk
      ensures Alone(blk[h := Run(blk[h].pages)], x)
    {
      assert Alone(blk, x);
    }
  }

  lemma PartMaximal(blk: Blocks, h: nat, k: nat)
    requires Maximal(blk) && h in blk && blk[h].Free? && 0 < k < blk[h].pages && h + k !in blk
    requires forall x :: x in blk && x != h ==> x + blk[x].Len() <= h || h + blk[h].Len() <= x
    ensures Maximal(blk[h := Run(k)][h + k := Free(blk[h].pages - k)])
  {
    var b := blk[h := Run(k)][h + k := Free(blk[h].pages - k)];
    forall x | x in b
      ensures Alone(b, x)
    {
      if x == h + k {
        assert Alone(blk, h);
      } else if x != h {
        assert Alone(blk, x) && x + blk[x].Len() != h + k;
      }
    }
  }

  lemma SplitBusy(n: nat, blk: Blocks, h: nat, k: nat)
    requires Tiles(n, blk) && h in blk && blk[h].Free? && 0 < k <= blk[h].pages
    ensures Busy(SplitAt(blk, h, k)) == Busy(blk)[h := Run(k)] && h !in Busy(blk)
  {
    assert h + k !in blk || k == blk[h].pages;
    hide Tiles;
    var b, c := Busy(SplitAt(blk, h, k)), Busy(blk)[h := Run(k)];
    forall x
      ensures x in b <==> x in c
      ensures x in b ==> b[x] == c[x]
    {
    }
  }

  /** Block `g` absorbs its right neighbour `h`. */
  function Joined(blk: Blocks, g: nat, h: nat): Blocks
    requires g in blk && h in blk
  {
    (blk - {h})[g := Loose(blk[g].Len() + blk[h].Len())]
  }

  lemma JoinTiles(n: nat, blk: Blocks, g: nat, h: nat)
    requires Tiles(n, blk) && g in blk && h in blk && g + blk[g].Len() == h
    ensures Tiles(n, Joined(blk, g, h))
  {
    var b := Joined(blk, g, h);
    JoinChain(n, blk, g, h);
    forall x, y | x in b && y in b && x < y
      ensures x + b[x].Len() <= y
    {
      assert x == g ==> h < y;
    }
  }

  lemma JoinChain(n: nat, blk: Blocks, g: nat, h: nat)
    requires Sizes(n, blk) && Chain(n, blk) && g in blk && h in blk && g + blk[g].Len() == h
    requires forall x :: x in blk && x + blk[x].Len() == h ==> x == g
    ensures Sizes(n, Joined(blk, g, h)) && Chain(n, Joined(blk, g, h))
  {
    var b := Joined(blk, g, h);
    forall x | x in b
      ensures Follows(n, b, x)
    {
      assert Follows(n, blk, if x == g then h else x);
    }
  }

  // ----- sums over all blocks -----

  datatype Measure = Unused | UsedChunks(slot: nat) | AllChunks(slot: nat)

  // Chunks taken by the bitmap at the start of a small-chunk page.
  function Reserved(shift: nat): nat {
    match shift
    case 3 => 8
    case 4 => 2
    case 5 => 1
    case _ => 0
  }

  // Chunks of a page: 4096 >> shift.
  function Capacity(shift: nat): nat {
    match shift
    case 3 => 512
    case 4 => 256
    case 5 => 128
    case 6 => 64
    case 7 => 32
    case 8 => 16
    case 9 => 8
    case 10 => 4
    case 11 => 2
    case _ => 0
  }

  function Weight(m: Measure, b: Block): nat {
    match (m, b)
    case (Unused, Free(k)) => k
    case (UsedChunks(s), Chunks(shift, used)) => if shift == s + 3 then |used| else 0
    case (AllChunks(s), Chunks(shift, used)) =>
      if shift == s + 3 && Capacity(shift) >= Reserved(shift) then Capacity(shift) - Reserved(shift) else 0
    case _ => 0
  }

  function At(m: Measure, blk: Blocks, h: nat): nat {
    if h in blk then Weight(m, blk[h]) else 0
  }

  function Sum(m: Measure, blk: Blocks, n: nat): nat {
    if n == 0 then 0 else Sum(m, blk, n - 1) + At(m, blk, n - 1)
  }

  /** Changing block `h` alone changes the sum by the weight of `h` alone. */
  lemma {:induction false} SumAtOne(m: Measure, a: Blocks, b: Blocks, h: nat, n: nat)
    requires h < n && forall x: nat :: x != h ==> At(m, a, x) == At(m, b, x)
    ensures Sum(m, b, n) == Sum(m, a, n) - At(m, a, h) + At(m, b, h)
  {
    if h == n - 1 {
      SumSame(m, a, b, n - 1);
    } else {
      SumAtOne(m, a, b, h, n - 1);
    }
  }

  lemma {:induction false} SumSame(m: Measure, a: Blocks, b: Blocks, n: nat)
    requires forall x: nat :: x < n ==> At(m, a, x) == At(m, b, x)
    ensures Sum(m, b, n) == Sum(m, a, n)
  {
    if n > 0 {
      SumSame(m, a, b, n - 1);
    }
  }
}
