/** Each change the allocator makes to the page records keeps the encoding of some block map. */
module SlabMoves {
  import opened Common
  import opened Words
  import opened SlabBlocks
  import opened SlabRecords

  // ----- general frames -----

  // No page is on two lists.
  ghost predicate Apart(n: nat, lists: Lists) {
    && |lists| == 1 + SLOTS
    && (forall k: nat {:trigger lists[k]} :: k < |lists| ==> Distinct(lists[k]) && forall x :: x in lists[k] ==> x < n)
    && (forall k: nat, l: nat {:trigger lists[k], lists[l]} :: k < |lists| && l < |lists| && k != l ==>
          forall x :: x in lists[k] ==> x !in lists[l])
  }

  lemma FiledApart(n: nat, blk: Blocks, lists: Lists)
    requires Tiles(n, blk) && Filed(blk, lists)
    ensures Apart(n, lists)
  {
    forall k: nat | k < |lists|
      ensures Distinct(lists[k]) && forall x :: x in lists[k] ==> x < n
    {
      assert FiledIn(blk, lists[k], k);
    }
    forall k: nat, l: nat | k < |lists| && l < |lists| && k != l
      ensures forall x :: x in lists[k] ==> x !in lists[l]
    {
      assert FiledIn(blk, lists[k], k) && FiledIn(blk, lists[l], l);
    }
  }

  // The pages of block `h` look the same, up to the list links of its first page.
  ghost predicate SameBody(rec: seq<Record>, r: seq<Record>, h: nat, b: Block) {
    && h + b.Len() <= |rec| == |r| && b.Len() > 0
    && r[h].slab == rec[h].slab && r[h].kind == rec[h].kind
    && (rec[h].next == NULL ==> r[h].next == NULL)
    && forall q :: h < q < h + b.Len() ==> r[q] == rec[q]
  }

  ghost predicate SameMap(mem: seq<nat>, m: seq<nat>, h: nat) {
    && |m| == |mem| && MapIndex(h + 1, 0) <= |mem|
    && mem[MapIndex(h, 0)..MapIndex(h + 1, 0)] == m[MapIndex(h, 0)..MapIndex(h + 1, 0)]
  }

  // Block `h` of the new map, first page and inner pages.
  ghost predicate BlockOK(n: nat, rec: seq<Record>, mem: seq<nat>, h: nat, b: Block)
    requires Sized(n, rec, mem) && h + b.Len() <= n && b.Len() > 0
  {
    && HeadOK(n, rec, mem, h, b)
    && forall q {:trigger InnerOK(n, rec, h, b, q)} :: h < q < h + b.Len() ==> InnerOK(n, rec, h, b, q)
  }

  lemma KeepBlock(n: nat, rec: seq<Record>, r: seq<Record>, mem: seq<nat>, m: seq<nat>, h: nat, b: Block)
    requires Sized(n, rec, mem) && Sized(n, r, m) && h + b.Len() <= n && b.Len() > 0
    requires BlockOK(n, rec, mem, h, b) && SameBody(rec, r, h, b) && SameMap(mem, m, h)
    ensures BlockOK(n, r, m, h, b)
  {
    forall q | h < q < h + b.Len()
      ensures InnerOK(n, r, h, b, q)
    {
      assert InnerOK(n, rec, h, b, q);
    }
    if b.Chunks? && KindOf(b.shift) == SMALL {
      KeepSmallMap(mem, m, h, b.shift, b.used);
    }
  }

  lemma KeepSmallMap(mem: seq<nat>, m: seq<nat>, h: nat, shift: nat, used: set<nat>)
    requires SameMap(mem, m, h) && SmallMap(mem, h, shift, used)
    ensures SmallMap(m, h, shift, used)
  {
    forall w: nat | w < Capacity(shift) / WORD_BITS
      ensures w < PAGE_WORDS && SmallWord(m[MapIndex(h, w)], w, shift, used)
    {
      assert m[MapIndex(h, w)] == m[MapIndex(h, 0)..MapIndex(h + 1, 0)][w];
      assert mem[MapIndex(h, w)] == mem[MapIndex(h, 0)..MapIndex(h + 1, 0)][w];
    }
  }

  /** If every block of the new map is either rebuilt or looks as it did, the new map is encoded. */
  lemma EncodedStep(n: nat, rec: seq<Record>, r: seq<Record>, mem: seq<nat>, blk: Blocks, b: Blocks, changed: set<nat>)
    requires Sized(n, rec, mem) && |r| == |rec| && Tiles(n, blk) && Tiles(n, b) && Encoded(n, rec, mem, blk)
    requires forall x :: x in b && x !in changed ==> x in blk && b[x] == blk[x] && SameBody(rec, r, x, blk[x])
    requires forall x :: x in changed && x in b ==> BlockOK(n, r, mem, x, b[x])
    ensures Encoded(n, r, mem, b)
  {
    forall x | x in b
      ensures BlockOK(n, r, mem, x, b[x])
    {
      if x !in changed {
        assert HeadOK(n, rec, mem, x, blk[x]);
        assert BlockOK(n, rec, mem, x, blk[x]);
        KeepBlock(n, rec, r, mem, mem, x, blk[x]);
      }
    }
  }

  lemma EncodedAt(n: nat, rec: seq<Record>, mem: seq<nat>, blk: Blocks, x: nat)
    requires Sized(n, rec, mem) && Tiles(n, blk) && Encoded(n, rec, mem, blk) && x in blk
    ensures BlockOK(n, rec, mem, x, blk[x])
  {
  }

  // ----- lists -----

  /** Where a listed block's neighbours in its list are. */
  lemma Neighbours(n: nat, rec: seq<Record>, lists: Lists, k: nat, i: nat)
    requires AllLinked(n, rec, lists) && Apart(n, lists) && |rec| == n + 1 + SLOTS
    requires k < |lists| && i < |lists[k]|
    ensures LinkAt(rec, n + k, lists[k], i)
    ensures var p := rec[lists[k][i]].prev; p == n + k || p in lists[k]
    ensures var p := rec[lists[k][i]].next; p == n + k || p in lists[k]
  {
    assert LinkAt(rec, n + k, lists[k], i);
    assert lists[k][i] in lists[k];
  }

  lemma UnlinkAll(n: nat, rec: seq<Record>, lists: Lists, k: nat, i: nat)
    requires AllLinked(n, rec, lists) && Apart(n, lists) && |rec| == n + 1 + SLOTS
    requires k < |lists| && i < |lists[k]|
    ensures LinkAt(rec, n + k, lists[k], i)
    ensures 0 <= rec[lists[k][i]].prev < |rec| && 0 <= rec[lists[k][i]].next < |rec|
    ensures AllLinked(n, Unlinked(rec, lists[k][i]), lists[k := Without(lists[k], i)])
  {
    assert Linked(rec, n + k, lists[k]);
    UnlinkOne(rec, n + k, lists[k], i);
    Neighbours(n, rec, lists, k, i);
    var r := Unlinked(rec, lists[k][i]);
    forall l: nat | l < |lists| && l != k
      ensures Linked(r, n + l, lists[l])
    {
      assert Linked(rec, n + l, lists[l]);
      assert forall x :: x in lists[l] ==> x < n && x !in lists[k];
      LinkFrame(rec, r, n + l, lists[l]);
    }
  }

  lemma PushAll(n: nat, rec: seq<Record>, lists: Lists, k: nat, x: nat, kind: Kind)
    requires AllLinked(n, rec, lists) && Apart(n, lists) && |rec| == n + 1 + SLOTS
    requires k < |lists| && x < n && forall l: nat :: l < |lists| ==> x !in lists[l]
    ensures 0 <= rec[n + k].next < |rec|
    ensures AllLinked(n, Pushed(rec, n + k, x, kind), lists[k := [x] + lists[k]])
  {
    assert Linked(rec, n + k, lists[k]);
    PushOne(rec, n + k, lists[k], x, kind);
    var r := Pushed(rec, n + k, x, kind);
    assert rec[n + k].next == n + k || rec[n + k].next in lists[k];
    forall l: nat | l < |lists| && l != k
      ensures Linked(r, n + l, lists[l])
    {
      assert Linked(rec, n + l, lists[l]);
      assert forall y :: y in lists[l] ==> y < n && y !in lists[k] && y != x;
      LinkFrame(rec, r, n + l, lists[l]);
    }
  }

  lemma ReplaceAll(n: nat, rec: seq<Record>, lists: Lists, k: nat, i: nat, y: nat, slab: nat)
    requires AllLinked(n, rec, lists) && Apart(n, lists) && |rec| == n + 1 + SLOTS
    requires k < |lists| && i < |lists[k]| && y < n && forall l: nat :: l < |lists| ==> y !in lists[l]
    ensures LinkAt(rec, n + k, lists[k], i)
    ensures 0 <= rec[lists[k][i]].prev < |rec| && 0 <= rec[lists[k][i]].next < |rec|
    ensures AllLinked(n, Replaced(rec, lists[k][i], y, slab), lists[k := With(lists[k], i, y)])
  {
    assert Linked(rec, n + k, lists[k]);
    ReplaceOne(rec, n + k, lists[k], i, y, slab);
    Neighbours(n, rec, lists, k, i);
    var r := Replaced(rec, lists[k][i], y, slab);
    forall l: nat | l < |lists| && l != k
      ensures Linked(r, n + l, lists[l])
    {
      assert Linked(rec, n + l, lists[l]);
      assert forall x :: x in lists[l] ==> x < n && x !in lists[k] && x != y;
      LinkFrame(rec, r, n + l, lists[l]);
    }
  }

  /** Rings do not notice changes to pages that are on no list. */
  lemma AllLinkFrame(n: nat, rec: seq<Record>, r: seq<Record>, lists: Lists)
    requires AllLinked(n, rec, lists) && Apart(n, lists) && |r| == |rec| == n + 1 + SLOTS
    requires forall x :: n <= x < |r| ==> r[x].next == rec[x].next
    requires forall k: nat {:trigger lists[k]} :: k < |lists| ==>
      forall x :: x in lists[k] ==> r[x].prev == rec[x].prev && r[x].next == rec[x].next
    ensures AllLinked(n, r, lists)
  {
    forall l: nat | l < |lists|
      ensures Linked(r, n + l, lists[l])
    {
      assert Linked(rec, n + l, lists[l]);
      LinkFrame(rec, r, n + l, lists[l]);
    }
  }

  lemma FiledRemove(blk: Blocks, b: Blocks, lists: Lists, k: nat, i: nat)
    requires Filed(blk, lists) && k < |lists| && i < |lists[k]|
    requires Place(b, lists[k][i]) == -1
    requires forall x: nat :: x != lists[k][i] ==> Place(b, x) == Place(blk, x)
    ensures Filed(b, lists[k := Without(lists[k], i)])
  {
    var l := lists[k := Without(lists[k], i)];
    assert FiledIn(blk, lists[k], k) && lists[k][i] in lists[k];
    WithoutElements(lists[k], i);
    forall m: nat | m < |l|
      ensures FiledIn(b, l[m], m)
    {
      assert FiledIn(blk, lists[m], m);
    }
  }

  lemma FiledInsert(blk: Blocks, b: Blocks, lists: Lists, k: nat, y: nat)
    requires Filed(blk, lists) && k < |lists|
    requires Place(blk, y) == -1 && Place(b, y) == k
    requires forall x: nat :: x != y ==> Place(b, x) == Place(blk, x)
    ensures Filed(b, lists[k := [y] + lists[k]])
  {
    var l := lists[k := [y] + lists[k]];
    forall m: nat | m < |l|
      ensures FiledIn(b, l[m], m)
    {
      assert FiledIn(blk, lists[m], m);
    }
  }

  lemma FiledReplace(blk: Blocks, b: Blocks, lists: Lists, k: nat, i: nat, y: nat)
    requires Filed(blk, lists) && k < |lists| && i < |lists[k]|
    requires Place(b, lists[k][i]) == -1 && Place(blk, y) == -1 && Place(b, y) == k
    requires forall x: nat :: x != lists[k][i] && x != y ==> Place(b, x) == Place(blk, x)
    ensures Filed(b, lists[k := With(lists[k], i, y)])
  {
    var l := lists[k := With(lists[k], i, y)];
    assert FiledIn(blk, lists[k], k) && lists[k][i] in lists[k];
    ReplaceElements(lists[k], i, y);
    forall m: nat | m < |l|
      ensures FiledIn(b, l[m], m)
    {
      assert FiledIn(blk, lists[m], m);
    }
  }

  lemma FiledSame(blk: Blocks, b: Blocks, lists: Lists)
    requires Filed(blk, lists) && forall x: nat :: Place(b, x) == Place(blk, x)
    ensures Filed(b, lists)
  {
    forall m: nat | m < |lists|
      ensures FiledIn(b, lists[m], m)
    {
      assert FiledIn(blk, lists[m], m);
    }
  }

  // ----- which blocks a link operation touches -----

  const ZERO: Record := Record(0, NULL, NULL, PAGE)

  ghost predicate OthersSame(n: nat, rec: seq<Record>, r: seq<Record>, blk: Blocks, x: nat) {
    forall y :: y in blk && y != x ==> SameBody(rec, r, y, blk[y])
  }

  // All pages on list k carry the same type bits.
  ghost predicate SameKinds(rec: seq<Record>, s: seq<nat>, kind: Kind) {
    forall y :: y in s && y < |rec| ==> rec[y].kind == kind
  }

  function ListKind(k: nat): Kind {
    if k == 0 then PAGE else KindOf(k + 2)
  }

  lemma KindsOnList(n: nat, rec: seq<Record>, mem: seq<nat>, blk: Blocks, lists: Lists, k: nat)
    requires Sound(n, rec, mem, blk, lists) && k < |lists|
    ensures SameKinds(rec, lists[k], ListKind(k))
  {
    assert FiledIn(blk, lists[k], k);
    forall y | y in lists[k] && y < |rec|
      ensures rec[y].kind == ListKind(k)
    {
      assert Place(blk, y) == k;
      assert HeadOK(n, rec, mem, y, blk[y]);
    }
  }

  lemma UnlinkTouches(n: nat, rec: seq<Record>, blk: Blocks, lists: Lists, k: nat, i: nat, kind: Kind)
    requires Tiles(n, blk) && AllLinked(n, rec, lists) && Filed(blk, lists) && |rec| == n + 1 + SLOTS
    requires k < |lists| && i < |lists[k]| && SameKinds(rec, lists[k], kind)
    ensures lists[k][i] < n
    ensures 0 <= rec[lists[k][i]].prev < |rec| && 0 <= rec[lists[k][i]].next < |rec|
    ensures OthersSame(n, rec, Unlinked(rec, lists[k][i]), blk, lists[k][i])
    ensures Unlinked(rec, lists[k][i])[lists[k][i]] == rec[lists[k][i]]
    ensures forall q :: 0 <= q < n && q !in blk ==> Unlinked(rec, lists[k][i])[q] == rec[q]
  {
    FiledApart(n, blk, lists);
    assert lists[k][i] in lists[k];
    Neighbours(n, rec, lists, k, i);
    UnlinkAll(n, rec, lists, k, i);
    var x := lists[k][i];
    var r := Unlinked(rec, x);
    assert FiledIn(blk, lists[k], k);
    var p, e := rec[x].prev, rec[x].next;
    assert forall y :: y in lists[k] ==> y in blk;
    assert p == n + k || p in blk;
    assert e == n + k || e in blk;
    assert x in lists[k] && p != x && e != x by {
      assert LinkAt(rec, n + k, lists[k], i);
    }
    NoNull(n, rec, lists, k);
    forall y | y in blk && y != x
      ensures SameBody(rec, r, y, blk[y])
    {
      assert forall q :: y < q < y + blk[y].Len() ==> q !in blk;
      assert p == y ==> p in lists[k];
      assert e == y ==> e in lists[k] && rec[y].kind == rec[x].kind;
    }
  }

  lemma PushTouches(n: nat, rec: seq<Record>, blk: Blocks, lists: Lists, k: nat, x: nat, kind: Kind)
    requires Tiles(n, blk) && AllLinked(n, rec, lists) && Filed(blk, lists) && |rec| == n + 1 + SLOTS
    requires k < |lists| && SameKinds(rec, lists[k], kind) && x in blk && x !in lists[k]
    ensures 0 <= rec[n + k].next < |rec|
    ensures OthersSame(n, rec, Pushed(rec, n + k, x, kind), blk, x)
    ensures forall q :: 0 <= q < n && q !in blk ==> Pushed(rec, n + k, x, kind)[q] == rec[q]
    ensures var r := Pushed(rec, n + k, x, kind); r[x].slab == rec[x].slab && r[x].kind == kind && r[x].next != NULL
  {
    assert Linked(rec, n + k, lists[k]);
    assert FiledIn(blk, lists[k], k);
    var first := rec[n + k].next;
    assert lists[k] != [] ==> LinkAt(rec, n + k, lists[k], 0) && lists[k][0] in lists[k];
    var r := Pushed(rec, n + k, x, kind);
    forall y | y in blk && y != x
      ensures SameBody(rec, r, y, blk[y])
    {
      assert forall q :: y < q < y + blk[y].Len() ==> q !in blk;
    }
  }

  // ----- free_pages, step by step -----

  /** page->slab = pages; memzero(&page[1], ...): the run is neither live nor free. */
  lemma DetachRun(n: nat, rec: seq<Record>, mem: seq<nat>, blk: Blocks, lists: Lists, h: nat, r: seq<Record>)
    requires Sound(n, rec, mem, blk, lists) && h in blk && blk[h].Run? && |r| == |rec|
    requires forall q :: 0 <= q < |rec| ==>
      r[q] == if q == h then rec[h].(slab := blk[h].pages) else if h < q < h + blk[h].pages then ZERO else rec[q]
    ensures Sound(n, r, mem, blk[h := Loose(blk[h].pages)], lists)
  {
    var b := blk[h := Loose(blk[h].pages)];
    LooseTiles(n, blk, h);
    FiledSame(blk, b, lists);
    FiledApart(n, blk, lists);
    forall k: nat | k < |lists|
      ensures forall x :: x in lists[k] ==> r[x] == rec[x]
    {
      assert FiledIn(blk, lists[k], k);
    }
    AllLinkFrame(n, rec, r, lists);
    forall x | x in b && x != h
      ensures SameBody(rec, r, x, blk[x])
    {
    }
    assert BlockOK(n, r, mem, h, b[h]);
    EncodedStep(n, rec, r, mem, blk, b, {h});
  }

  lemma LooseTiles(n: nat, blk: Blocks, h: nat)
    requires Tiles(n, blk) && h in blk
    ensures Tiles(n, blk[h := Loose(blk[h].Len())])
  {
    var b := blk[h := Loose(blk[h].Len())];
    forall x | x in b
      ensures Follows(n, b, x)
    {
      assert Follows(n, blk, x);
    }
  }

  lemma SameTrans(n: nat, rec: seq<Record>, s: seq<Record>, r: seq<Record>, blk: Blocks, x: nat, y: nat)
    requires OthersSame(n, rec, s, blk, x) && OthersSame(n, s, r, blk, x) && y in blk && y != x
    ensures SameBody(rec, r, y, blk[y])
  {
    assert SameBody(rec, s, y, blk[y]) && SameBody(s, r, y, blk[y]);
  }

  /** The same for a chunk page whose last chunk was freed: it also leaves its slot list. */
  lemma DetachChunks(n: nat, rec: seq<Record>, mem: seq<nat>, blk: Blocks, lists: Lists, h: nat, k: nat, i: nat)
    requires Sound(n, rec, mem, blk, lists) && h in blk && blk[h].Chunks?
    requires k < |lists| && i < |lists[k]| && lists[k][i] == h
    ensures 0 <= rec[h].prev < |rec| && 0 <= rec[h].next < |rec|
    ensures Sound(n, Unlinked(rec[h := rec[h].(slab := 1)], h), mem, blk[h := Loose(1)],
      lists[k := Without(lists[k], i)])
  {
    var b := blk[h := Loose(1)];
    var s := rec[h := rec[h].(slab := 1)];
    LooseTiles(n, blk, h);
    FiledApart(n, blk, lists);
    KindsOnList(n, rec, mem, blk, lists, k);
    AllLinkFrame(n, rec, s, lists);
    UnlinkTouches(n, s, blk, lists, k, i, ListKind(k));
    UnlinkAll(n, s, lists, k, i);
    var r := Unlinked(s, h);
    FiledRemove(blk, b, lists, k, i);
    forall x | x in b && x != h
      ensures SameBody(rec, r, x, blk[x])
    {
      SameTrans(n, rec, s, r, blk, h, x);
    }
    EncodedStep(n, rec, r, mem, blk, b, {h});
  }

  /** Block `g` absorbs its right neighbour `h`; `f`, the free one of the two, leaves the free list. */
  function Absorbed(rec: seq<Record>, g: nat, h: nat, f: nat): seq<Record>
    requires g < |rec| && h < |rec| && f < |rec| && 0 <= rec[f].prev < |rec| && 0 <= rec[f].next < |rec|
  {
    Unlinked(rec[g := rec[g].(slab := rec[g].slab + rec[h].slab)], f)[h := ZERO]
  }

  lemma Absorb(n: nat, rec: seq<Record>, mem: seq<nat>, blk: Blocks, lists: Lists, g: nat, h: nat, i: nat)
    requires Sound(n, rec, mem, blk, lists) && g in blk && h in blk && g + blk[g].Len() == h && |lists| > 0
    requires (blk[g].Free? && blk[h].Loose?) || (blk[g].Loose? && blk[h].Free?)
    requires i < |lists[0]| && lists[0][i] == if blk[g].Free? then g else h
    ensures var f := lists[0][i]; f < |rec| && 0 <= rec[f].prev < |rec| && 0 <= rec[f].next < |rec|
    ensures Sound(n, Absorbed(rec, g, h, lists[0][i]), mem, Joined(blk, g, h), lists[0 := Without(lists[0], i)])
  {
    hide Tiles, Encoded, AllLinked, Filed, Joined;
    JoinedPlaces(n, blk, g, h);
    var s := rec[g := rec[g].(slab := rec[g].slab + rec[h].slab)];
    FiledApart(n, blk, lists);
    KindsOnList(n, rec, mem, blk, lists, 0);
    AllLinkFrame(n, rec, s, lists);
    UnlinkTouches(n, s, blk, lists, 0, i, PAGE);
    JoinTiles(n, blk, g, h);
    AbsorbLinks(n, s, blk, lists, g, h, i);
    AbsorbEncoded(n, rec, mem, blk, g, h, lists[0][i], s, Unlinked(s, lists[0][i]));
  }

  // Only the free one of the two blocks was on a list.
  lemma JoinedPlaces(n: nat, blk: Blocks, g: nat, h: nat)
    requires Tiles(n, blk) && g in blk && h in blk && g + blk[g].Len() == h
    requires (blk[g].Free? && blk[h].Loose?) || (blk[g].Loose? && blk[h].Free?)
    ensures h < n && h !in Joined(blk, g, h)
    ensures Place(Joined(blk, g, h), g) == Place(Joined(blk, g, h), h) == -1
    ensures forall x: nat :: x != (if blk[g].Free? then g else h) ==> Place(Joined(blk, g, h), x) == Place(blk, x)
  {
  }

  // What is on no list may be cleared.
  lemma ClearedLinks(n: nat, u: seq<Record>, b: Blocks, l: Lists, h: nat)
    requires Tiles(n, b) && AllLinked(n, u, l) && Filed(b, l) && |u| == n + 1 + SLOTS
    requires h < n && h !in b
    ensures AllLinked(n, u[h := ZERO], l)
  {
    hide AllLinked, Tiles;
    var r := u[h := ZERO];
    FiledApart(n, b, l);
    forall k: nat | k < |l|
      ensures forall x :: x in l[k] ==> r[x] == u[x]
    {
      assert FiledIn(b, l[k], k);
    }
    AllLinkFrame(n, u, r, l);
  }

  lemma AbsorbLinks(n: nat, s: seq<Record>, blk: Blocks, lists: Lists, g: nat, h: nat, i: nat)
    requires Tiles(n, blk) && AllLinked(n, s, lists) && Filed(blk, lists) && |s| == n + 1 + SLOTS
    requires g in blk && h in blk && g + blk[g].Len() == h
    requires (blk[g].Free? && blk[h].Loose?) || (blk[g].Loose? && blk[h].Free?)
    requires |lists| > 0 && i < |lists[0]| && lists[0][i] == (if blk[g].Free? then g else h)
    requires Tiles(n, Joined(blk, g, h))
    requires 0 <= s[lists[0][i]].prev < |s| && 0 <= s[lists[0][i]].next < |s|
    ensures AllLinked(n, Unlinked(s, lists[0][i])[h := ZERO], lists[0 := Without(lists[0], i)])
    ensures Filed(Joined(blk, g, h), lists[0 := Without(lists[0], i)])
  {
    hide Tiles, Joined, AllLinked, Filed, Place;
    FiledApart(n, blk, lists);
    UnlinkAll(n, s, lists, 0, i);
    JoinedPlaces(n, blk, g, h);
    FiledRemove(blk, Joined(blk, g, h), lists, 0, i);
    ClearedLinks(n, Unlinked(s, lists[0][i]), Joined(blk, g, h), lists[0 := Without(lists[0], i)], h);
  }

  // Records between the heads of the two blocks are between the ends of the joined one.
  lemma AbsorbInner(n: nat, rec: seq<Record>, r: seq<Record>, mem: seq<nat>, blk: Blocks, g: nat, h: nat)
    requires Sized(n, rec, mem) && |r| == |rec| && Tiles(n, blk) && Encoded(n, rec, mem, blk)
    requires g in blk && h in blk && g + blk[g].Len() == h
    requires (blk[g].Free? && blk[h].Loose?) || (blk[g].Loose? && blk[h].Free?)
    requires forall q :: 0 <= q < n && q !in blk ==> r[q] == rec[q]
    requires r[h] == ZERO
    ensures h + blk[h].Len() <= n
    ensures forall q :: g < q < h + blk[h].Len() ==> InnerOK(n, r, g, Joined(blk, g, h)[g], q)
  {
    var b := Joined(blk, g, h);
    assert BlockOK(n, rec, mem, g, blk[g]) && BlockOK(n, rec, mem, h, blk[h]);
    forall q | g < q < g + b[g].Len()
      ensures InnerOK(n, r, g, b[g], q)
    {
      if q != h {
        assert q !in blk by {
          assert q < h ==> g < q < g + blk[g].Len();
          assert q > h ==> h < q < h + blk[h].Len();
        }
        assert r[q] == rec[q];
        assert if q < h then InnerOK(n, rec, g, blk[g], q) else InnerOK(n, rec, h, blk[h], q);
      }
    }
  }

  // The other blocks keep their records.
  lemma AbsorbOthers(n: nat, rec: seq<Record>, blk: Blocks, g: nat, h: nat, f: nat, s: seq<Record>, u: seq<Record>)
    requires Tiles(n, blk) && |s| == |u| == |rec| == n + 1 + SLOTS
    requires g in blk && h in blk && g + blk[g].Len() == h && (f == g || f == h)
    requires s == rec[g := rec[g].(slab := rec[g].slab + rec[h].slab)]
    requires OthersSame(n, s, u, blk, f) && u[f] == s[f]
    ensures forall x :: x in blk && x != g && x != h ==> SameBody(rec, u[h := ZERO], x, blk[x])
    ensures u[g].slab == s[g].slab
  {
    forall x | x in blk && x != g && x != h
      ensures SameBody(rec, u[h := ZERO], x, blk[x])
    {
      assert SameBody(s, u, x, blk[x]);
      assert x + blk[x].Len() <= g || h < x;
    }
    assert f == g || SameBody(s, u, g, blk[g]);
  }

  lemma AbsorbEncoded(n: nat, rec: seq<Record>, mem: seq<nat>, blk: Blocks, g: nat, h: nat, f: nat,
                      s: seq<Record>, u: seq<Record>)
    requires Sized(n, rec, mem) && Tiles(n, blk) && Encoded(n, rec, mem, blk) && |s| == |u| == |rec|
    requires g in blk && h in blk && g + blk[g].Len() == h && (f == g || f == h)
    requires (blk[g].Free? && blk[h].Loose?) || (blk[g].Loose? && blk[h].Free?)
    requires s == rec[g := rec[g].(slab := rec[g].slab + rec[h].slab)]
    requires OthersSame(n, s, u, blk, f) && u[f] == s[f]
    requires forall q :: 0 <= q < n && q !in blk ==> u[q] == s[q]
    requires Tiles(n, Joined(blk, g, h))
    ensures Encoded(n, u[h := ZERO], mem, Joined(blk, g, h))
  {
    hide SameBody, OthersSame, Encoded, Tiles;
    JoinedPlaces(n, blk, g, h);
    var b := Joined(blk, g, h);
    var r := u[h := ZERO];
    EncodedAt(n, rec, mem, blk, g);
    EncodedAt(n, rec, mem, blk, h);
    AbsorbOthers(n, rec, blk, g, h, f, s, u);
    AbsorbInner(n, rec, r, mem, blk, g, h);
    assert BlockOK(n, r, mem, g, b[g]);
    EncodedStep(n, rec, r, mem, blk, b, {g});
  }

  /** The merged run gets its tail back-pointer and goes to the head of the free list. */
  function Finished(n: nat, rec: seq<Record>, h: nat, pages: nat): seq<Record>
    requires n < |rec| && pages > 0 && h + pages <= n && 0 <= rec[n].next < |rec|
  {
    var t := h + pages - 1;
    Pushed(if pages > 1 then rec[t := rec[t].(prev := h, kind := PAGE)] else rec, n, h, PAGE)
  }

  lemma Finish(n: nat, rec: seq<Record>, mem: seq<nat>, blk: Blocks, lists: Lists, h: nat)
    requires Sound(n, rec, mem, blk, lists) && h in blk && blk[h].Loose? && |lists| > 0
    ensures 0 <= rec[n].next < |rec| && blk[h].pages > 0 && h + blk[h].pages <= n
    ensures Sound(n, Finished(n, rec, h, blk[h].pages), mem, blk[h := Free(blk[h].pages)], lists[0 := [h] + lists[0]])
  {
    var pages := blk[h].pages;
    var t := h + pages - 1;
    var s := if pages > 1 then rec[t := rec[t].(prev := h, kind := PAGE)] else rec;
    assert pages > 1 ==> t !in blk by {
      assert h < t < h + blk[h].Len() || pages <= 1;
    }
    KindsOnList(n, rec, mem, blk, lists, 0);
    FinishLinks(n, rec, blk, lists, h, s);
    var r := Pushed(s, n, h, PAGE);
    assert r == Finished(n, rec, h, pages);
    FinishEncoded(n, rec, mem, blk, h, s, r);
  }

  lemma FinishLinks(n: nat, rec: seq<Record>, blk: Blocks, lists: Lists, h: nat, s: seq<Record>)
    requires Tiles(n, blk) && AllLinked(n, rec, lists) && Filed(blk, lists) && |rec| == n + 1 + SLOTS
    requires h in blk && blk[h].Loose? && |s| == |rec| && SameKinds(rec, lists[0], PAGE)
    requires forall q :: 0 <= q < |rec| && (q in blk || q >= n) ==> s[q] == rec[q]
    ensures 0 <= rec[n].next < |rec| && rec[n].next == s[n].next
    ensures var r := Pushed(s, n, h, PAGE);
      && AllLinked(n, r, lists[0 := [h] + lists[0]])
      && OthersSame(n, s, r, blk, h) && r[h].slab == s[h].slab && r[h].kind == PAGE
      && (forall q :: 0 <= q < n && q !in blk ==> r[q] == s[q])
    ensures var b := blk[h := Free(blk[h].pages)]; Tiles(n, b) && Filed(b, lists[0 := [h] + lists[0]])
  {
    hide Tiles, AllLinked, Filed;
    var b := blk[h := Free(blk[h].pages)];
    FiledApart(n, blk, lists);
    LooseOnNoList(blk, lists, h, rec, s);
    FreeTiles(n, blk, h);
    AllLinkFrame(n, rec, s, lists);
    PushTouches(n, s, blk, lists, 0, h, PAGE);
    PushAll(n, s, lists, 0, h, PAGE);
    FiledInsert(blk, b, lists, 0, h);
  }

  lemma FreeTiles(n: nat, blk: Blocks, h: nat)
    requires Tiles(n, blk) && h in blk && blk[h].Loose?
    ensures h < n && Tiles(n, blk[h := Free(blk[h].pages)])
  {
    var b := blk[h := Free(blk[h].pages)];
    forall x | x in b
      ensures Follows(n, b, x)
    {
      assert Follows(n, blk, x);
    }
  }

  // A block that is neither free nor a page of chunks is on no list.
  lemma LooseOnNoList(blk: Blocks, lists: Lists, h: nat, rec: seq<Record>, s: seq<Record>)
    requires Filed(blk, lists) && h in blk && blk[h].Loose? && |s| == |rec|
    requires forall q :: 0 <= q < |rec| && q in blk ==> s[q] == rec[q]
    ensures forall k: nat :: k < |lists| ==> h !in lists[k]
    ensures forall k: nat {:trigger lists[k]} :: k < |lists| ==>
      forall x :: x in lists[k] && x < |rec| ==> s[x] == rec[x]
  {
    forall k: nat | k < |lists|
      ensures h !in lists[k] && (forall x :: x in lists[k] && x < |rec| ==> s[x] == rec[x])
    {
      assert FiledIn(blk, lists[k], k);
      assert Place(blk, h) == -1;
    }
  }

  lemma FinishEncoded(n: nat, rec: seq<Record>, mem: seq<nat>, blk: Blocks, h: nat, s: seq<Record>, r: seq<Record>)
    requires Sized(n, rec, mem) && Tiles(n, blk) && Encoded(n, rec, mem, blk) && |s| == |r| == |rec|
    requires h in blk && blk[h].Loose?
    requires var t := h + blk[h].pages - 1;
      s == if blk[h].pages > 1 then rec[t := rec[t].(prev := h, kind := PAGE)] else rec
    requires OthersSame(n, s, r, blk, h) && r[h].slab == s[h].slab && r[h].kind == PAGE
    requires forall q :: 0 <= q < n && q !in blk ==> r[q] == s[q]
    requires Tiles(n, blk[h := Free(blk[h].pages)])
    ensures Encoded(n, r, mem, blk[h := Free(blk[h].pages)])
  {
    var pages := blk[h].pages;
    var t := h + pages - 1;
    var b := blk[h := Free(pages)];
    assert BlockOK(n, rec, mem, h, blk[h]);
    forall x | x in b && x != h
      ensures SameBody(rec, r, x, blk[x])
    {
      assert SameBody(s, r, x, blk[x]);
      assert x + blk[x].Len() <= h || h + pages <= x;
    }
    forall q | h < q < h + pages
      ensures InnerOK(n, r, h, b[h], q)
    {
      assert InnerOK(n, rec, h, blk[h], q);
      assert q !in blk;
      assert r[q] == s[q];
    }
    EncodedStep(n, rec, r, mem, blk, b, {h});
  }

  // ----- alloc_pages -----

  // The rest of the run, if any, takes the place of the run in the free list.
  function Cut(rec: seq<Record>, h: nat, pages: nat, k: nat): seq<Record>
    requires 0 < k <= pages && h + pages <= |rec|
    requires 0 <= rec[h].prev < |rec| && 0 <= rec[h].next < |rec|
  {
    var t := h + pages - 1;
    if k == pages then Unlinked(rec, h)
    else Replaced(rec[t := rec[t].(prev := h + k, kind := PAGE)], h, h + k, pages - k)
  }

  ghost predicate Granted(s: seq<Record>, r: seq<Record>, h: nat, k: nat) {
    && |r| == |s|
    && forall q :: 0 <= q < |s| ==>
        r[q] == if q == h then Record(PAGE_START + k, NULL, NULL, PAGE)
                else if h < q < h + k then Record(PAGE_BUSY, NULL, NULL, PAGE)
                else s[q]
  }

  function CutList(s: seq<nat>, i: nat, pages: nat, k: nat): seq<nat>
    requires i < |s|
  {
    if k == pages then Without(s, i) else With(s, i, s[i] + k)
  }

  lemma ReplaceTouches(n: nat, rec: seq<Record>, blk: Blocks, lists: Lists, i: nat, y: nat, slab: nat, r: seq<Record>)
    requires Tiles(n, blk) && AllLinked(n, rec, lists) && Filed(blk, lists) && |rec| == n + 1 + SLOTS
    requires i < |lists[0]| && SameKinds(rec, lists[0], PAGE) && y !in blk && y < n
    requires lists[0][i] < n && 0 <= rec[lists[0][i]].prev < |rec| && 0 <= rec[lists[0][i]].next < |rec|
    requires r == Replaced(rec, lists[0][i], y, slab)
    ensures OthersSame2(n, rec, r, blk, lists[0][i], y) && InnerSame(n, rec, r, blk, y)
    ensures r[y].slab == slab && r[y].kind == PAGE
  {
    FiledApart(n, blk, lists);
    assert FiledIn(blk, lists[0], 0);
    assert lists[0][i] in lists[0];
    Neighbours(n, rec, lists, 0, i);
    NoNull(n, rec, lists, 0);
    var x := lists[0][i];
    assert forall z :: z in lists[0] ==> z in blk && blk[z].Free?;
    forall z | z in blk && z != x && (y < z || z + blk[z].Len() <= y)
      ensures SameBody(rec, r, z, blk[z])
    {
      assert forall q :: z < q < z + blk[z].Len() ==> q !in blk;
    }
  }

  // Pages that start no block, except `y`.
  ghost predicate InnerSame(n: nat, rec: seq<Record>, r: seq<Record>, blk: Blocks, y: nat) {
    |r| == |rec| >= n && forall q :: 0 <= q < n && q !in blk && q != y ==> r[q] == rec[q]
  }

  /** A page on a list has a next pointer. */
  lemma NoNull(n: nat, rec: seq<Record>, lists: Lists, k: nat)
    requires AllLinked(n, rec, lists) && k < |lists|
    ensures forall z :: z in lists[k] ==> z < |rec| && rec[z].next >= 0
  {
    forall z | z in lists[k]
      ensures z < |rec| && rec[z].next >= 0
    {
      var j :| 0 <= j < |lists[k]| && lists[k][j] == z;
      assert Linked(rec, n + k, lists[k]);
      assert LinkAt(rec, n + k, lists[k], j);
    }
  }

  // Blocks other than `x`, and not around page `y`.
  ghost predicate OthersSame2(n: nat, rec: seq<Record>, r: seq<Record>, blk: Blocks, x: nat, y: nat) {
    forall z :: z in blk && z != x && (y < z || z + blk[z].Len() <= y) ==> SameBody(rec, r, z, blk[z])
  }

  lemma SplitOff(n: nat, rec: seq<Record>, mem: seq<nat>, blk: Blocks, lists: Lists, i: nat, k: nat, r: seq<Record>)
    requires Sound(n, rec, mem, blk, lists) && |lists| == 1 + SLOTS && |r| == |rec| && i < |lists[0]|
    requires lists[0][i] in blk && blk[lists[0][i]].Free? && 0 < k <= blk[lists[0][i]].pages
    requires var h := lists[0][i];
      && h + blk[h].pages <= n && 0 <= rec[h].prev < |rec| && 0 <= rec[h].next < |rec|
      && Granted(Cut(rec, h, blk[h].pages, k), r, h, k)
    ensures Sound(n, r, mem, SplitAt(blk, lists[0][i], k), lists[0 := CutList(lists[0], i, blk[lists[0][i]].pages, k)])
  {
    hide Encoded, Granted, Filed, AllLinked;
    var h := lists[0][i];
    if k == blk[h].pages {
      SplitWhole(n, rec, mem, blk, lists, i, k, r);
    } else {
      SplitPart(n, rec, mem, blk, lists, i, k, r);
    }
  }

  lemma SplitWhole(n: nat, rec: seq<Record>, mem: seq<nat>, blk: Blocks, lists: Lists, i: nat, k: nat, r: seq<Record>)
    requires Sound(n, rec, mem, blk, lists) && |lists| == 1 + SLOTS && |r| == |rec| && i < |lists[0]|
    requires lists[0][i] in blk && blk[lists[0][i]].Free? && 0 < k <= blk[lists[0][i]].pages
    requires var h := lists[0][i];
      && h + blk[h].pages <= n && 0 <= rec[h].prev < |rec| && 0 <= rec[h].next < |rec|
      && Granted(Cut(rec, h, blk[h].pages, k), r, h, k)
    requires k == blk[lists[0][i]].pages
    ensures Sound(n, r, mem, SplitAt(blk, lists[0][i], k), lists[0 := CutList(lists[0], i, blk[lists[0][i]].pages, k)])
  {
    hide Encoded, Granted, Filed, AllLinked;
    var h := lists[0][i];
    SplitTiles(n, blk, h, k);
    KindsOnList(n, rec, mem, blk, lists, 0);
    UnlinkTouches(n, rec, blk, lists, 0, i, PAGE);
    WholeLinks(n, rec, blk, lists, i, r);
    WholeEncoded(n, rec, mem, blk, h, Cut(rec, h, blk[h].pages, k), r);
  }

  lemma SplitPart(n: nat, rec: seq<Record>, mem: seq<nat>, blk: Blocks, lists: Lists, i: nat, k: nat, r: seq<Record>)
    requires Sound(n, rec, mem, blk, lists) && |lists| == 1 + SLOTS && |r| == |rec| && i < |lists[0]|
    requires lists[0][i] in blk && blk[lists[0][i]].Free? && 0 < k < blk[lists[0][i]].pages
    requires var h := lists[0][i];
      && h + blk[h].pages <= n && 0 <= rec[h].prev < |rec| && 0 <= rec[h].next < |rec|
      && Granted(Cut(rec, h, blk[h].pages, k), r, h, k)
    ensures Sound(n, r, mem, SplitAt(blk, lists[0][i], k), lists[0 := CutList(lists[0], i, blk[lists[0][i]].pages, k)])
  {
    hide Encoded, Granted, Filed, AllLinked;
    var h := lists[0][i];
    SplitTiles(n, blk, h, k);
    KindsOnList(n, rec, mem, blk, lists, 0);
    PartEncoded(n, rec, mem, blk, lists, i, k, r);
    var t := h + blk[h].pages - 1;
    var s := rec[t := rec[t].(prev := h + k, kind := PAGE)];
    TailLinks(n, rec, blk, lists, h, k, s);
    PartLinks(n, rec, blk, lists, i, k, s, r);
  }

  lemma PartEncoded(n: nat, rec: seq<Record>, mem: seq<nat>, blk: Blocks, lists: Lists, i: nat, k: nat, r: seq<Record>)
    requires Sound(n, rec, mem, blk, lists) && |lists| == 1 + SLOTS && |r| == |rec| && i < |lists[0]|
    requires lists[0][i] in blk && blk[lists[0][i]].Free? && 0 < k < blk[lists[0][i]].pages
    requires var h := lists[0][i];
      && h + blk[h].pages <= n && 0 <= rec[h].prev < |rec| && 0 <= rec[h].next < |rec|
      && Granted(Cut(rec, h, blk[h].pages, k), r, h, k)
    requires SameKinds(rec, lists[0], PAGE) && Tiles(n, SplitAt(blk, lists[0][i], k))
    ensures Encoded(n, r, mem, SplitAt(blk, lists[0][i], k))
  {
    hide Encoded, Granted, Filed, AllLinked, OthersSame2, InnerSame, SameKinds, Replaced;
    var h := lists[0][i];
    var t := h + blk[h].pages - 1;
    var s := rec[t := rec[t].(prev := h + k, kind := PAGE)];
    TailLinks(n, rec, blk, lists, h, k, s);
    var u := Cut(rec, h, blk[h].pages, k);
    assert u == Replaced(s, h, h + k, blk[h].pages - k);
    ReplaceTouches(n, s, blk, lists, i, h + k, blk[h].pages - k, u);
    PartBlocks(n, rec, mem, blk, h, k, s, u, r);
  }

  lemma GrantLinks(n: nat, s: seq<Record>, r: seq<Record>, b: Blocks, l: Lists, h: nat, k: nat)
    requires Tiles(n, b) && AllLinked(n, s, l) && Filed(b, l) && |s| == n + 1 + SLOTS && Granted(s, r, h, k)
    requires h in b && b[h] == Run(k)
    ensures AllLinked(n, r, l)
  {
    FiledApart(n, b, l);
    forall m: nat | m < |l|
      ensures forall x :: x in l[m] ==> r[x] == s[x]
    {
      assert FiledIn(b, l[m], m);
      forall x | x in l[m]
        ensures r[x] == s[x]
      {
        assert Place(b, x) == m;
        assert x in b && x != h && (x < h || h + k <= x);
      }
    }
    AllLinkFrame(n, s, r, l);
  }

  lemma WholeLinks(n: nat, rec: seq<Record>, blk: Blocks, lists: Lists, i: nat, r: seq<Record>)
    requires Tiles(n, blk) && AllLinked(n, rec, lists) && Filed(blk, lists) && |rec| == n + 1 + SLOTS
    requires i < |lists[0]| && lists[0][i] in blk && blk[lists[0][i]].Free?
    requires var h := lists[0][i];
      && 0 <= rec[h].prev < |rec| && 0 <= rec[h].next < |rec|
      && Granted(Unlinked(rec, h), r, h, blk[h].pages)
      && Tiles(n, blk[h := Run(blk[h].pages)])
    ensures var h := lists[0][i];
      && AllLinked(n, r, lists[0 := Without(lists[0], i)])
      && Filed(blk[h := Run(blk[h].pages)], lists[0 := Without(lists[0], i)])
  {
    var h := lists[0][i];
    var b := blk[h := Run(blk[h].pages)];
    FiledApart(n, blk, lists);
    UnlinkAll(n, rec, lists, 0, i);
    FiledRemove(blk, b, lists, 0, i);
    GrantLinks(n, Unlinked(rec, h), r, b, lists[0 := Without(lists[0], i)], h, blk[h].pages);
  }

  lemma WholeEncoded(n: nat, rec: seq<Record>, mem: seq<nat>, blk: Blocks, h: nat, s: seq<Record>, r: seq<Record>)
    requires Sized(n, rec, mem) && Tiles(n, blk) && Encoded(n, rec, mem, blk) && |s| == |rec|
    requires h in blk && blk[h].Free? && Granted(s, r, h, blk[h].pages) && OthersSame(n, rec, s, blk, h)
    requires Tiles(n, blk[h := Run(blk[h].pages)])
    ensures Encoded(n, r, mem, blk[h := Run(blk[h].pages)])
  {
    var b := blk[h := Run(blk[h].pages)];
    forall x | x in b && x != h
      ensures SameBody(rec, r, x, blk[x])
    {
      assert SameBody(rec, s, x, blk[x]);
      assert x + blk[x].Len() <= h || h + blk[h].pages <= x;
    }
    assert BlockOK(n, r, mem, h, b[h]);
    EncodedStep(n, rec, r, mem, blk, b, {h});
  }

  /** The tail pointer of a run is on a page that is on no list. */
  lemma TailLinks(n: nat, rec: seq<Record>, blk: Blocks, lists: Lists, h: nat, k: nat, s: seq<Record>)
    requires Tiles(n, blk) && AllLinked(n, rec, lists) && Filed(blk, lists) && |rec| == n + 1 + SLOTS
    requires h in blk && blk[h].Free? && 0 < k < blk[h].pages && SameKinds(rec, lists[0], PAGE)
    requires var t := h + blk[h].pages - 1; t < n && s == rec[t := rec[t].(prev := h + k, kind := PAGE)]
    ensures AllLinked(n, s, lists) && h + k !in blk && h + k < n && SameKinds(s, lists[0], PAGE)
    ensures forall m: nat {:trigger lists[m]} :: m < |lists| ==> h + k !in lists[m]
  {
    FiledApart(n, blk, lists);
    forall m: nat | m < |lists|
      ensures h + k !in lists[m] && forall x :: x in lists[m] ==> s[x] == rec[x]
    {
      assert FiledIn(blk, lists[m], m);
      assert Place(blk, h + k) == -1 && Place(blk, h + blk[h].pages - 1) == -1;
    }
    AllLinkFrame(n, rec, s, lists);
  }

  lemma PartLinks(n: nat, rec: seq<Record>, blk: Blocks, lists: Lists, i: nat, k: nat, s: seq<Record>, r: seq<Record>)
    requires Tiles(n, blk) && AllLinked(n, s, lists) && Filed(blk, lists) && |rec| == |s| == n + 1 + SLOTS
    requires i < |lists[0]| && lists[0][i] in blk && blk[lists[0][i]].Free? && 0 < k < blk[lists[0][i]].pages
    requires var h := lists[0][i]; var t := h + blk[h].pages - 1;
      && t < n && s == rec[t := rec[t].(prev := h + k, kind := PAGE)]
      && 0 <= rec[h].prev < |rec| && 0 <= rec[h].next < |rec|
      && Granted(Cut(rec, h, blk[h].pages, k), r, h, k)
      && Tiles(n, SplitAt(blk, h, k)) && h + k !in blk
      && (forall m: nat {:trigger lists[m]} :: m < |lists| ==> h + k !in lists[m])
    ensures var h := lists[0][i];
      && AllLinked(n, r, lists[0 := With(lists[0], i, h + k)])
      && Filed(SplitAt(blk, h, k), lists[0 := With(lists[0], i, h + k)])
  {
    var h := lists[0][i];
    var b := SplitAt(blk, h, k);
    FiledApart(n, blk, lists);
    ReplaceAll(n, s, lists, 0, i, h + k, blk[h].pages - k);
    FiledReplace(blk, b, lists, 0, i, h + k);
    GrantLinks(n, Cut(rec, h, blk[h].pages, k), r, b, lists[0 := With(lists[0], i, h + k)], h, k);
  }

  lemma PartBlocks(n: nat, rec: seq<Record>, mem: seq<nat>, blk: Blocks, h: nat, k: nat,
                   s: seq<Record>, u: seq<Record>, r: seq<Record>)
    requires Sized(n, rec, mem) && Tiles(n, blk) && Encoded(n, rec, mem, blk) && |s| == |u| == |rec|
    requires h in blk && blk[h].Free? && 0 < k < blk[h].pages && Tiles(n, SplitAt(blk, h, k))
    requires var t := h + blk[h].pages - 1; s == rec[t := rec[t].(prev := h + k, kind := PAGE)]
    requires OthersSame2(n, s, u, blk, h, h + k) && u[h + k].slab == blk[h].pages - k && u[h + k].kind == PAGE
    requires InnerSame(n, s, u, blk, h + k)
    requires Granted(u, r, h, k)
    ensures Encoded(n, r, mem, SplitAt(blk, h, k))
  {
    var b := SplitAt(blk, h, k);
    var e := h + blk[h].pages;
    assert h + k !in blk && e <= n;
    PartRun(n, rec, mem, h, k, u, r);
    PartOthers(n, rec, blk, h, k, s, u, r);
    PartRest(n, rec, mem, blk, h, k, s, u, r);
    hide SameBody, Encoded, Tiles, BlockOK, OthersSame2, InnerSame, Granted;
    EncodedStep(n, rec, r, mem, blk, b, {h, h + k});
  }

  lemma PartRun(n: nat, rec: seq<Record>, mem: seq<nat>, h: nat, k: nat, u: seq<Record>, r: seq<Record>)
    requires Sized(n, rec, mem) && |u| == |r| == |rec| && 0 < k && h + k <= n && Granted(u, r, h, k)
    ensures BlockOK(n, r, mem, h, Run(k))
  {
  }

  // The other blocks keep their records.
  lemma PartOthers(n: nat, rec: seq<Record>, blk: Blocks, h: nat, k: nat,
                   s: seq<Record>, u: seq<Record>, r: seq<Record>)
    requires Tiles(n, blk) && |s| == |u| == |rec| == n + 1 + SLOTS
    requires h in blk && blk[h].Free? && 0 < k < blk[h].pages
    requires var t := h + blk[h].pages - 1; s == rec[t := rec[t].(prev := h + k, kind := PAGE)]
    requires OthersSame2(n, s, u, blk, h, h + k) && Granted(u, r, h, k)
    ensures forall x :: x in blk && x != h ==> SameBody(rec, r, x, blk[x])
  {
    forall x | x in blk && x != h
      ensures SameBody(rec, r, x, blk[x])
    {
      assert x + blk[x].Len() <= h || h + blk[h].pages <= x;
      assert SameBody(s, u, x, blk[x]);
    }
  }

  // What is left of the free run.
  lemma PartRest(n: nat, rec: seq<Record>, mem: seq<nat>, blk: Blocks, h: nat, k: nat,
                 s: seq<Record>, u: seq<Record>, r: seq<Record>)
    requires Sized(n, rec, mem) && Tiles(n, blk) && Encoded(n, rec, mem, blk) && |s| == |u| == |r| == |rec|
    requires h in blk && blk[h].Free? && 0 < k < blk[h].pages
    requires var t := h + blk[h].pages - 1; s == rec[t := rec[t].(prev := h + k, kind := PAGE)]
    requires u[h + k].slab == blk[h].pages - k && u[h + k].kind == PAGE
    requires InnerSame(n, s, u, blk, h + k) && Granted(u, r, h, k)
    ensures BlockOK(n, r, mem, h + k, Free(blk[h].pages - k))
  {
    var b, e := Free(blk[h].pages - k), h + blk[h].pages;
    forall q {:trigger InnerOK(n, r, h + k, b, q)} | h + k < q < e
      ensures InnerOK(n, r, h + k, b, q)
    {
      assert InnerOK(n, rec, h, blk[h], q);
      assert q !in blk;
    }
  }
}
