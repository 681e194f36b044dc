/** The nested hashes in memory: labels are the names of a hash, and a value carries the kind of the slot in its
    two low bits. First one level, then all of them. */
module HashLevel {
  import opened HashLayout
  import opened HashNames
  import opened HashWildcard

  function Encoded(l: Name): seq<Byte> {
    seq(|l|, i requires 0 <= i < |l| => l[i] as nat)
  }

  predicate LowerCase(l: Name) {
    forall i :: 0 <= i < |l| ==> !('A' <= l[i] <= 'Z')
  }

  /** The value in the hash: `at` is where the hash of the next level is. */
  function Tagged(s: Slot, at: nat): nat {
    match s
    case Both(v) => v
    case Deeper(v) => v + 1
    case BothTable(_) => at + 2
    case DeeperTable(_) => at + 3
  }

  // Pointers leave the two low bits free.
  predicate Aligned(s: Slot, at: nat) {
    if s.Both? || s.Deeper? then s.v > 0 && s.v % 4 == 0 else at > 0 && at % 4 == 0
  }

  /** What the finders make of a value. */
  datatype Seen = Nothing | Data(v: nat, below: bool) | Next(at: nat, below: bool)

  function Untagged(w: nat): Seen {
    if w == 0 then Nothing
    else if w / 2 % 2 == 1 then Next(w / 4 * 4, w % 2 == 1)
    else Data(w / 4 * 4, w % 2 == 1)
  }

  /** The tags read back. */
  lemma TagsRead(s: Slot, at: nat)
    requires Aligned(s, at)
    ensures Untagged(Tagged(s, at)) ==
      match s
      case Both(v) => Data(v, false)
      case Deeper(v) => Data(v, true)
      case BothTable(_) => Next(at, false)
      case DeeperTable(_) => Next(at, true)
  {
    var p := if s.Both? || s.Deeper? then s.v else at;
    assert p == 4 * (p / 4);
  }

  /** The items a level is built from. */
  function Level(labels: seq<Name>, slots: map<Name, Slot>, at: Name -> nat, h: seq<Byte> -> nat): (items: seq<Item>)
    requires forall i :: 0 <= i < |labels| ==> labels[i] in slots
    ensures |items| == |labels|
  {
    seq(|labels|, i requires 0 <= i < |labels| =>
      Item(Encoded(labels[i]), h(Lower(Encoded(labels[i]))), Tagged(slots[labels[i]], at(labels[i]))))
  }

  lemma EncodedIsLower(l: Name)
    requires LowerCase(l)
    ensures Lower(Encoded(l)) == Encoded(l)
  {
  }

  lemma EncodedTells(a: Name, b: Name)
    requires Encoded(a) == Encoded(b)
    ensures a == b
  {
    forall i | 0 <= i < |a|
      ensures a[i] == b[i]
    {
      assert Encoded(a)[i] == a[i] as nat && Encoded(b)[i] == b[i] as nat;
    }
  }

  /** The labels of a level, each once, are distinct names with values. */
  lemma LevelIsBuildable(labels: seq<Name>, slots: map<Name, Slot>, at: Name -> nat, h: seq<Byte> -> nat)
    requires forall i :: 0 <= i < |labels| ==>
      labels[i] in slots && LowerCase(labels[i]) && Aligned(slots[labels[i]], at(labels[i]))
    requires forall i, j :: 0 <= i < j < |labels| ==> labels[i] != labels[j]
    ensures var items := Level(labels, slots, at, h);
      DistinctNames(items) && HashLayout.HaveValues(items) && Hashed(items, h)
  {
    hide Lower, Encoded;
    var items := Level(labels, slots, at, h);
    forall i, j | 0 <= i < j < |items|
      ensures Lower(items[i].key) != Lower(items[j].key)
    {
      EncodedIsLower(labels[i]);
      EncodedIsLower(labels[j]);
      if Encoded(labels[i]) == Encoded(labels[j]) {
        EncodedTells(labels[i], labels[j]);
      }
    }
  }

  /** Searching the hash of a level gives what the level's slots say: the tagged value of a label, or null. */
  lemma LevelAnswers(labels: seq<Name>, slots: map<Name, Slot>, at: Name -> nat, h: seq<Byte> -> nat, size: nat,
                     r: Name)
    requires size > 0
    requires forall i :: 0 <= i < |labels| ==>
      labels[i] in slots && LowerCase(labels[i]) && Aligned(slots[labels[i]], at(labels[i]))
    requires forall i, j :: 0 <= i < j < |labels| ==> labels[i] != labels[j]
    requires forall l :: l in slots ==> l in labels
    ensures FirstIn(Chain(Level(labels, slots, at, h), h(Encoded(r)) % size, size), Encoded(r))
      == if r in slots then Tagged(slots[r], at(r)) else 0
  {
    hide Lower, Encoded, Chain, FirstIn, Tagged;
    var items := Level(labels, slots, at, h);
    LevelIsBuildable(labels, slots, at, h);
    BucketAnswers(items, size, h, Encoded(r));
    forall i | 0 <= i < |items|
      ensures Lower(items[i].key) == Encoded(r) <==> labels[i] == r
    {
      EncodedIsLower(labels[i]);
      if Encoded(labels[i]) == Encoded(r) {
        EncodedTells(labels[i], r);
      }
    }
    if r in slots {
      var i :| 0 <= i < |labels| && labels[i] == r;
      assert items[i].Item? && Lower(items[i].key) == Encoded(r);
    }
  }

  // ----- all levels -----

  /** A hash in memory: the value for labels that are not in it, and what it was built from. */
  datatype Packed = Packed(value: nat, items: seq<Item>, size: nat)

  type Heap = map<nat, Packed>

  predicate HasTable(s: Slot) {
    s.BothTable? || s.DeeperTable?
  }

  function At(place: map<Name, nat>, l: Name): nat {
    if l in place then place[l] else 0
  }

  // The items of a level, with the places of the next levels.
  ghost predicate IsLevel(items: seq<Item>, slots: map<Name, Slot>, labels: seq<Name>, place: map<Name, nat>,
                          h: seq<Byte> -> nat) {
    && (forall i :: 0 <= i < |labels| ==>
      labels[i] in slots && LowerCase(labels[i]) && Aligned(slots[labels[i]], At(place, labels[i])))
    && (forall i, j :: 0 <= i < j < |labels| ==> labels[i] != labels[j])
    && (forall l :: l in slots ==> l in labels)
    && items == Level(labels, slots, l => At(place, l), h)
  }

  /** The nested hashes stand in memory from `at` on. */
  ghost predicate Stands(heap: Heap, at: nat, t: Table, h: seq<Byte> -> nat)
    decreases t
  {
    && at in heap && heap[at].size > 0 && heap[at].value == t.value
    && exists labels, place ::
         IsLevel(heap[at].items, t.slots, labels, place, h)
         && forall l :: l in t.slots && HasTable(t.slots[l]) ==> Stands(heap, At(place, l), t.slots[l].t, h)
  }

  // What ngx_hash_find gives in one of the hashes.
  function Value(p: Packed, l: Name, h: seq<Byte> -> nat): nat
    requires p.size > 0
  {
    FirstIn(Chain(p.items, h(Encoded(l)) % p.size, p.size), Encoded(l))
  }

  /** The finders on the hashes in memory, with the tests of the low bits. */
  function Find(tail: bool, heap: Heap, at: nat, r: Name, h: seq<Byte> -> nat): nat
    decreases |r|
  {
    if (tail && !HasDot(r)) || at !in heap || heap[at].size == 0 then 0
    else
      var w := Value(heap[at], FirstLabel(r), h);
      if w == 0 then heap[at].value
      else if w / 2 % 2 == 1 then
        var sub := w / 4 * 4;
        var below := if sub in heap then heap[sub].value else 0;
        if !HasDot(r) then if w % 2 == 1 then 0 else below
        else OrElse(Find(tail, heap, sub, Rest(r), h), below)
      else if !tail && w % 2 == 1 then if HasDot(r) then w / 4 * 4 else 0
      else w
  }

  /** Finding in memory, level by level, is finding in the nested hashes. */
  lemma {:induction false} FindIsLookup(tail: bool, heap: Heap, at: nat, t: Table, r: Name, h: seq<Byte> -> nat)
    requires Stands(heap, at, t, h)
    ensures Find(tail, heap, at, r, h) == Lookup(tail, t, r)
    decreases |r|
  {
    hide Chain, FirstIn, Encoded, FirstLabel, LowerCase;
    var labels, place :| IsLevel(heap[at].items, t.slots, labels, place, h)
      && forall l :: l in t.slots && HasTable(t.slots[l]) ==> Stands(heap, At(place, l), t.slots[l].t, h);
    var l := FirstLabel(r);
    LevelAnswers(labels, t.slots, x => At(place, x), h, heap[at].size, l);
    if l in t.slots {
      var s := t.slots[l];
      TagsRead(s, At(place, l));
      if HasTable(s) && HasDot(r) {
        FindIsLookup(tail, heap, At(place, l), s.t, Rest(r), h);
      }
    }
  }

  // ----- there is a place for all levels -----

  /** Labels in lower case, and values that are pointers. */
  ghost predicate Proper(t: Table)
    decreases t
  {
    forall l :: l in t.slots ==>
      LowerCase(l) && if HasTable(t.slots[l]) then Proper(t.slots[l].t) else Aligned(t.slots[l], 0)
  }

  ghost predicate Inside(heap: Heap, from: nat, end: nat) {
    forall a :: a in heap ==> from <= a < end
  }

  ghost predicate Within(heap: Heap, w: Heap) {
    forall a :: a in heap ==> a in w && w[a] == heap[a]
  }

  lemma {:induction false} StandsStill(heap: Heap, w: Heap, at: nat, t: Table, h: seq<Byte> -> nat)
    requires Stands(heap, at, t, h) && Within(heap, w)
    ensures Stands(w, at, t, h)
    decreases t
  {
    var labels, place :| IsLevel(heap[at].items, t.slots, labels, place, h)
      && forall l :: l in t.slots && HasTable(t.slots[l]) ==> Stands(heap, At(place, l), t.slots[l].t, h);
    forall l | l in t.slots && HasTable(t.slots[l])
      ensures Stands(w, At(place, l), t.slots[l].t, h)
    {
      StandsStill(heap, w, At(place, l), t.slots[l].t, h);
    }
    assert IsLevel(w[at].items, t.slots, labels, place, h);
  }

  /** All nested hashes can be put into memory. */
  lemma {:induction false} PutTable(t: Table, h: seq<Byte> -> nat, from: nat) returns (heap: Heap, at: nat)
    requires Proper(t) && from > 0 && from % 4 == 0
    ensures Stands(heap, at, t, h) && Inside(heap, from, at + 4) && at >= from && at % 4 == 0
    decreases t, 1
  {
    var labels, place;
    heap, labels, place, at := PutLevels(t, t.slots.Keys, h, from);
    var w := heap[at := Packed(t.value, Level(labels, t.slots, l => At(place, l), h), 1)];
    forall l | l in t.slots && HasTable(t.slots[l])
      ensures Stands(w, At(place, l), t.slots[l].t, h)
    {
      StandsStill(heap, w, At(place, l), t.slots[l].t, h);
    }
    assert IsLevel(w[at].items, t.slots, labels, place, h);
    heap := w;
  }

  // The levels below some of the labels.
  lemma {:induction false} PutLevels(t: Table, keys: set<Name>, h: seq<Byte> -> nat, from: nat)
    returns (heap: Heap, labels: seq<Name>, place: map<Name, nat>, end: nat)
    requires Proper(t) && keys <= t.slots.Keys && from > 0 && from % 4 == 0
    ensures Inside(heap, from, end) && end >= from && end % 4 == 0
    ensures forall l :: l in labels <==> l in keys
    ensures forall i, j :: 0 <= i < j < |labels| ==> labels[i] != labels[j]
    ensures forall l :: l in keys ==> Aligned(t.slots[l], At(place, l))
    ensures forall l :: l in keys && HasTable(t.slots[l]) ==> Stands(heap, At(place, l), t.slots[l].t, h)
    decreases t, 0, keys
  {
    if keys == {} {
      return map[], [], map[], from;
    }
    var l :| l in keys;
    var one, ls, p, mid := PutLevels(t, keys - {l}, h, from);
    labels := ls + [l];
    var at, two := 0, map[];
    end := mid;
    if HasTable(t.slots[l]) {
      two, at := PutTable(t.slots[l].t, h, mid);
      end := at + 4;
    }
    heap := one + two;
    place := p[l := at];
    forall k | k in keys && HasTable(t.slots[k])
      ensures Stands(heap, At(place, k), t.slots[k].t, h)
    {
      if k == l {
        StandsStill(two, heap, at, t.slots[l].t, h);
      } else {
        StandsStill(one, heap, At(p, k), t.slots[k].t, h);
      }
    }
  }
}
