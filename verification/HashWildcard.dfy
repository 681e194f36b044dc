/** The nested hashes for wildcards: the builder and the finders. */
module HashWildcard {
  import opened HashNames

  /** A hash of first labels. `value` is what the finders fall back to when the label is not found. */
  datatype Table = Table(value: nat, slots: map<Name, Slot>)

  // The two low bits of a value: 00, 01, 10 and 11.
  datatype Slot = Both(v: nat) | Deeper(v: nat) | BothTable(t: Table) | DeeperTable(t: Table)

  /** What a lookup in the nested hashes gives for a name written label by label; 0 is nothing. */
  function Lookup(tail: bool, t: Table, r: Name): nat
    decreases |r|
  {
    if tail && !HasDot(r) then 0
    else if FirstLabel(r) in t.slots then
      match t.slots[FirstLabel(r)]
      case Both(v) => v
      case Deeper(v) => if tail then v + 1 else if !HasDot(r) then 0 else v
      case BothTable(sub) => if !HasDot(r) then sub.value else OrElse(Lookup(tail, sub, Rest(r)), sub.value)
      case DeeperTable(sub) => if !HasDot(r) then 0 else OrElse(Lookup(tail, sub, Rest(r)), sub.value)
    else t.value
  }

  // Tail wildcards never end with a dot.
  ghost predicate Applies(tail: bool, names: seq<Key>) {
    tail ==> NoTrailingDots(names)
  }

  ghost predicate Agrees(t: Table, names: seq<Key>, tail: bool, r: Name) {
    Applies(tail, names) ==> Lookup(tail, t, r) == LastMatch(tail, names, r)
  }

  /** The nested hashes give every name its match. */
  ghost predicate Serves(t: Table, names: seq<Key>) {
    forall tail, r :: Agrees(t, names, tail, r)
  }

  ghost predicate HaveValues(names: seq<Key>) {
    forall i :: 0 <= i < |names| ==> names[i].value != 0
  }

  // ----- one key -----

  lemma MatchSameLabel(tail: bool, k: Name, r: Name)
    requires Matches(tail, k, r)
    ensures FirstLabel(k) == FirstLabel(r)
  {
    MatchIsPrefix(tail, k, r);
    var n := DotAt(k);
    if n == |k| {
      if r != k {
        assert k + "." <= r;
        assert r[n] == (k + ".")[n];
      }
      DotIs(r, n);
    } else {
      assert r[n] == k[n];
      DotIs(r, n);
    }
    assert r[..n] == k[..n];
  }

  // A key with more labels, against a name.
  lemma LongKey(tail: bool, l: Name, k: Name, r: Name)
    requires '.' !in l && k != ""
    ensures Matches(tail, l + "." + k, l + "." + r) == Matches(tail, k, r)
    ensures !Matches(tail, l + "." + k, l)
  {
    var p := l + ".";
    assert (p + k)[|p + k| - 1] == k[|k| - 1];
    assert (p + k) + "." == p + (k + ".");
    PrefixPrefix(p, k, r);
    PrefixPrefix(p, k + ".", r);
    assert p + r == p + k <==> r == k by {
      assert (p + r)[|p|..] == r && (p + k)[|p|..] == k;
    }
  }

  lemma PrefixPrefix(p: Name, a: Name, b: Name)
    ensures p + a <= p + b <==> a <= b
  {
    if p + a <= p + b {
      assert a == (p + a)[|p|..] && b[..|a|] == (p + b)[|p|..|p| + |a|];
    }
  }

  // A key of one label, with or without a dot behind it.
  lemma ShortKey(tail: bool, l: Name, r: Name)
    requires '.' !in l
    ensures Matches(tail, l, l) == !tail && Matches(tail, l, l + "." + r)
    ensures !tail ==> !Matches(tail, l + ".", l) && Matches(tail, l + ".", l + "." + r)
  {
    NoDotAtEnd(l);
  }

  lemma NoDotAtEnd(l: Name)
    requires '.' !in l
    ensures !EndsWithDot(l)
  {
    assert l != "" ==> l[|l| - 1] in l;
  }

  // ----- a group of keys with one first label -----

  // The keys of `g` without `p` in front.
  ghost predicate IsSub(s: seq<Key>, g: seq<Key>, p: Name) {
    |s| == |g| && forall i :: 0 <= i < |g| ==> g[i].key == p + s[i].key && s[i].key != "" && s[i].value == g[i].value
  }

  lemma {:induction false} SubMatch(tail: bool, s: seq<Key>, g: seq<Key>, l: Name, r: Name)
    requires '.' !in l && IsSub(s, g, l + ".")
    ensures LastMatch(tail, g, l + "." + r) == LastMatch(tail, s, r) && LastMatch(tail, g, l) == 0
  {
    if g != [] {
      var n := |g| - 1;
      SubMatch(tail, s[..n], g[..n], l, r);
      LongKey(tail, l, s[n].key, r);
    }
  }

  lemma OtherLabel(tail: bool, g: seq<Key>, r: Name)
    requires forall i :: 0 <= i < |g| ==> FirstLabel(g[i].key) != FirstLabel(r)
    ensures LastMatch(tail, g, r) == 0
  {
    forall i | 0 <= i < |g|
      ensures !Matches(tail, g[i].key, r)
    {
      if Matches(tail, g[i].key, r) {
        MatchSameLabel(tail, g[i].key, r);
      }
    }
    NoMatch(tail, g, r);
  }

  // ----- the slot of a group -----

  // `own` is the key that is the label alone, if there is one; `s` are the longer keys without the label.
  ghost predicate IsSlot(slot: Slot, l: Name, own: seq<Key>, s: seq<Key>, sub: Table) {
    && |own| <= 1 && (own != [] ==> own[0].key == l || own[0].key == l + ".")
    && if s == [] then own != [] && slot == if own[0].key == l then Both(own[0].value) else Deeper(own[0].value)
       else if own == [] then slot == DeeperTable(sub)
       else if own[0].key == l then slot == BothTable(sub.(value := own[0].value))
       else slot == DeeperTable(sub.(value := own[0].value))
  }

  lemma Fallback(tail: bool, t: Table, v: nat, r: Name)
    requires t.value == 0
    ensures OrElse(Lookup(tail, t.(value := v), r), v) == OrElse(Lookup(tail, t, r), v)
  {
  }

  lemma SlotServes(tail: bool, t: Table, l: Name, own: seq<Key>, s: seq<Key>, g: seq<Key>, sub: Table, r: Name)
    requires '.' !in l && IsSub(s, g, l + ".") && l in t.slots && IsSlot(t.slots[l], l, own, s, sub)
    requires HaveValues(own + g) && Applies(tail, own + g) && FirstLabel(r) == l
    requires s != [] ==> sub.value == 0 && Serves(sub, s)
    ensures Lookup(tail, t, r) == LastMatch(tail, own + g, r)
  {
    ConcatParts(true, own, g);
    LastMatchConcat(tail, own, g, r);
    SubApplies(tail, l, own, s, g);
    if s != [] && HasDot(r) {
      assert Agrees(sub, s, tail, Rest(r));
      Fallback(tail, sub, if own == [] then 0 else own[0].value, Rest(r));
    }
    hide Serves, HaveValues, Applies;
    Parts(r);
    OwnMatch(tail, l, own, if HasDot(r) then Rest(r) else "");
    SubMatch(tail, s, g, l, if HasDot(r) then Rest(r) else "");
    hide IsSub, FirstLabel, HasDot, Rest, LastMatch;
  }

  // The key that is the label alone, against the label and against a longer name.
  lemma OwnMatch(tail: bool, l: Name, own: seq<Key>, r: Name)
    requires '.' !in l && |own| <= 1
    requires own != [] ==> own[0].key == l || (!tail && own[0].key == l + ".")
    ensures LastMatch(tail, own, l + "." + r) == if own == [] then 0 else own[0].value
    ensures LastMatch(tail, own, l) == if own == [] || tail || own[0].key != l then 0 else own[0].value
  {
    ShortKey(tail, l, r);
    assert own != [] ==> own[..|own| - 1] == [];
  }

  lemma SubApplies(tail: bool, l: Name, own: seq<Key>, s: seq<Key>, g: seq<Key>)
    requires IsSub(s, g, l + ".") && Applies(tail, own + g)
    ensures Applies(tail, s)
    ensures tail && own != [] ==> own[0].key != l + "."
  {
    if tail {
      forall i | 0 <= i < |s|
        ensures !EndsWithDot(s[i].key)
      {
        assert (own + g)[|own| + i] == g[i];
        assert g[i].key[|g[i].key| - 1] == s[i].key[|s[i].key| - 1];
      }
      if own != [] {
        assert (own + g)[0] == own[0];
        assert (l + ".")[|l|] == '.';
      }
    }
  }

  // ----- the groups of a sorted list -----

  lemma LabelPrefix(k: Name, l: Name)
    requires '.' !in l
    ensures FirstLabel(k) == l <==> k == l || l + "." <= k
  {
    Parts(k);
    if l + "." <= k {
      assert k == l + "." + k[|l| + 1..];
      Labelled(l, k[|l| + 1..]);
    }
    if k == l {
      Labelled(l, "");
    }
  }

  // The two tests by which the inner loop recognises a key of the group.
  predicate Follows(head: Name, k: Name, dot: bool, len: nat)
    requires len <= |head|
  {
    head[..len] <= k && (dot || |k| <= len || k[len] == '.')
  }

  // Where the head of a group splits.
  ghost predicate Split(head: Name, l: Name, dot: bool, len: nat) {
    && '.' !in l && len == |l| + (if dot then 1 else 0)
    && if dot then l + "." <= head else head == l
  }

  /** A following key of the group is the label, a dot, and more. */
  lemma NextInGroup(names: seq<Key>, n: nat, i: nat, l: Name, dot: bool, len: nat)
    requires Sorted(names) && ConflictFree(names) && n < i < |names| && Split(names[n].key, l, dot, len)
    requires Follows(names[n].key, names[i].key, dot, len)
    ensures var k := names[i].key;
      |l| + 1 < |k| && k == l + "." + k[|l| + 1..]
  {
    var h, k := names[n].key, names[i].key;
    LessAsym(h, k);
    if dot {
      assert h[..len] == l + ".";
      if k == l + "." {
        PrefixLess(k, h);
      }
    } else {
      assert h[..len] == l;
      assert k != h + ".";
    }
  }

  /** The group ends at the first key that does not follow. */
  lemma GroupEnds(names: seq<Key>, n: nat, i: nat, l: Name, dot: bool, len: nat)
    requires Sorted(names) && n < i <= |names| && Split(names[n].key, l, dot, len)
    requires i < |names| ==> !Follows(names[n].key, names[i].key, dot, len)
    ensures forall j :: i <= j < |names| ==> FirstLabel(names[j].key) != l
  {
    forall j | i <= j < |names|
      ensures FirstLabel(names[j].key) != l
    {
      LabelPrefix(names[j].key, l);
      var h, a, k := names[n].key, names[i].key, names[j].key;
      LessAsym(h, k);
      if k == l {
        assert l <= h;
        PrefixLess(l, h);
      } else if l + "." <= k {
        AfterEnd(h, a, k, l, dot, len, i == j);
      }
    }
  }

  lemma AfterEnd(h: Name, a: Name, k: Name, l: Name, dot: bool, len: nat, same: bool)
    requires Split(h, l, dot, len) && !Follows(h, a, dot, len) && Less(h, a) && (if same then a == k else Less(a, k))
    ensures !(l + "." <= k)
  {
    var p := l + ".";
    assert l <= p && h[..len] == if dot then p else l;
    if p <= k && !same {
      if dot {
        Sandwich(p, h, a, k);
      } else {
        Sandwich(l, h, a, k);
        assert a == l + a[|l|..] && k == l + k[|l|..];
        SamePrefix(l, a[|l|..], k[|l|..]);
      }
    }
  }

  // ----- what the builder's loop adds -----

  lemma SubList(s: seq<Key>, g: seq<Key>, l: Name)
    requires IsSub(s, g, l + ".") && Sorted(g) && ConflictFree(g) && HaveValues(g)
    ensures Sorted(s) && ConflictFree(s) && HaveValues(s)
  {
    forall i, j | 0 <= i < j < |s|
      ensures Less(s[i].key, s[j].key)
    {
      SamePrefix(l + ".", s[i].key, s[j].key);
    }
    forall i, j | 0 <= i < |s| && 0 <= j < |s|
      ensures s[j].key != s[i].key + "."
    {
      assert l + "." + (s[i].key + ".") == g[i].key + ".";
    }
  }

  lemma GroupAdded(slots: map<Name, Slot>, slot: Slot, done: seq<Key>, own: seq<Key>, g: seq<Key>, s: seq<Key>,
                   sub: Table, l: Name)
    requires Serves(Table(0, slots), done) && '.' !in l && l !in slots
    requires forall i :: 0 <= i < |done| ==> FirstLabel(done[i].key) in slots
    requires HaveValues(done + (own + g)) && IsSub(s, g, l + ".") && IsSlot(slot, l, own, s, sub)
    requires s != [] ==> sub.value == 0 && Serves(sub, s)
    ensures Serves(Table(0, slots[l := slot]), done + (own + g))
    ensures forall i :: 0 <= i < |own + g| ==> FirstLabel((own + g)[i].key) == l
  {
    var group := own + g;
    var t, names := Table(0, slots[l := slot]), done + group;
    GroupLabel(own, g, s, l);
    forall tail, r
      ensures Agrees(t, names, tail, r)
    {
      if Applies(tail, names) {
        ConcatParts(tail, done, group);
        LastMatchConcat(tail, done, group, r);
        if FirstLabel(r) == l {
          OtherLabel(tail, done, r);
          SlotServes(tail, t, l, own, s, g, sub, r);
        } else {
          OtherLabel(tail, group, r);
          assert Agrees(Table(0, slots), done, tail, r);
          AddSlot(tail, slots, l, slot, r);
        }
      }
    }
  }

  lemma AddSlot(tail: bool, slots: map<Name, Slot>, l: Name, slot: Slot, r: Name)
    requires FirstLabel(r) != l
    ensures Lookup(tail, Table(0, slots[l := slot]), r) == Lookup(tail, Table(0, slots), r)
  {
  }

  lemma ConcatParts(tail: bool, a: seq<Key>, b: seq<Key>)
    ensures HaveValues(a + b) ==> HaveValues(a) && HaveValues(b)
    ensures Applies(tail, a + b) ==> Applies(tail, a) && Applies(tail, b)
  {
    assert forall i :: 0 <= i < |a| ==> (a + b)[i] == a[i];
    assert forall i :: 0 <= i < |b| ==> (a + b)[|a| + i] == b[i];
  }

  lemma GroupLabel(own: seq<Key>, g: seq<Key>, s: seq<Key>, l: Name)
    requires '.' !in l && IsSub(s, g, l + ".") && (own != [] ==> own[0].key == l || own[0].key == l + ".") && |own| <= 1
    ensures forall i :: 0 <= i < |own + g| ==> FirstLabel((own + g)[i].key) == l
  {
    forall i | 0 <= i < |own + g|
      ensures FirstLabel((own + g)[i].key) == l
    {
      LabelPrefix((own + g)[i].key, l);
      if i >= |own| {
        assert (own + g)[i] == g[i - |own|];
      }
    }
  }

  // ----- building -----

  // The first label of a key: its length, and whether a dot follows.
  method ScanLabel(key: Name) returns (len: nat, dot: bool)
    ensures len == DotAt(key) && dot == HasDot(key)
  {
    dot := false;
    len := 0;
    while len < |key|
      invariant len <= DotAt(key) && !dot
    {
      if key[len] == '.' {
        dot := true;
        break;
      }
      len := len + 1;
    }
  }

  lemma HeadParts(k: Name, first: nat, dot: bool)
    requires first == DotAt(k) && dot == HasDot(k)
    ensures var l := FirstLabel(k);
      '.' !in l && |l| == first && if dot then first < |k| && k == l + "." + k[first + 1..] else k == l
  {
    Parts(k);
  }

  lemma EmptySub(p: Name)
    ensures IsSub([], [], p)
  {
  }

  lemma SubGrows(s: seq<Key>, g: seq<Key>, p: Name, x: Key, k: Key)
    requires IsSub(s, g, p) && k.key == p + x.key && x.key != "" && x.value == k.value
    ensures IsSub(s + [x], g + [k], p)
  {
  }

  // The keys that share the first label of the n-th one, without that label.
  method Group(names: seq<Key>, n: nat, first: nat, dot: bool)
    returns (next: seq<Key>, i: nat, ghost own: seq<Key>, ghost g: seq<Key>)
    requires Sorted(names) && ConflictFree(names) && n < |names|
    requires first == DotAt(names[n].key) && dot == HasDot(names[n].key)
    ensures n < i <= |names| && names[n..i] == own + g && IsSub(next, g, FirstLabel(names[n].key) + ".")
    ensures |own| <= 1 && (own != [] <==> |names[n].key| == first + if dot then 1 else 0)
    ensures own != [] ==> own[0] == names[n] && own[0].key == FirstLabel(names[n].key) + if dot then "." else ""
    ensures next == [] ==> own != []
    ensures forall j :: i <= j < |names| ==> FirstLabel(names[j].key) != FirstLabel(names[n].key)
  {
    hide Sorted, ConflictFree, IsSub, FirstLabel, HasDot;
    ghost var l := FirstLabel(names[n].key);
    HeadParts(names[n].key, first, dot);
    EmptySub(l + ".");
    var dotLen := first + 1;
    var len := if dot then first + 1 else first;
    next := [];
    own, g := [names[n]], [];
    if |names[n].key| != len {
      next := next + [Key(names[n].key[len..], names[n].value)];
      own, g := [], [] + [names[n]];
      SubGrows([], [], l + ".", next[0], names[n]);
    }
    i := n + 1;
    assert names[n..i] == own + g;
    while i < |names|
      invariant n < i <= |names| && names[n..i] == own + g && IsSub(next, g, l + ".")
      invariant next == [] ==> own != []
    {
      if !(names[n].key[..len] <= names[i].key) {
        break;
      }
      if !dot && |names[i].key| > len && names[i].key[len] != '.' {
        break;
      }
      NextInGroup(names, n, i, l, dot, len);
      SubGrows(next, g, l + ".", Key(names[i].key[dotLen..], names[i].value), names[i]);
      next := next + [Key(names[i].key[dotLen..], names[i].value)];
      assert names[n..i + 1] == names[n..i] + [names[i]];
      g := g + [names[i]];
      i := i + 1;
    }
    GroupEnds(names, n, i, l, dot, len);
  }

  /** The builder: for sorted names without conflicts the nested hashes give every name the value of the
      key that comes last among those that match it. */
  method WildcardInit(names: seq<Key>, ghost bound: nat) returns (t: Table)
    requires Sorted(names) && ConflictFree(names) && HaveValues(names)
    requires forall i :: 0 <= i < |names| ==> |names[i].key| <= bound
    ensures t.value == 0 && Serves(t, names)
    decreases bound
  {
    var slots: map<Name, Slot> := map[];
    var n := 0;
    NothingServed();
    hide Serves;
    while n < |names|
      invariant n <= |names| && Serves(Table(0, slots), names[..n])
      invariant forall j :: n <= j < |names| ==> FirstLabel(names[j].key) !in slots
      invariant forall j :: 0 <= j < n ==> FirstLabel(names[j].key) in slots
    {
      var len, dot := ScanLabel(names[n].key);
      var next, i;
      ghost var own, g;
      next, i, own, g := Group(names, n, len, dot);
      var slot := MakeSlot(names, n, i, len, dot, next, own, g, slots, bound);
      slots := slots[names[n].key[..len] := slot];
      n := i;
    }
    assert names[..n] == names;
    t := Table(0, slots);
  }

  method MakeSlot(names: seq<Key>, n: nat, i: nat, len: nat, dot: bool, next: seq<Key>, ghost own: seq<Key>,
                  ghost g: seq<Key>,
                  ghost slots: map<Name, Slot>, ghost bound: nat) returns (slot: Slot)
    requires Sorted(names) && ConflictFree(names) && HaveValues(names) && n < i <= |names|
    requires forall j :: 0 <= j < |names| ==> |names[j].key| <= bound
    requires len == DotAt(names[n].key) && dot == HasDot(names[n].key)
    requires names[n..i] == own + g && IsSub(next, g, FirstLabel(names[n].key) + ".")
    requires |own| <= 1 && (own != [] <==> |names[n].key| == len + if dot then 1 else 0)
    requires own != [] ==> own[0] == names[n] && own[0].key == FirstLabel(names[n].key) + if dot then "." else ""
    requires (next == [] ==> own != []) && Serves(Table(0, slots), names[..n]) && FirstLabel(names[n].key) !in slots
    requires forall j :: 0 <= j < n ==> FirstLabel(names[j].key) in slots
    ensures Serves(Table(0, slots[FirstLabel(names[n].key) := slot]), names[..i])
    ensures forall j :: n <= j < i ==> FirstLabel(names[j].key) == FirstLabel(names[n].key)
    decreases bound, 0
  {
    ghost var l := FirstLabel(names[n].key);
    Parts(names[n].key);
    GroupFacts(names, n, i, own, g, next, l);
    ghost var sub := Table(0, map[]);
    if next != [] {
      assert next[0].key != "" && g[0].key == l + "." + next[0].key;
      var wdc := WildcardInit(next, bound - 1);
      sub := wdc;
      if |names[n].key| == len + if dot then 1 else 0 {
        wdc := wdc.(value := names[n].value);
      }
      slot := if dot then DeeperTable(wdc) else BothTable(wdc);
    } else {
      slot := if dot then Deeper(names[n].value) else Both(names[n].value);
    }
    GroupAdded(slots, slot, names[..n], own, g, next, sub, l);
  }

  lemma GroupFacts(names: seq<Key>, n: nat, i: nat, own: seq<Key>, g: seq<Key>, s: seq<Key>, l: Name)
    requires Sorted(names) && ConflictFree(names) && HaveValues(names) && n < i <= |names|
    requires names[n..i] == own + g && IsSub(s, g, l + ".")
    ensures names[..n] + (own + g) == names[..i] && HaveValues(names[..i])
    ensures Sorted(s) && ConflictFree(s) && HaveValues(s)
    ensures forall k :: 0 <= k < |g| ==> g[k] in names && |s[k].key| < |g[k].key|
    ensures forall j :: n <= j < i ==> names[j] == (own + g)[j - n]
  {
    assert forall k :: 0 <= k < |g| ==> g[k] == (own + g)[|own| + k] == names[n + |own| + k];
    SubList(s, g, l);
  }

  lemma NothingServed()
    ensures Serves(Table(0, map[]), [])
  {
  }

  // ----- finding -----

  /** ngx_hash_find_wc_head: the last label first. */
  method FindHead(hwc: Table, name: Name) returns (value: nat)
    ensures value == Lookup(false, hwc, Reversed(name))
    decreases |name|
  {
    var n := |name|;
    while n > 0
      invariant 0 <= n <= |name| && forall k :: n <= k < |name| ==> name[k] != '.'
    {
      if name[n - 1] == '.' {
        break;
      }
      n := n - 1;
    }
    LastDotIs(name, n);
    ReversedLabel(name);
    if name[n..] in hwc.slots {
      match hwc.slots[name[n..]]
      case BothTable(sub) =>
        if n == 0 {
          return sub.value;
        }
        value := FindHead(sub, name[..n - 1]);
        if value != 0 {
          return;
        }
        return sub.value;
      case DeeperTable(sub) =>
        if n == 0 {
          return 0;
        }
        value := FindHead(sub, name[..n - 1]);
        if value != 0 {
          return;
        }
        return sub.value;
      case Deeper(v) =>
        if n == 0 {
          return 0;
        }
        return v;
      case Both(v) =>
        return v;
    }
    return hwc.value;
  }

  /** ngx_hash_find_wc_tail: the first label first; the last label is never looked up. */
  method FindTail(hwc: Table, name: Name) returns (value: nat)
    ensures value == Lookup(true, hwc, name)
    decreases |name|
  {
    var i, dot := ScanLabel(name);
    if i == |name| {
      return 0;
    }
    if name[..i] in hwc.slots {
      match hwc.slots[name[..i]]
      case BothTable(sub) =>
        value := FindTail(sub, name[i + 1..]);
        if value != 0 {
          return;
        }
        return sub.value;
      case DeeperTable(sub) =>
        value := FindTail(sub, name[i + 1..]);
        if value != 0 {
          return;
        }
        return sub.value;
      case Deeper(v) =>
        return v + 1;                     // the value as it is, with its low bit; no tail wildcard has one
      case Both(v) =>
        return v;
    }
    return hwc.value;
  }

  /** What the finders return is the value of the longest wildcard that matches, or nothing. */
  lemma FindsLongest(t: Table, names: seq<Key>, tail: bool, r: Name)
    requires Sorted(names) && Serves(t, names) && Applies(tail, names)
    ensures if NoneMatches(tail, names, r) then Lookup(tail, t, r) == 0
            else exists i: nat :: IsLongest(tail, names, r, i) && Lookup(tail, t, r) == names[i].value
  {
    assert Agrees(t, names, tail, r);
    LastMatchIsLongest(tail, names, r);
  }
}
