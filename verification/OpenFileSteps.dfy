/** What each small step of the cache does to the invariant. */
module OpenFileSteps {
  import opened Common
  import opened OpenFileState

  ghost function FdOf(s: State, e: Id): set<int>
    requires e in s.entries
  {
    if s.entries[e].fd == NO_FILE then {} else {s.entries[e].fd}
  }

  // ----- frames -----

  predicate Holds(s: State, hole: int, d: Id) {
    d in s.entries && d != hole && s.entries[d].fd != NO_FILE
  }

  lemma OwnedFrame(s: State, hole: int, w: State, whole: int, extra: set<int>)
    requires Owned(s, hole, extra) && w.open == s.open && w.leaked == s.leaked
    requires forall d {:trigger Holds(w, whole, d)} {:trigger Holds(s, hole, d)} :: Holds(w, whole, d) <==>
      Holds(s, hole, d)
    requires forall d {:trigger Holds(w, whole, d)} :: Holds(w, whole, d) ==>
      d in s.entries && w.entries[d].fd == s.entries[d].fd
    ensures Owned(w, whole, extra)
  {
    forall x
      ensures x in Held(w, whole) <==> x in Held(s, hole)
    {
      if x in Held(w, whole) {
        var d :| d in w.entries && d != whole && w.entries[d].fd != NO_FILE && w.entries[d].fd == x;
        assert Holds(w, whole, d);
      }
      if x in Held(s, hole) {
        var d :| d in s.entries && d != hole && s.entries[d].fd != NO_FILE && s.entries[d].fd == x;
        assert Holds(s, hole, d);
      }
    }
    forall d, e | d in w.entries && e in w.entries && d != whole && e != whole && d != e && w.entries[d].fd != NO_FILE
      ensures w.entries[d].fd != w.entries[e].fd
    {
      assert Holds(w, whole, d);
      if w.entries[e].fd != NO_FILE {
        assert Holds(w, whole, e);
      }
    }
  }

  lemma CleanFrame(s: State, hole: int, w: State, whole: int)
    requires AllClean(s, hole)
    requires forall d :: d in w.entries && d != whole ==> d in s.entries && d != hole && w.entries[d] == s.entries[d]
    requires forall d :: d in w.entries && d != whole ==> InTree(w, d) == InTree(s, d)
    ensures AllClean(w, whole)
  {
    forall d | d in w.entries && d != whole
      ensures Clean(w, d)
    {
      assert Clean(s, d);
    }
  }

  lemma QueuedFrame(s: State, w: State, hole: int)
    requires Queued(s, hole) && w.queue == s.queue && w.current == s.current && forall d :: InTree(w, d) == InTree(s, d)
    ensures Queued(w, hole)
  {
  }

  // The same entries under the same names.
  ghost predicate SameNames(s: State, w: State) {
    && w.entries.Keys == s.entries.Keys && w.tree == s.tree && w.current == s.current
    && forall d :: d in s.entries ==> w.entries[d].name == s.entries[d].name
  }

  lemma IndexedFrame(s: State, w: State)
    requires SameNames(s, w)
    ensures Indexed(s) ==> Indexed(w)
    ensures forall d :: InTree(w, d) == InTree(s, d)
  {
    assert forall d :: d in w.entries <==> d in s.entries;
  }

  lemma CountedFrame(s: State, w: State)
    requires Counted(s) && w.handles == s.handles && w.entries.Keys == s.entries.Keys
    requires forall d :: d in s.entries ==> w.entries[d].count == s.entries[d].count
    ensures Counted(w)
  {
    forall d | d in w.entries
      ensures w.entries[d].count == |HandlesOf(w, d)|
    {
      assert d in s.entries;
      assert HandlesOf(w, d) == HandlesOf(s, d);
    }
    forall h | h in w.handles
      ensures w.handles[h].entry in w.entries
    {
      assert w.handles[h].entry in s.entries;
    }
  }

  // ----- descriptors in the air -----

  /** An entry whose descriptor is in the hands of the call, with others in the air (`extra`). */
  ghost predicate InHand(s: State, qhole: int, e: Id, extra: set<int>) {
    e in s.entries && Inv(s, qhole, e, FdOf(s, e) + extra) && FdOf(s, e) !! extra
  }

  /** The descriptor of an entry is taken into the hands of the call. */
  lemma Lift(s: State, qhole: int, e: Id, extra: set<int>)
    requires Inv(s, qhole, -1, extra) && e in s.entries
    ensures InHand(s, qhole, e, extra)
  {
    assert Clean(s, e);
    LiftOwned(s, e, extra);
  }

  lemma LiftOwned(s: State, e: Id, extra: set<int>)
    requires e in s.entries
    ensures Owned(s, -1, extra) <==> Owned(s, e, FdOf(s, e) + extra) && FdOf(s, e) !! extra
  {
    var a, b := Held(s, -1), Held(s, e);
    forall x
      ensures x in a <==> x in b + FdOf(s, e)
    {
      if x in a && x !in FdOf(s, e) {
        var d :| d in s.entries && s.entries[d].fd == x && x != NO_FILE;
        assert d != e;
      }
    }
    assert a == b + FdOf(s, e);
    assert forall d :: d in s.entries && d != e && s.entries[d].fd != NO_FILE ==> s.entries[d].fd in b;
    if Owned(s, -1, extra) {
      assert FdOf(s, e) !! b;
    }
  }

  /** The entry in hand is put back when it is clean. */
  lemma Settle(s: State, qhole: int, e: Id, extra: set<int>)
    requires InHand(s, qhole, e, extra) && Clean(s, e)
    ensures Inv(s, qhole, -1, extra)
  {
    LiftOwned(s, e, extra);
  }

  lemma OpenOne(s: State, qhole: int, fhole: int, extra: set<int>, fd: int)
    requires Inv(s, qhole, fhole, extra) && fd !in s.open && fd != NO_FILE
    ensures Inv(s.(open := s.open + {fd}), qhole, fhole, extra + {fd})
  {
    var w := s.(open := s.open + {fd});
    assert Held(w, fhole) == Held(s, fhole);
    assert forall e :: InTree(w, e) == InTree(s, e);
    assert forall e :: HandlesOf(w, e) == HandlesOf(s, e);
    assert forall e :: e in s.entries && e != fhole ==> Clean(s, e) && Clean(w, e);
  }

  lemma CloseOne(s: State, qhole: int, fhole: int, extra: set<int>, fd: int)
    requires Inv(s, qhole, fhole, extra) && fd in extra
    ensures fd in s.open && Inv(s.(open := s.open - {fd}), qhole, fhole, extra - {fd})
  {
    var w := s.(open := s.open - {fd});
    assert Held(w, fhole) == Held(s, fhole);
    assert forall e :: InTree(w, e) == InTree(s, e);
    assert forall e :: HandlesOf(w, e) == HandlesOf(s, e);
    assert forall e :: e in s.entries && e != fhole ==> Clean(s, e) && Clean(w, e);
  }

  /** A descriptor that nothing refers to any more stays open for good. */
  lemma Leak(s: State, qhole: int, fhole: int, extra: set<int>, fd: int)
    requires Inv(s, qhole, fhole, extra) && fd in extra
    ensures Inv(s.(leaked := s.leaked + {fd}), qhole, fhole, extra - {fd})
  {
    var w := s.(leaked := s.leaked + {fd});
    assert Held(w, fhole) == Held(s, fhole);
    assert forall e :: InTree(w, e) == InTree(s, e);
    assert forall e :: HandlesOf(w, e) == HandlesOf(s, e);
    assert forall e :: e in s.entries && e != fhole ==> Clean(s, e) && Clean(w, e);
  }

  // ----- queue and tree -----

  lemma OutOfQueue(s: State, fhole: int, extra: set<int>, e: Id)
    requires Inv(s, -1, fhole, extra) && InTree(s, e)
    ensures Inv(s.(queue := Removed(s.queue, e)), e, fhole, extra) && InTree(s.(queue := Removed(s.queue, e)), e)
  {
    var w := s.(queue := Removed(s.queue, e));
    RemovedOne(s.queue, e);
    SameButQueue(s, w, fhole, extra);
  }

  lemma SameButQueue(s: State, w: State, fhole: int, extra: set<int>)
    requires w == s.(queue := w.queue)
    requires Indexed(s) && Counted(s) && AllClean(s, fhole) && Owned(s, fhole, extra) && Served(s)
    ensures Indexed(w) && Counted(w) && AllClean(w, fhole) && Owned(w, fhole, extra) && Served(w)
    ensures forall e :: InTree(w, e) == InTree(s, e)
  {
    assert Held(w, fhole) == Held(s, fhole);
    assert forall e :: HandlesOf(w, e) == HandlesOf(s, e);
    assert forall e :: e in s.entries && e != fhole ==> Clean(s, e) && Clean(w, e);
  }

  lemma ToHead(s: State, fhole: int, extra: set<int>, e: Id)
    requires Inv(s, e, fhole, extra) && InTree(s, e)
    ensures Inv(s.(queue := [e] + s.queue), -1, fhole, extra) && InTree(s.(queue := [e] + s.queue), e)
  {
    var w := s.(queue := [e] + s.queue);
    SameButQueue(s, w, fhole, extra);
    assert forall i :: 0 < i < |w.queue| ==> w.queue[i] == s.queue[i - 1] && w.queue[i] in s.queue;
  }

  lemma Unindex(s: State, extra: set<int>, e: Id)
    requires Inv(s, e, e, extra) && InTree(s, e)
    ensures var w := s.(tree := s.tree - {s.entries[e].name}, current := s.current - 1);
      s.current > 0 && Inv(w, -1, e, extra) && !InTree(w, e)
  {
    var n := s.entries[e].name;
    var w := s.(tree := s.tree - {n}, current := s.current - 1);
    UnindexTree(s, w, e);
    CountedFrame(s, w);
    OwnedFrame(s, e, w, e, extra);
    hide Owned, Counted;
    CleanFrame(s, e, w, e);
  }

  lemma UnindexTree(s: State, w: State, e: Id)
    requires Indexed(s) && Queued(s, e) && InTree(s, e) && s.current > 0
    requires w == s.(tree := s.tree - {s.entries[e].name}, current := s.current - 1)
    ensures Indexed(w) && Queued(w, -1) && !InTree(w, e) && forall d :: d != e ==> InTree(w, d) == InTree(s, d)
  {
    assert w.tree.Keys == s.tree.Keys - {s.entries[e].name};
    assert |w.tree.Keys| == |w.tree| && |s.tree.Keys| == |s.tree|;
    assert forall d :: d != e ==> InTree(w, d) == InTree(s, d);
  }

  /** Freeing an entry without handles that has left the tree. */
  lemma Free(s: State, extra: set<int>, e: Id)
    requires Inv(s, -1, e, extra) && e in s.entries && !InTree(s, e) && s.entries[e].count == 0
    ensures Inv(s.(entries := s.entries - {e}), -1, -1, extra)
  {
    var w := s.(entries := s.entries - {e});
    FreeTree(s, w, e);
    FreeCounted(s, w, e);
    OwnedFrame(s, e, w, -1, extra);
    hide Owned, Counted, Indexed, Queued;
    CleanFrame(s, e, w, -1);
  }

  lemma FreeTree(s: State, w: State, e: Id)
    requires Indexed(s) && Queued(s, -1) && e in s.entries && !InTree(s, e) && w == s.(entries := s.entries - {e})
    ensures Indexed(w) && Queued(w, -1) && forall d :: InTree(w, d) == InTree(s, d)
  {
    assert forall n :: n in s.tree ==> InTree(s, s.tree[n]);
    assert forall d :: InTree(w, d) == InTree(s, d);
    QueuedFrame(s, w, -1);
  }

  lemma FreeCounted(s: State, w: State, e: Id)
    requires Counted(s) && e in s.entries && s.entries[e].count == 0 && w == s.(entries := s.entries - {e})
    ensures Counted(w)
  {
    forall h | h in w.handles
      ensures w.handles[h].entry in w.entries
    {
      assert HandlesOf(s, e) == {};
      assert h !in HandlesOf(s, e);
    }
    forall d | d in w.entries
      ensures w.entries[d].count == |HandlesOf(w, d)|
    {
      assert d in s.entries;
      assert HandlesOf(w, d) == HandlesOf(s, d);
    }
  }

  /** A new entry in the tree, not in the queue yet. */
  lemma Create(s: State, extra: set<int>, e: Id, f: Entry)
    requires Inv(s, -1, -1, extra) && e !in s.entries && f.name !in s.tree && f.count == 0
    ensures var w := s.(entries := s.entries[e := f], tree := s.tree[f.name := e], current := s.current + 1);
      Inv(w, e, e, extra) && InTree(w, e)
  {
    hide Served;
    var w := s.(entries := s.entries[e := f], tree := s.tree[f.name := e], current := s.current + 1);
    CreateTree(s, w, e, f);
    CreateCounted(s, w, e, f);
    OwnedFrame(s, -1, w, e, extra);
    CreateServed(s, w, e, f);
    hide Owned, Counted, Indexed, Queued, Served;
    CleanFrame(s, -1, w, e);
  }

  lemma CreateServed(s: State, w: State, e: Id, f: Entry)
    requires Counted(s) && Served(s) && e !in s.entries
    requires w.entries == s.entries[e := f] && w.handles == s.handles && w.leaked == s.leaked
    ensures Served(w)
  {
  }

  lemma CreateTree(s: State, w: State, e: Id, f: Entry)
    requires Indexed(s) && Queued(s, -1) && e !in s.entries && f.name !in s.tree
    requires w == s.(entries := s.entries[e := f], tree := s.tree[f.name := e], current := s.current + 1)
    ensures Indexed(w) && Queued(w, e) && InTree(w, e) && forall d :: d != e ==> InTree(w, d) == InTree(s, d)
  {
    CreateMembers(s, w, e, f);
    hide Indexed, InTree;
    assert e !in s.queue;
  }

  lemma CreateMembers(s: State, w: State, e: Id, f: Entry)
    requires Indexed(s) && e !in s.entries && f.name !in s.tree
    requires w == s.(entries := s.entries[e := f], tree := s.tree[f.name := e], current := s.current + 1)
    ensures Indexed(w) && InTree(w, e) && !InTree(s, e) && forall d :: d != e ==> InTree(w, d) == InTree(s, d)
  {
    assert w.tree.Keys == s.tree.Keys + {f.name};
    forall n | n in w.tree
      ensures w.tree[n] in w.entries && w.entries[w.tree[n]].name == n
    {
      if n != f.name {
        assert n in s.tree && s.tree[n] in s.entries;
      }
    }
  }

  lemma CreateCounted(s: State, w: State, e: Id, f: Entry)
    requires Counted(s) && e !in s.entries && f.count == 0
    requires w.entries == s.entries[e := f] && w.handles == s.handles
    ensures Counted(w)
  {
    forall d | d in w.entries
      ensures w.entries[d].count == |HandlesOf(w, d)|
    {
      assert HandlesOf(w, d) == HandlesOf(s, d);
      if d == e {
        assert HandlesOf(w, d) == {};
      }
    }
  }

  // ----- entries and handles -----

  // One entry rewritten under its name; the others as they were.
  lemma RewriteFrame(s: State, w: State, qhole: int, extra: set<int>, e: Id)
    requires Indexed(s) && Queued(s, qhole) && AllClean(s, e) && Owned(s, e, extra) && e in s.entries && e in w.entries
    requires w == s.(entries := s.entries[e := w.entries[e]], handles := w.handles)
    requires w.entries[e].name == s.entries[e].name
    ensures Indexed(w) && Queued(w, qhole) && AllClean(w, e) && Owned(w, e, extra)
  {
    IndexedFrame(s, w);
    OwnedFrame(s, e, w, e, extra);
    hide Owned, Indexed;
    QueuedFrame(s, w, qhole);
    CleanFrame(s, e, w, e);
  }

  /** Rewriting the entry whose descriptor is in the air. */
  lemma SetEntry(s: State, qhole: int, extra: set<int>, e: Id, f: Entry)
    requires Inv(s, qhole, e, extra) && e in s.entries && f.name == s.entries[e].name && f.count == s.entries[e].count
    requires f.fd == s.entries[e].fd || forall h :: h in HandlesOf(s, e) ==>
      s.handles[h].fd in s.leaked || s.handles[h].fd == f.fd
    ensures Inv(s.(entries := s.entries[e := f]), qhole, e, extra)
  {
    var w := s.(entries := s.entries[e := f]);
    RewriteFrame(s, w, qhole, extra, e);
    CountedFrame(s, w);
    hide Owned, Indexed, Queued, AllClean, Counted;
    forall h | h in w.handles && w.handles[h].entry in w.entries
      ensures w.handles[h].fd in w.leaked || w.handles[h].fd == w.entries[w.handles[h].entry].fd
    {
      assert w.handles[h].entry == e ==> h in HandlesOf(s, e);
    }
  }

  lemma AddCounts(s: State, w: State, e: Id, h: HandleId, k: Handle)
    requires Counted(s) && e in s.entries && h !in s.handles && k.entry == e
    requires w.entries == s.entries[e := s.entries[e].(count := s.entries[e].count + 1)]
    requires w.handles == s.handles[h := k]
    ensures Counted(w)
  {
    forall d | d in w.entries
      ensures w.entries[d].count == |HandlesOf(w, d)|
    {
      assert d in s.entries;
      if d == e {
        assert HandlesOf(w, e) == HandlesOf(s, e) + {h};
      } else {
        assert HandlesOf(w, d) == HandlesOf(s, d);
      }
    }
    forall g | g in w.handles
      ensures w.handles[g].entry in w.entries
    {
      assert g != h ==> g in s.handles;
    }
  }

  lemma AddServed(s: State, w: State, e: Id, h: HandleId, k: Handle)
    requires Served(s) && e in s.entries && h !in s.handles && k.entry == e && k.fd == s.entries[e].fd
    requires w.entries == s.entries[e := s.entries[e].(count := s.entries[e].count + 1)]
    requires w.handles == s.handles[h := k] && w.leaked == s.leaked
    ensures Served(w)
  {
  }

  lemma DropCounts(s: State, w: State, e: Id, h: HandleId)
    requires Counted(s) && h in s.handles && e in s.entries && s.handles[h].entry == e && s.entries[e].count > 0
    requires w.entries == s.entries[e := s.entries[e].(count := s.entries[e].count - 1)] && w.handles == s.handles - {h}
    ensures Counted(w)
  {
    forall d | d in w.entries
      ensures w.entries[d].count == |HandlesOf(w, d)|
    {
      assert d in s.entries;
      if d == e {
        assert h in HandlesOf(s, e);
        assert HandlesOf(w, e) == HandlesOf(s, e) - {h};
      } else {
        assert HandlesOf(w, d) == HandlesOf(s, d);
      }
    }
    forall g | g in w.handles
      ensures w.handles[g].entry in w.entries
    {
      assert g in s.handles;
    }
  }

  lemma DropServed(s: State, w: State, e: Id, h: HandleId)
    requires Served(s) && e in s.entries && s.entries[e].count > 0
    requires w.entries == s.entries[e := s.entries[e].(count := s.entries[e].count - 1)]
    requires w.handles == s.handles - {h} && w.leaked == s.leaked
    ensures Served(w)
  {
  }

  /** One more handle, one more count. */
  lemma AddHandle(s: State, qhole: int, extra: set<int>, e: Id, h: HandleId, minUses: nat)
    requires Inv(s, qhole, e, extra) && e in s.entries && h !in s.handles
    ensures var f := s.entries[e];
      var w := s.(entries := s.entries[e := f.(count := f.count + 1)],
        handles := s.handles[h := Handle(e, f.fd, minUses)]);
      Inv(w, qhole, e, extra) && InTree(w, e) == InTree(s, e)
  {
    hide Owned, Indexed, Queued, AllClean, Counted, Served;
    var f := s.entries[e];
    var w := s.(entries := s.entries[e := f.(count := f.count + 1)],
      handles := s.handles[h := Handle(e, f.fd, minUses)]);
    RewriteFrame(s, w, qhole, extra, e);
    AddCounts(s, w, e, h, Handle(e, f.fd, minUses));
    AddServed(s, w, e, h, Handle(e, f.fd, minUses));
  }

  lemma HandleHasEntry(s: State, h: HandleId)
    requires Counted(s) && h in s.handles
    ensures s.handles[h].entry in s.entries && s.entries[s.handles[h].entry].count > 0
  {
    assert h in HandlesOf(s, s.handles[h].entry);
  }

  lemma DropHandle(s: State, qhole: int, extra: set<int>, h: HandleId)
    requires h in s.handles && Inv(s, qhole, s.handles[h].entry, extra)
    ensures var e := s.handles[h].entry;
      && e in s.entries && s.entries[e].count > 0
      && Inv(s.(entries := s.entries[e := s.entries[e].(count := s.entries[e].count - 1)],
        handles := s.handles - {h}), qhole, e, extra)
  {
    hide Owned, Indexed, Queued, AllClean, Counted, Served;
    var e := s.handles[h].entry;
    HandleHasEntry(s, h);
    var f := s.entries[e];
    var w := s.(entries := s.entries[e := f.(count := f.count - 1)], handles := s.handles - {h});
    RewriteFrame(s, w, qhole, extra, e);
    DropCounts(s, w, e, h);
    DropServed(s, w, e, h);
  }
  // ----- steps the code takes together -----

  /** Times, uses and the closing mark are not part of the bookkeeping. */
  lemma Touch(s: State, qhole: int, e: Id, f: Entry, extra: set<int>)
    requires InHand(s, qhole, e, extra) && f == s.entries[e].(accessed := f.accessed, uses := f.uses, close := f.close)
    ensures var w := s.(entries := s.entries[e := f]);
      InHand(w, qhole, e, extra) && InTree(w, e) == InTree(s, e)
  {
    SetEntry(s, qhole, FdOf(s, e) + extra, e, f);
  }

  lemma Requeue(s: State, e: Id, extra: set<int>)
    requires InHand(s, -1, e, extra) && InTree(s, e)
    ensures var w := s.(queue := [e] + Removed(s.queue, e));
      InHand(w, -1, e, extra) && InTree(w, e)
  {
    hide Indexed, Counted, AllClean, Owned, Served, Queued;
    OutOfQueue(s, e, FdOf(s, e) + extra, e);
    ToHead(s.(queue := Removed(s.queue, e)), e, FdOf(s, e) + extra, e);
  }

  lemma CloseHeld(s: State, qhole: int, e: Id, extra: set<int>)
    requires InHand(s, qhole, e, extra) && s.entries[e].fd != NO_FILE && s.entries[e].count == 0
    ensures s.entries[e].fd in s.open
    ensures var w := s.(open := s.open - {s.entries[e].fd}, entries := s.entries[e := s.entries[e].(fd := NO_FILE)]);
      InHand(w, qhole, e, extra) && InTree(w, e) == InTree(s, e)
  {
    hide Indexed, Queued, Counted, AllClean, Owned, Served;
    var fd := s.entries[e].fd;
    var v := s.(open := s.open - {fd});
    var f := s.entries[e].(fd := NO_FILE);
    CloseOne(s, qhole, e, {fd} + extra, fd);
    assert {fd} + extra - {fd} == extra;
    NoHandles(v, e);
    SetEntry(v, qhole, extra, e, f);
    assert {} + extra == extra;
  }

  lemma NoHandles(s: State, e: Id)
    requires Counted(s) && e in s.entries && s.entries[e].count == 0
    ensures HandlesOf(s, e) == {}
  {
  }

  lemma FreeLast(s: State, e: Id, extra: set<int>)
    requires InHand(s, -1, e, extra) && !InTree(s, e) && s.entries[e].count == 0 && s.entries[e].fd == NO_FILE
    ensures Inv(s.(entries := s.entries - {e}), -1, -1, extra)
  {
    assert {} + extra == extra;
    Free(s, extra, e);
  }

  lemma {:induction false} RemovedLast(q: seq<Id>)
    requires Distinct(q) && q != []
    ensures Removed(q, q[|q| - 1]) == q[..|q| - 1]
  {
    if |q| > 1 {
      var t := q[1..];
      assert forall i :: 0 <= i < |t| ==> t[i] == q[i + 1];
      RemovedLast(t);
      assert q[..|q| - 1] == [q[0]] + t[..|t| - 1];
    }
  }

  // What a settled entry promises.
  predicate Regular(f: Entry) {
    (f.fd == NO_FILE ==> f.count == 0) && (f.err != 0 || f.isDir ==> f.fd == NO_FILE)
  }

  lemma IsRegular(s: State, qhole: int, e: Id, extra: set<int>)
    requires Inv(s, qhole, -1, extra) && e in s.entries
    ensures Regular(s.entries[e]) && (InTree(s, e) && s.entries[e].err == 0 ==> !s.entries[e].close)
  {
    assert Clean(s, e);
  }

  /** An entry of the tree, out of the queue, is taken in hand and out of the tree. */
  lemma Discard(s: State, e: Id, extra: set<int>)
    requires InHand(s, e, e, extra) && InTree(s, e)
    ensures var w := s.(tree := s.tree - {s.entries[e].name}, current := s.current - 1);
      s.current > 0 && InHand(w, -1, e, extra) && !InTree(w, e)
  {
    Unindex(s, FdOf(s, e) + extra, e);
  }

  lemma Evict(s: State, e: Id, extra: set<int>)
    requires Inv(s, -1, -1, extra) && InTree(s, e)
    ensures var w := s.(queue := Removed(s.queue, e), tree := s.tree - {s.entries[e].name}, current := s.current - 1);
      s.current > 0 && InHand(w, -1, e, extra) && !InTree(w, e)
    ensures Regular(s.entries[e])
  {
    IsRegular(s, -1, e, extra);
    hide Inv, InHand, InTree, Regular;
    OutOfQueue(s, -1, extra, e);
    Lift(s.(queue := Removed(s.queue, e)), e, e, extra);
    Discard(s.(queue := Removed(s.queue, e)), e, extra);
  }

  lemma Members(s: State, extra: set<int>)
    requires Inv(s, -1, -1, extra)
    ensures Distinct(s.queue) && forall i :: 0 <= i < |s.queue| ==> InTree(s, s.queue[i]) && s.queue[i] in s.entries
    ensures s.current == |s.queue|
  {
    assert forall i :: 0 <= i < |s.queue| ==> s.queue[i] in s.queue;
  }

  lemma GiveBack(s: State, h: HandleId)
    requires Whole(s) && h in s.handles
    ensures var e := s.handles[h].entry; var f := s.entries[e];
      && e in s.entries && f.count > 0 && Regular(f) && (f.close <==> !InTree(s, e))
      && var w := s.(entries := s.entries[e := f.(count := f.count - 1)], handles := s.handles - {h});
         InHand(w, -1, e, {}) && InTree(w, e) == InTree(s, e)
  {
    HandleHasEntry(s, h);
    var e := s.handles[h].entry;
    assert Clean(s, e);
    hide Indexed, Counted, AllClean, Owned, Served, Queued;
    Lift(s, -1, e, {});
    DropHandle(s, -1, FdOf(s, e) + {}, h);
  }
}
