/** The state of the open file cache: entries, their index, the queue, handles and descriptors. */
module OpenFileState {
  import opened Common

  type Name = string
  type Id = nat           // an allocated entry
  type HandleId = nat

  const NO_FILE: int := -1
  const USES: nat := 0x1_0000_0000

  datatype Entry = Entry(name: Name, created: int, accessed: int, fd: int, uniq: nat, err: nat, uses: nat,
                         count: nat, close: bool, isDir: bool, symlinks: nat, from: nat)

  // A cleanup registered with the caller's pool: it gives the descriptor back.
  datatype Handle = Handle(entry: Id, fd: int, minUses: nat)

  // Everything the invariant talks about. `leaked` are open descriptors that nothing refers to any more.
  datatype State = State(entries: map<Id, Entry>, tree: map<Name, Id>, queue: seq<Id>, current: nat,
                         open: set<int>, handles: map<HandleId, Handle>, leaked: set<int>)

  predicate InTree(s: State, e: Id) {
    e in s.entries && s.entries[e].name in s.tree && s.tree[s.entries[e].name] == e
  }

  ghost predicate Indexed(s: State) {
    && s.current == |s.tree|
    && forall n :: n in s.tree ==> s.tree[n] in s.entries && s.entries[s.tree[n]].name == n
  }

  /** The queue holds the entries of the tree, each once; `hole` is the entry being moved. */
  ghost predicate Queued(s: State, hole: int) {
    && Distinct(s.queue)
    && (forall e :: e in s.queue <==> InTree(s, e) && e != hole)
    && s.current == |s.queue| + if hole >= 0 && InTree(s, hole) then 1 else 0
  }

  ghost function HandlesOf(s: State, e: Id): set<HandleId> {
    set h | h in s.handles && s.handles[h].entry == e
  }

  /** The count of an entry is the number of its outstanding handles. */
  ghost predicate Counted(s: State) {
    && (forall h :: h in s.handles ==> s.handles[h].entry in s.entries)
    && (forall e :: e in s.entries ==> s.entries[e].count == |HandlesOf(s, e)|)
  }

  // Errors and directories have no descriptor and no handles; an entry outside the tree lives on for
  // its handles only.
  ghost predicate Clean(s: State, e: Id)
    requires e in s.entries
  {
    var f := s.entries[e];
    && (f.err != 0 || f.isDir ==> f.fd == NO_FILE)
    && (f.fd == NO_FILE ==> f.count == 0)
    && (if InTree(s, e) then f.err == 0 ==> !f.close else f.close && f.count > 0)
  }

  ghost predicate AllClean(s: State, hole: int) {
    forall e :: e in s.entries && e != hole ==> Clean(s, e)
  }

  ghost function Held(s: State, hole: int): set<int> {
    set e | e in s.entries && e != hole && s.entries[e].fd != NO_FILE :: s.entries[e].fd
  }

  /** Every open descriptor has one owner: an entry, the call in progress (`extra`), or it is leaked. */
  ghost predicate Owned(s: State, hole: int, extra: set<int>) {
    && s.open == Held(s, hole) + s.leaked + extra
    && Held(s, hole) !! s.leaked && extra !! Held(s, hole) && extra !! s.leaked && NO_FILE !in s.open
    && forall d, e ::
      d in s.entries && e in s.entries && d != hole && e != hole && d != e && s.entries[d].fd != NO_FILE ==>
         s.entries[d].fd != s.entries[e].fd
  }

  /** A handle's descriptor is the one of its entry, or was leaked: either way it is open. */
  ghost predicate Served(s: State) {
    forall h :: h in s.handles && s.handles[h].entry in s.entries ==>
      s.handles[h].fd in s.leaked || s.handles[h].fd == s.entries[s.handles[h].entry].fd
  }

  /** The invariant, up to an entry out of the queue and an entry whose descriptor is in the air. */
  ghost predicate Inv(s: State, qhole: int, fhole: int, extra: set<int>) {
    Indexed(s) && Queued(s, qhole) && Counted(s) && AllClean(s, fhole) && Owned(s, fhole, extra) && Served(s)
  }

  ghost predicate Whole(s: State) {
    Inv(s, -1, -1, {})
  }

  /** What the handles rely on: a descriptor that was handed out is open until its last cleanup. */
  lemma HandedOutIsOpen(s: State, h: HandleId)
    requires Whole(s) && h in s.handles
    ensures s.handles[h].entry in s.entries && s.entries[s.handles[h].entry].count > 0
    ensures s.handles[h].fd in s.open
  {
    var e := s.handles[h].entry;
    assert h in HandlesOf(s, e);
    assert Clean(s, e);
    if s.handles[h].fd !in s.leaked {
      assert s.entries[e].fd in Held(s, -1);
    }
  }

  // ----- the queue -----

  // ngx_queue_remove
  function Removed(q: seq<Id>, e: Id): seq<Id> {
    if q == [] then [] else if q[0] == e then q[1..] else [q[0]] + Removed(q[1..], e)
  }

  lemma {:induction false} RemovedOne(q: seq<Id>, e: Id)
    requires Distinct(q)
    ensures Distinct(Removed(q, e)) && |Removed(q, e)| == |q| - (if e in q then 1 else 0)
    ensures forall x :: x in Removed(q, e) <==> x in q && x != e
  {
    if q != [] {
      var t := q[1..];
      assert q == [q[0]] + t;
      RemovedOne(t, e);
      assert forall i :: 0 <= i < |t| ==> t[i] == q[i + 1];
      assert q[0] !in t;
    }
  }
}
