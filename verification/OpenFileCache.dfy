/** The open file cache: opens, handle cleanups and expiry. */
module OpenFileCache {
  import opened Common
  import opened OpenFileState
  import opened OpenFileSteps

  datatype Status = OK | ERROR

  // What the caller asks for, and what it gets back.
  datatype Request = Request(uniq: nat, valid: int, minUses: nat, testDir: bool, errors: bool, symlinks: nat, from: nat)

  datatype Info = Info(fd: int, uniq: nat, err: nat, isDir: bool)

  // What the file system answers to a stat of the name, and to an open followed by a stat of the descriptor.
  datatype Stat = NoStat(err: nat) | Stat(uniq: nat, isDir: bool)

  datatype Opening = NoOpen(err: nat) | NoFstat(fd: int) | Opened(fd: int, uniq: nat, isDir: bool)

  datatype Files = Files(stat: Stat, opening: Opening)

  function Reopened(of: Info, o: Opening): (bool, Info) {
    match o
    case NoOpen(err) => (false, of.(fd := NO_FILE, err := err))
    case NoFstat(_) => (false, of.(fd := NO_FILE))
    case Opened(fd, uniq, isDir) => (true, of.(fd := if isDir then NO_FILE else fd, uniq := uniq, isDir := isDir))
  }

  /** ngx_open_and_stat_file: a known descriptor is kept when the name still leads to the same file, a
      known directory is only looked at; otherwise the name is opened. */
  function Answer(of: Info, testDir: bool, fs: Files): (bool, Info) {
    if of.fd != NO_FILE then
      match fs.stat
      case NoStat(err) => (false, of.(fd := NO_FILE, err := err))
      case Stat(uniq, isDir) => if of.uniq == uniq then (true, of.(isDir := isDir)) else Reopened(of, fs.opening)
    else if testDir then
      match fs.stat
      case NoStat(err) => (false, of.(fd := NO_FILE, err := err))
      case Stat(uniq, isDir) => if isDir then (true, of.(uniq := uniq, isDir := true)) else Reopened(of, fs.opening)
    else Reopened(of, fs.opening)
  }

  // The kernel hands out a descriptor that is not in use, and errors have numbers.
  ghost predicate Kernel(fs: Files, open: set<int>) {
    && (fs.stat.NoStat? ==> fs.stat.err != 0) && (fs.opening.NoOpen? ==> fs.opening.err != 0)
    && (!fs.opening.NoOpen? ==> fs.opening.fd != NO_FILE && fs.opening.fd !in open)
  }

  /** The name leads to a directory with the number of the cached open file. The number is the inode alone,
      so this can be a directory on another device. */
  predicate Alias(f: Entry, fs: Files) {
    f.fd != NO_FILE && fs.stat.Stat? && fs.stat.uniq == f.uniq && fs.stat.isDir
  }

  // The cached answer may be given without looking at the file system.
  predicate Trusted(f: Entry, req: Request, now: int) {
    && (req.uniq == 0 || req.uniq == f.uniq) && now - f.created < req.valid
    && req.symlinks == f.symlinks && req.from == f.from
  }

  /** The name led elsewhere when it was looked at, and back to the cached file when it was opened. */
  predicate Flipped(f: Entry, fs: Files) {
    && f.fd != NO_FILE && f.err == 0 && !f.isDir
    && fs.stat.Stat? && fs.stat.uniq != f.uniq
    && fs.opening.Opened? && !fs.opening.isDir && fs.opening.uniq == f.uniq
  }

  /** What an open returns: the cached answer while it is trusted, else what the file system says. */
  function Outcome(known: bool, f: Entry, req: Request, now: int, fs: Files): (Status, Info) {
    if known && (f.fd != NO_FILE || f.err != 0 || f.isDir) then
      if Trusted(f, req, now) then
        if f.err == 0 then (OK, Info(f.fd, f.uniq, 0, f.isDir)) else (ERROR, Info(NO_FILE, req.uniq, f.err, false))
      else Judged(Answer(Info(f.fd, f.uniq, 0, false), req.testDir || f.isDir, fs))
    else Judged(Answer(Info(NO_FILE, req.uniq, 0, false), req.testDir, fs))
  }

  function Judged(a: (bool, Info)): (Status, Info) {
    (if a.0 then OK else ERROR, a.1)
  }

  predicate HasAnswer(f: Entry, name: Name, of: Info, now: int) {
    f.name == name && f.fd == of.fd && f.uniq == of.uniq && f.isDir == of.isDir && f.err == 0 && f.accessed == now
  }

  /** The entry of a name that was just opened: most recently used, with the answer in it. */
  ghost predicate Cached(s: State, name: Name, of: Info, now: int) {
    s.queue != [] && s.queue[0] in s.entries && InTree(s, s.queue[0]) && HasAnswer(s.entries[s.queue[0]], name, of, now)
  }

  // file->fd = of->fd, and so on; most fields are taken over only if there is no error
  function Taken(f: Entry, of: Info, req: Request, now: int): Entry {
    var g := f.(fd := of.fd, err := of.err, symlinks := req.symlinks, from := req.from, created := now,
      accessed := now);
    if of.err == 0 then g.(uniq := of.uniq, close := false, isDir := of.isDir) else g
  }

  /** The last handle is gone, and the entry was expired or is not used often enough to be kept open. */
  predicate Closes(f: Entry, minUses: nat) {
    f.count == 0 && (f.close || f.uses < minUses)
  }

  function AfterClose(entries: map<Id, Entry>, e: Id, minUses: nat, now: int): map<Id, Entry>
    requires e in entries
  {
    var f := entries[e];
    if f.close then if f.count == 0 then entries - {e} else entries
    else entries[e := f.(accessed := now, fd := if Closes(f, minUses) then NO_FILE else f.fd)]
  }

  function Verdict(of: Info): Status {
    if of.err == 0 then OK else ERROR
  }

  /** A directory that comes with a descriptor. */
  predicate Stale(of: Info) {
    of.err == 0 && of.isDir && of.fd != NO_FILE
  }

  /** The cached answer is not trusted, and a directory is taken for the cached file. */
  predicate Confused(f: Entry, req: Request, now: int, fs: Files) {
    !Trusted(f, req, now) && Alias(f, fs)
  }

  ghost predicate ConfusedAt(s: State, name: Name, req: Request, now: int, fs: Files) {
    name in s.tree && s.tree[name] in s.entries && Confused(s.entries[s.tree[name]], req, now, fs)
  }

  /** The most recently used entry is a directory with a descriptor that is closed, or that another entry
      with handles has. */
  ghost predicate Dangling(s: State, fd: int) {
    && s.queue != [] && s.queue[0] in s.entries && s.entries[s.queue[0]].isDir && s.entries[s.queue[0]].fd == fd
    && (fd in s.open ==>
      exists d :: d in s.entries && d != s.queue[0] && s.entries[d].fd == fd && s.entries[d].count > 0)
  }

  // Entries out of the queue are untouched.
  ghost predicate Outside(s: State, w: State) {
    forall d :: d in s.entries && d !in s.queue ==> d in w.entries && w.entries[d] == s.entries[d]
  }

  // What the entry becomes, and its new handle.
  ghost function Updated(s: State, e: Id, of: Info, req: Request, now: int, h: HandleId): State
    requires e in s.entries
  {
    var g := Taken(s.entries[e], of, req, now);
    if of.err == 0 && !of.isDir then
      s.(entries := s.entries[e := g.(count := g.count + 1)], handles := s.handles[h := Handle(e, g.fd, req.minUses)],
         queue := [e] + s.queue)
    else s.(entries := s.entries[e := g], queue := [e] + s.queue)
  }

  // ----- what an entry remembers of the last look -----

  /** A look at the file system whose answer was cached: when it was, for which settings, and the answer. */
  datatype Look = Look(at: int, symlinks: nat, from: nat, of: Info)

  /** The entry has the answer of the look, though perhaps not its descriptor any more. */
  predicate Matches(f: Entry, l: Look) {
    && f.created == l.at && f.symlinks == l.symlinks && f.from == l.from && f.err == l.of.err
    && (f.err == 0 ==>
      f.uniq == l.of.uniq && f.isDir == l.of.isDir && (f.fd == l.of.fd || f.fd == NO_FILE) && (f.isDir ==>
        l.of.fd == NO_FILE))
  }

  // The entry of a name.
  ghost predicate Has(s: State, n: Name) {
    n in s.tree && s.tree[n] in s.entries && s.entries[s.tree[n]].name == n
  }

  ghost predicate Remembered(s: State, seen: map<Name, Look>) {
    forall n :: Has(s, n) ==> n in seen && Matches(s.entries[s.tree[n]], seen[n])
  }

  /** There is an answer of a look that was less than `valid` ago, with the same settings for symbolic links, and for
      the file the caller wants. */
  ghost predicate StillGood(s: State, seen: map<Name, Look>, name: Name, req: Request, now: int) {
    && Has(s, name) && name in seen
    && var f, l := s.entries[s.tree[name]], seen[name];
    && (f.fd != NO_FILE || f.err != 0 || f.isDir) && (req.uniq == 0 || req.uniq == f.uniq)
    && now - l.at < req.valid && req.symlinks == l.symlinks && req.from == l.from
  }

  predicate Answered(f: Entry) {
    f.fd != NO_FILE || f.err != 0 || f.isDir
  }

  // What stays in an entry while others are opened, expire, and are given back.
  predicate SameStamp(f: Entry, g: Entry) {
    g == f.(fd := g.fd, accessed := g.accessed, count := g.count, close := g.close) && (g.fd == f.fd || g.fd == NO_FILE)
  }

  /** The names that are still there, but for some, have their entries, with what these remember. */
  ghost predicate Steady(s: State, w: State, but: set<Name>) {
    forall n :: Has(w, n) && n !in but ==>
      Has(s, n) && s.tree[n] == w.tree[n] && SameStamp(s.entries[s.tree[n]], w.entries[w.tree[n]])
  }

  // How often an entry was used; a new one once.
  ghost function UsesOf(s: State, e: Id): nat {
    if e in s.entries then s.entries[e].uses else 1
  }

  /** After a look: the entry of the name, if there is one, has the answer, the time and the settings; it is as often
      used as before, or new and used once; and the other entries remember what they did. */
  ghost predicate Noted(s: State, w: State, name: Name, of: Info, req: Request, now: int) {
    && Steady(s, w, {name})
    && (name in w.tree ==> Has(w, name) && var f := w.entries[w.tree[name]];
        && f.uses == UsesOf(s, w.tree[name])
        && (w.tree[name] in s.entries ==> name in s.tree && s.tree[name] == w.tree[name])
        && (!Stale(of) ==> Matches(f, Look(now, req.symlinks, req.from, of))))
  }

  ghost function OneMoreUse(s: State, e: Id): State
    requires e in s.entries
  {
    s.(entries := s.entries[e := s.entries[e].(uses := (s.entries[e].uses + 1) % USES)])
  }

  // An answer was given again: only the use, the time of access and the count of the entry are new.
  ghost predicate Reused(s: State, w: State, e: Id, now: int) {
    && e in s.entries && e in w.entries && w.tree == s.tree
    && w.entries == s.entries[e := s.entries[e].(uses := (s.entries[e].uses + 1) % USES, accessed := now,
      count := w.entries[e].count)]
  }

  class Cache {
    var entries: map<Id, Entry>
    var tree: map<Name, Id>
    var queue: seq<Id>               // most recently used first
    var current: nat
    const max: nat
    const inactive: nat

    ghost var open: set<int>
    ghost var handles: map<HandleId, Handle>
    ghost var leaked: set<int>
    ghost var looks: nat                      // how often the file system was asked
    ghost var seen: map<Name, Look>           // the last look at each name that was cached

    ghost function Now(): State
      reads this
    {
      State(entries, tree, queue, current, open, handles, leaked)
    }

    ghost predicate Fine()
      reads this
    {
      Whole(Now()) && current <= max && max >= 1
    }

    ghost predicate Valid()
      reads this
    {
      Fine() && Remembered(Now(), seen)
    }

    constructor (max: nat, inactive: nat)
      requires max >= 1
      ensures Valid() && handles == map[] && open == {} && leaked == {} && this.max == max && this.inactive == inactive
    {
      entries, tree, queue, current := map[], map[], [], 0;
      this.max, this.inactive := max, inactive;
      open, handles, leaked := {}, map[], {};
      looks, seen := 0, map[];
    }

    // ngx_close_file; only an open descriptor can be closed
    ghost method CloseFile(fd: int)
      requires fd in open
      modifies `open
      ensures open == old(open) - {fd}
    {
      open := open - {fd};
    }

    method OpenAndStat(of: Info, testDir: bool, fs: Files) returns (ok: bool, r: Info)
      requires Kernel(fs, open) && (of.fd != NO_FILE ==> of.fd in open)
      modifies `open, `looks
      ensures (ok, r) == Answer(of, testDir, fs) && looks == old(looks) + 1
      ensures open == old(open) + if ok && r.fd != NO_FILE && r.fd != of.fd then {r.fd} else {}
    {
      r := of;
      looks := looks + 1;
      if of.fd != NO_FILE {
        if fs.stat.NoStat? {
          return false, r.(fd := NO_FILE, err := fs.stat.err);
        }
        if r.uniq == fs.stat.uniq {
          return true, r.(isDir := fs.stat.isDir);
        }
      } else if testDir {
        if fs.stat.NoStat? {
          return false, r.(fd := NO_FILE, err := fs.stat.err);
        }
        if fs.stat.isDir {
          return true, r.(uniq := fs.stat.uniq, isDir := true);
        }
      }
      if fs.opening.NoOpen? {
        return false, r.(fd := NO_FILE, err := fs.opening.err);
      }
      var fd := fs.opening.fd;
      open := open + {fd};
      if fs.opening.NoFstat? {
        CloseFile(fd);
        return false, r.(fd := NO_FILE);
      }
      if fs.opening.isDir {
        CloseFile(fd);
        r := r.(fd := NO_FILE);
      } else {
        r := r.(fd := fd);
      }
      return true, r.(uniq := fs.opening.uniq, isDir := fs.opening.isDir);
    }

    /** ngx_close_cached_file: the descriptor is closed if and only if the last handle is gone and the entry
        was expired or is seldom used; an expired entry without handles is freed. */
    method CloseCached(e: Id, minUses: nat, now: int, ghost extra: set<int>)
      requires InHand(Now(), -1, e, extra) && Regular(entries[e]) && entries[e].err == 0 && !entries[e].isDir
      requires entries[e].close <==> !InTree(Now(), e)
      modifies `entries, `queue, `open
      ensures Inv(Now(), -1, -1, extra)
      ensures open == old(open) - if Closes(old(entries[e]), minUses) then old(FdOf(Now(), e)) else {}
      ensures entries == AfterClose(old(entries), e, minUses, now)
      ensures queue == if old(entries[e]).close then old(queue) else [e] + Removed(old(queue), e)
    {
      hide Inv, InTree;
      if !entries[e].close {
        Touch(Now(), -1, e, entries[e].(accessed := now), extra);
        entries := entries[e := entries[e].(accessed := now)];
        Requeue(Now(), e, extra);
        queue := Removed(queue, e);
        queue := [e] + queue;
        if entries[e].uses >= minUses || entries[e].count != 0 {
          Settle(Now(), -1, e, extra);
          return;
        }
      }
      if entries[e].count != 0 {
        Settle(Now(), -1, e, extra);
        return;
      }
      if entries[e].fd != NO_FILE {
        CloseHeld(Now(), -1, e, extra);
        CloseFile(entries[e].fd);
        entries := entries[e := entries[e].(fd := NO_FILE)];
      }
      if !entries[e].close {
        Settle(Now(), -1, e, extra);
        return;
      }
      FreeLast(Now(), e, extra);
      entries := entries - {e};
    }

    // The last entry of the queue leaves the cache; it lives on as long as it has handles.
    method EvictLast(now: int, ghost extra: set<int>)
      requires Inv(Now(), -1, -1, extra) && queue != []
      modifies `entries, `tree, `queue, `current, `open
      ensures Inv(Now(), -1, -1, extra) && queue == old(queue)[..|old(queue)| - 1]
      ensures tree.Keys <= old(tree.Keys) && entries.Keys <= old(entries.Keys)
      ensures var e := old(queue)[|old(queue)| - 1];
        && e in old(entries) && old(entries)[e].name !in tree
        && (forall d :: d in old(entries) && d != e ==> d in entries && entries[d] == old(entries)[d])
        && open == old(open) - Unused(old(entries), {e})
      ensures Steady(old(Now()), Now(), {})
    {
      hide Inv, InTree, Steady;
      ghost var s0 := Now();
      Members(Now(), extra);
      var e := queue[|queue| - 1];
      Evict(Now(), e, extra);
      RemovedLast(queue);
      queue := queue[..|queue| - 1];
      tree := tree - {entries[e].name};
      current := current - 1;
      UnusedOne(entries, e);
      if entries[e].err == 0 && !entries[e].isDir {
        Touch(Now(), -1, e, entries[e].(close := true), extra);
        entries := entries[e := entries[e].(close := true)];
        CloseCached(e, 0, now, extra);
      } else {
        FreeLast(Now(), e, extra);
        entries := entries - {e};
      }
      LeftSteady(s0, Now(), e);
    }

    /** ngx_expire_old_cached_files: the least recently used entry by force if n is 0, and inactive ones, go
        from the end of the queue. Of these the descriptors without handles are closed, and no others. */
    method Expire(n0: nat, now: int, ghost extra: set<int>)
      requires Inv(Now(), -1, -1, extra)
      modifies `entries, `tree, `queue, `current, `open
      ensures Inv(Now(), -1, -1, extra) && queue <= old(queue) && |old(queue)| - |queue| <= 3
      ensures n0 == 0 && old(queue) != [] ==> |queue| < |old(queue)|
      ensures tree.Keys <= old(tree.Keys) && entries.Keys <= old(entries.Keys)
      ensures Expired(old(entries), entries, Gone(old(queue), queue))
      ensures open == old(open) - Unused(old(entries), Gone(old(queue), queue))
      ensures n0 > 0 ==> forall d :: d in Gone(old(queue), queue) && d in old(entries) ==>
        now - old(entries)[d].accessed > inactive
      ensures Steady(old(Now()), Now(), {})
    {
      hide Inv, Gone, Unused, Expired, InTree, Steady;
      var n: int := n0;
      ghost var q0, e0, o0, s0 := queue, entries, open, Now();
      SteadyStill(s0, {});
      NothingGone(e0, q0, o0);
      Members(Now(), extra);
      while n < 3
        invariant Inv(Now(), -1, -1, extra) && queue <= q0 && |q0| - |queue| <= n - n0
        invariant n0 <= n && (if n0 < 3 then n <= 3 else n == n0)
        invariant tree.Keys <= old(tree.Keys) && entries.Keys <= e0.Keys
        invariant n > 0 && n0 == 0 && q0 != [] ==> |queue| < |q0|
        invariant Expired(e0, entries, Gone(q0, queue)) && open == o0 - Unused(e0, Gone(q0, queue))
        invariant n0 > 0 ==> forall d :: d in Gone(q0, queue) && d in e0 ==> now - e0[d].accessed > inactive
        invariant Steady(s0, Now(), {})
        decreases 3 - n
      {
        if queue == [] {
          return;
        }
        Members(Now(), extra);
        ghost var e1, q1, s1 := entries, queue, Now();
        var last := queue[|queue| - 1];
        if n != 0 && now - entries[last].accessed <= inactive {
          return;
        }
        n := n + 1;
        EvictLast(now, extra);
        GoneOne(e0, e1, entries, q0, q1);
        SteadyTrans(s0, s1, Now(), {});
      }
    }

    /** ngx_open_file_cleanup: a handle is given back. Its entry's descriptor is closed if and only if this
        was the last handle and the entry was expired or is seldom used; beside it only descriptors without
        handles are closed. */
    method Cleanup(e: Id, minUses: nat, now: int, ghost h: HandleId)
      requires Valid() && h in handles && handles[h].entry == e && handles[h].minUses == minUses
      modifies `entries, `tree, `queue, `current, `open, `handles
      ensures Valid() && handles == old(handles) - {h} && open <= old(open) && e in old(entries)
      ensures var f := old(entries)[e];
        f.fd in open <==> !(f.count == 1 && (f.close || f.uses < minUses))
      ensures forall k :: k in handles ==> handles[k].fd in open
    {
      hide Inv, InTree, FdOf, Unused, Gone, Steady, Remembered;
      ghost var s0 := Now();
      GiveBack(Now(), h);
      Members(Now(), {});
      ghost var f := entries[e];
      entries := entries[e := entries[e].(count := entries[e].count - 1)];
      handles := handles - {h};
      InHandIsOpen(Now(), -1, e, {});
      FdOfIs(Now(), e);
      ghost var s1 := Now();
      CloseCached(e, minUses, now, {});
      Members(Now(), {});
      ghost var s := Now();
      CloseSteady(s0, s1, s, e, minUses, now);
      Expire(1, now, {});
      SteadyTrans(s0, s, Now(), {});
      StillRemembered(s0, Now(), seen);
      StillHeld(s, e, f.fd, queue, now, inactive);
      Members(Now(), {});
      AllHandedOut(Now());
    }

    // The label "failed" with an entry: it leaves the tree, and lives on for its handles only. The entry
    // is out of the queue, and nothing was opened.
    method Fail(e: Id)
      requires InTree(Now(), e) && InHand(Now(), e, e, {}) && Regular(entries[e])
      modifies `entries, `tree, `current, `open
      ensures Whole(Now()) && current < old(current)
      ensures Steady(old(Now()), Now(), {}) && old(entries[e].name) !in tree
    {
      hide Inv, FdOf, InTree, Steady;
      ghost var s0 := Now();
      Discard(Now(), e, {});
      tree := tree - {entries[e].name};
      current := current - 1;
      if entries[e].count == 0 {
        if entries[e].fd != NO_FILE {
          CloseHeld(Now(), -1, e, {});
          CloseFile(entries[e].fd);
          entries := entries[e := entries[e].(fd := NO_FILE)];
        }
        FreeLast(Now(), e, {});
        entries := entries - {e};
      } else {
        Touch(Now(), -1, e, entries[e].(close := true), {});
        entries := entries[e := entries[e].(close := true)];
        Settle(Now(), -1, e, {});
      }
      LeftSteady(s0, Now(), e);
    }

    // One more user of the entry, and its cleanup.
    method Count(e: Id, minUses: nat, ghost extra: set<int>) returns (ghost h: HandleId)
      requires e in entries && Inv(Now(), e, e, extra)
      modifies `entries, `handles
      ensures Inv(Now(), e, e, extra) && h !in old(handles)
      ensures entries == old(entries)[e := old(entries[e]).(count := old(entries[e]).count + 1)]
      ensures handles == old(handles)[h := Handle(e, old(entries[e]).fd, minUses)]
      ensures InTree(Now(), e) == old(InTree(Now(), e))
    {
      hide Inv;
      h := NewHandle(handles);
      AddHandle(Now(), e, extra, e, h, minUses);
      handles := handles[h := Handle(e, entries[e].fd, minUses)];
      entries := entries[e := entries[e].(count := entries[e].count + 1)];
    }

    // The labels "update" and "found": the entry takes the answer over and goes to the head of the queue.
    method Update(e: Id, of: Info, req: Request, now: int) returns (rc: Status, ghost h: HandleId)
      requires e in entries
      modifies `entries, `queue, `handles
      ensures h !in old(handles) && Now() == Updated(old(Now()), e, of, req, now, h) && rc == Verdict(of)
    {
      entries := entries[e := Taken(entries[e], of, req, now)];
      h := NewHandle(handles);
      if of.err == 0 && !of.isDir {
        entries := entries[e := entries[e].(count := entries[e].count + 1)];
        handles := handles[h := Handle(e, entries[e].fd, req.minUses)];
      }
      queue := [e] + queue;
      rc := if of.err == 0 then OK else ERROR;
    }

    method MakeRoom(now: int, ghost extra: set<int>)
      requires Inv(Now(), -1, -1, extra) && current > 0
      modifies `entries, `tree, `queue, `current, `open
      ensures Inv(Now(), -1, -1, extra) && current < old(current)
      ensures tree.Keys <= old(tree.Keys) && entries.Keys <= old(entries.Keys)
      ensures Outside(old(Now()), Now()) && Steady(old(Now()), Now(), {})
    {
      hide Inv, Steady;
      Members(Now(), extra);
      Expire(0, now, extra);
      Members(Now(), extra);
    }

    // The label "create": a new entry, after making room. The memory of the entry holds `junk` before.
    method CreateEntry(name: Name, of: Info, req: Request, now: int, e: Id, junk: Entry)
      returns (rc: Status, ghost h: HandleId)
      requires Inv(Now(), -1, -1, Loose(of)) && current <= max && max >= 1 && name !in tree && e !in entries
      requires Stale(of) || (of.err == 0 && !of.isDir <==> of.fd != NO_FILE)
      modifies `entries, `tree, `queue, `current, `open, `handles
      ensures current <= max && (Fine() <==> !Stale(of))
      ensures Given(old(handles), handles, h, rc, of, req.minUses) && rc == Verdict(of)
      ensures rc == OK ==> Cached(Now(), name, of, now)
      ensures Outside(old(Now()), Now()) && queue != [] && queue[0] == e
      ensures Steady(old(Now()), Now(), {name}) && name in tree && tree[name] == e && e in entries
      ensures entries[e].name == name && entries[e].uses == 1
      ensures (!Stale(of) ==> Matches(entries[e], Look(now, req.symlinks, req.from, of)))
    {
      hide Inv, InTree, FdOf, Of, Loose, Fits, Updated, Whole, Steady;
      ghost var s0 := Now();
      SteadyStill(s0, {});
      if current >= max {
        MakeRoom(now, Loose(of));
      }
      ghost var s1 := Now();
      var f := junk.(name := name, uses := 1, count := 0);
      Create(Now(), Loose(of), e, f);
      entries := entries[e := f];
      tree := tree[name := e];
      current := current + 1;
      ghost var s := Now();
      if !Stale(of) {
        LooseIs(of);
        NewFits(s, e, of);
      }
      rc, h := Update(e, of, req, now);
      UpdateShows(s, e, of, req, now, h);
      CreateSteady(s0, s1, s, Now(), name, e);
    }

    // The cached answer, without looking at the file system.
    method FromCache(e: Id, req: Request, now: int) returns (rc: Status, of: Info, ghost h: HandleId)
      requires InTree(Now(), e) && InHand(Now(), e, e, {}) && Regular(entries[e])
      requires entries[e].err == 0 ==> !entries[e].close && (entries[e].isDir || entries[e].fd != NO_FILE)
      modifies `entries, `queue, `handles
      ensures Whole(Now()) && Given(old(handles), handles, h, rc, of, req.minUses)
      ensures queue == [e] + old(queue) && e in entries && InTree(Now(), e)
      ensures rc == OK ==> HasAnswer(entries[e], old(entries[e].name), of, now)
      ensures var f := old(entries[e]);
        if f.err == 0 then rc == OK && of == Info(f.fd, f.uniq, 0, f.isDir)
        else rc == ERROR && of == Info(NO_FILE, req.uniq, f.err, false)
      ensures entries == old(entries)[e := old(entries[e]).(count := entries[e].count, accessed := now)]
    {
      hide Inv, InTree;
      h := 0;
      if entries[e].err == 0 {
        of := Info(entries[e].fd, entries[e].uniq, 0, entries[e].isDir);
        if !entries[e].isDir {
          h := Count(e, req.minUses, FdOf(Now(), e) + {});
        }
      } else {
        of := Info(NO_FILE, req.uniq, entries[e].err, false);
      }
      Touch(Now(), e, e, entries[e].(accessed := now), {});
      entries := entries[e := entries[e].(accessed := now)];
      Settle(Now(), e, e, {});
      ToHead(Now(), -1, {}, e);
      queue := [e] + queue;
      rc := if of.err == 0 then OK else ERROR;
    }

    // The cached file is gone or another one: its descriptor is closed, or left to its handles. If the answer
    // is stale, it keeps the number of that descriptor all the same.
    method Replace(e: Id, of: Info, req: Request, now: int, memory: Id, junk: Entry)
      returns (rc: Status, ghost h: HandleId)
      requires InTree(Now(), e) && InHand(Now(), e, e, Loose(of)) && Regular(entries[e]) && entries[e].fd != NO_FILE
      requires if Stale(of) then of.fd == entries[e].fd else of.err == 0 && !of.isDir <==> of.fd != NO_FILE
      requires current <= max && max >= 1 && memory !in entries
      modifies `entries, `tree, `queue, `current, `open, `handles
      ensures current <= max && (Fine() <==> !Stale(of))
      ensures Given(old(handles), handles, h, rc, of, req.minUses) && rc == Verdict(of)
      ensures rc == OK ==> Cached(Now(), old(entries[e].name), of, now)
      ensures Stale(of) ==> Dangling(Now(), of.fd)
      ensures Noted(old(Now()), Now(), old(entries[e].name), of, req, now) && old(entries[e].name) in tree
    {
      hide Inv, FdOf, InTree, Of, Loose, Fits, Updated, Whole, Steady;
      ghost var s0 := Now();
      InHandIsOpen(Now(), e, e, Loose(of));
      if entries[e].count == 0 {
        if !Stale(of) {
          LooseIs(of);
          ReplaceFits(Now(), e, of);
        }
        StaysInTree(Now(), e, entries[e].fd);
        CloseFile(entries[e].fd);
        ghost var s := Now();
        rc, h := Update(e, of, req, now);
        UpdateShows(s, e, of, req, now, h);
        NotedSame(s0, s, Now(), entries[e].name, of, req, now);
        return;
      }
      var name := entries[e].name;
      NotQueued(Now(), e, Loose(of));
      Discard(Now(), e, Loose(of));
      tree := tree - {name};
      current := current - 1;
      Touch(Now(), -1, e, entries[e].(close := true), Loose(of));
      entries := entries[e := entries[e].(close := true)];
      Settle(Now(), -1, e, Loose(of));
      ghost var s := Now();
      LeftSteady(s0, s, e);
      rc, h := CreateEntry(name, of, req, now, memory, junk);
      SteadyMore(s0, s, {name});
      SteadyTrans(s0, s, Now(), {name});
      NewNoted(s0, Now(), name, memory, of, req, now);
    }

    // The file system is asked again about a known name.
    method Retest(e: Id, req: Request, now: int, fs: Files, memory: Id, junk: Entry)
      returns (rc: Status, of: Info, ghost h: HandleId)
      requires InTree(Now(), e) && InHand(Now(), e, e, {}) && Regular(entries[e]) && current <= max && max >= 1
      requires entries[e].fd != NO_FILE || entries[e].err != 0 || entries[e].isDir
      requires Kernel(fs, open) && memory !in entries
      modifies `entries, `tree, `queue, `current, `open, `handles, `leaked, `looks
      ensures looks == old(looks) + 1 && Noted(old(Now()), Now(), old(entries[e].name), of, req, now)
      ensures old(entries[e].name) in tree <==> rc == OK || (req.errors && of.err != 0)
      ensures current <= max && (Fine() <==> !Alias(old(entries[e]), fs))
      ensures Given(old(handles), handles, h, rc, of, req.minUses)
      ensures rc == OK ==> Cached(Now(), old(entries[e].name), of, now)
      ensures leaked == old(leaked) + if Flipped(old(entries[e]), fs) then {old(entries[e].fd)} else {}
      ensures var f := old(entries[e]);
        (rc, of) == Judged(Answer(Info(f.fd, f.uniq, 0, false), req.testDir || f.isDir, fs))
      ensures Alias(old(entries[e]), fs) ==>
        rc == OK && Stale(of) && of.fd == old(entries[e].fd) && Dangling(Now(), of.fd)
    {
      hide Inv, InTree, FdOf, Of, Owned, Fits, Updated, Whole, Flipped, Noted, Steady;
      var f := entries[e];
      ghost var s := Now();
      var ok;
      of := Info(f.fd, f.uniq, 0, false);
      InHandIsOpen(s, e, e, {});
      ok, of := OpenAndStat(of, req.testDir || f.isDir, fs);
      if Alias(f, fs) {
        AliasAnswer(s, f, req.testDir || f.isDir, fs, ok, of);
      } else {
        Retested(s, Now(), e, req.testDir || f.isDir, fs, ok, of);
      }
      ghost var w := Now();
      if !ok && (of.err == 0 || !req.errors) {
        Fail(e);
        NotThere(s, w, Now(), f.name, of, req, now);
        h := NewHandle(handles);
        Members(Now(), {}) by { WholeIs(Now()); }
        return ERROR, of, h;
      }
      if of.isDir {
        if f.isDir || f.err != 0 {
          rc, h := UpdateFit(e, of, req, now);
          NotedSame(s, w, Now(), f.name, of, req, now);
          return;
        }
      } else if of.err == 0 {
        if f.isDir || f.err != 0 {
          rc, h := UpdateFit(e, of, req, now);
          NotedSame(s, w, Now(), f.name, of, req, now);
          return;
        }
        if of.uniq == f.uniq {
          if of.fd != f.fd {
            LeakOld(Now(), e, of);
            leaked := leaked + {f.fd};
            w := Now();
          }
          rc, h := UpdateFit(e, of, req, now);
          NotedSame(s, w, Now(), f.name, of, req, now);
          return;
        }
      } else {
        if f.err != 0 || f.isDir {
          rc, h := UpdateFit(e, of, req, now);
          NotedSame(s, w, Now(), f.name, of, req, now);
          return;
        }
      }
      LooseIs(of);
      rc, h := Replace(e, of, req, now, memory, junk);
      NotedSame(s, w, Now(), f.name, of, req, now);
    }

    // The entry takes over an answer that fits it.
    method UpdateFit(e: Id, of: Info, req: Request, now: int) returns (rc: Status, ghost h: HandleId)
      requires InTree(Now(), e) && Inv(Now(), e, e, Of(of)) && Fits(Now(), e, of) && !Stale(of) && current <= max
      requires max >= 1
      modifies `entries, `queue, `handles
      ensures Fine() && Given(old(handles), handles, h, rc, of, req.minUses) && rc == Verdict(of)
      ensures rc == OK ==> Cached(Now(), old(entries[e].name), of, now)
      ensures Noted(old(Now()), Now(), old(entries[e].name), of, req, now) && old(entries[e].name) in tree
    {
      hide Inv, FdOf, Of, Fits, Updated, Whole, Steady;
      ghost var s := Now();
      rc, h := Update(e, of, req, now);
      UpdateShows(s, e, of, req, now, h);
    }

    // The name is known.
    method OpenKnown(e: Id, req: Request, now: int, fs: Files, memory: Id, junk: Entry)
      returns (rc: Status, of: Info, ghost h: HandleId)
      requires Fine() && InTree(Now(), e) && Kernel(fs, open) && memory !in entries
      modifies `entries, `tree, `queue, `current, `open, `handles, `leaked, `looks
      ensures looks == old(looks) + if Answered(old(entries[e])) && Trusted(old(entries[e]), req, now) then 0 else 1
      ensures looks == old(looks) ==> Reused(old(Now()), Now(), e, now)
      ensures old(entries[e].name) in tree <==> rc == OK || looks == old(looks) || (req.errors && of.err != 0)
      ensures looks != old(looks) ==>
        Noted(OneMoreUse(old(Now()), e), Now(), old(entries[e].name), of, req, now)
      ensures current <= max && (Fine() <==> !Confused(old(entries[e]), req, now, fs))
      ensures Given(old(handles), handles, h, rc, of, req.minUses)
      ensures Confused(old(entries[e]), req, now, fs) ==>
        rc == OK && of.isDir && of.fd == old(entries[e].fd) && Dangling(Now(), of.fd)
      ensures rc == OK ==> Cached(Now(), old(entries[e].name), of, now)
      ensures (rc, of) == Outcome(true, old(entries[e]), req, now, fs)
      ensures var f := old(entries[e]);
        leaked == old(leaked) + if !Trusted(f, req, now) && Flipped(f, fs) then {f.fd} else {}
    {
      hide Inv, FdOf, Of, Noted;
      ghost var s0 := Now();
      Known(Now(), e, entries[e].(uses := (entries[e].uses + 1) % USES));
      entries := entries[e := entries[e].(uses := (entries[e].uses + 1) % USES)];
      queue := Removed(queue, e);
      ghost var s := Now();
      if entries[e].fd == NO_FILE && entries[e].err == 0 && !entries[e].isDir {
        rc, of, h := Reopen(e, req, now, fs);
        NotedSame(OneMoreUse(s0, e), s, Now(), s0.entries[e].name, of, req, now);
        return;
      }
      if Trusted(entries[e], req, now) {
        rc, of, h := FromCache(e, req, now);
        return;
      }
      rc, of, h := Retest(e, req, now, fs, memory, junk);
      NotedSame(OneMoreUse(s0, e), s, Now(), s0.entries[e].name, of, req, now);
    }

    // A file that was not used often enough to be kept open is opened again.
    method Reopen(e: Id, req: Request, now: int, fs: Files) returns (rc: Status, of: Info, ghost h: HandleId)
      requires InTree(Now(), e) && InHand(Now(), e, e, {}) && Regular(entries[e]) && current <= max && max >= 1
      requires entries[e].fd == NO_FILE && Kernel(fs, open)
      modifies `entries, `tree, `queue, `current, `open, `handles, `looks
      ensures looks == old(looks) + 1 && Noted(old(Now()), Now(), old(entries[e].name), of, req, now)
      ensures old(entries[e].name) in tree <==> rc == OK || (req.errors && of.err != 0)
      ensures Fine() && Given(old(handles), handles, h, rc, of, req.minUses)
      ensures rc == OK ==> Cached(Now(), old(entries[e].name), of, now)
      ensures (rc, of) == Judged(Answer(Info(NO_FILE, req.uniq, 0, false), req.testDir, fs))
    {
      hide Inv, InTree, FdOf, Of, Noted, Steady;
      ghost var s := Now();
      var ok;
      ok, of := OpenAndStat(Info(NO_FILE, req.uniq, 0, false), req.testDir, fs);
      Renewed(s, Now(), e, req, fs, ok, of);
      ghost var w := Now();
      if !ok && (of.err == 0 || !req.errors) {
        Fail(e);
        NotThere(s, w, Now(), s.entries[e].name, of, req, now);
        h := NewHandle(handles);
        return ERROR, of, h;
      }
      rc, h := UpdateFit(e, of, req, now);
      NotedSame(s, w, Now(), s.entries[e].name, of, req, now);
    }

    // The name is not known.
    method OpenNew(name: Name, req: Request, now: int, fs: Files, memory: Id, junk: Entry)
      returns (rc: Status, of: Info, ghost h: HandleId)
      requires Fine() && name !in tree && Kernel(fs, open) && memory !in entries
      modifies `entries, `tree, `queue, `current, `open, `handles, `looks
      ensures Fine() && looks == old(looks) + 1 && !Stale(of) && Noted(old(Now()), Now(), name, of, req, now)
      ensures name in tree <==> rc == OK || (req.errors && of.err != 0)
      ensures Given(old(handles), handles, h, rc, of, req.minUses)
      ensures rc == OK ==> Cached(Now(), name, of, now)
      ensures (rc, of) == Judged(Answer(Info(NO_FILE, req.uniq, 0, false), req.testDir, fs))
    {
      hide Inv, FdOf, Of, Noted, Steady, Whole;
      ghost var s := Now();
      var ok;
      ok, of := OpenAndStat(Info(NO_FILE, req.uniq, 0, false), req.testDir, fs);
      Found(s, Now(), req, fs, ok, of);
      ghost var w := Now();
      if !ok && (of.err == 0 || !req.errors) {
        h := NewHandle(handles);
        SteadyStill(w, {});
        NotThere(s, w, w, name, of, req, now);
        return ERROR, of, h;
      }
      LooseIs(of);
      rc, h := CreateEntry(name, of, req, now, memory, junk);
      NewNoted(w, Now(), name, memory, of, req, now);
      NotedSame(s, w, Now(), name, of, req, now);
    }

    /** ngx_open_cached_file: whatever the file system answers, a file that was opened comes with one new
        handle, and the bookkeeping is right afterwards if and only if the cached answer was trusted or the
        name did not lead to a directory with the number of the cached file. If it did, the answer is that
        directory with a descriptor that is closed already, or belongs to the handles of the file. A
        descriptor is lost exactly if the name flipped away from the cached file and back between the two
        looks at it. */
    method Open(name: Name, req: Request, now: int, fs: Files, memory: Id, junk: Entry)
      returns (rc: Status, of: Info, ghost h: HandleId)
      requires Valid() && Kernel(fs, open) && memory !in entries
      modifies `entries, `tree, `queue, `current, `open, `handles, `leaked, `looks, `seen
      ensures current <= max && (Valid() <==> !ConfusedAt(old(Now()), name, req, now, fs))
      ensures looks == old(looks) + if StillGood(old(Now()), old(seen), name, req, now) then 0 else 1
      ensures looks == old(looks) ==>
        seen == old(seen) && if seen[name].of.err == 0 then rc == OK && of == seen[name].of
                             else rc == ERROR && of.err == seen[name].of.err
      ensures name in tree <==> rc == OK || looks == old(looks) || (req.errors && of.err != 0)
      ensures looks != old(looks) && name in tree ==>
        seen == old(seen)[name := Look(now, req.symlinks, req.from, of)]
      ensures name in tree && tree[name] in entries ==>
        entries[tree[name]].uses == if name in old(tree) && old(tree[name]) == tree[name]
          then (old(entries[tree[name]].uses) + 1) % USES else 1
      ensures ConfusedAt(old(Now()), name, req, now, fs) ==>
        rc == OK && of.isDir && of.fd != NO_FILE && Dangling(Now(), of.fd)
      ensures Given(old(handles), handles, h, rc, of, req.minUses)
      ensures rc == OK ==> Cached(Now(), name, of, now)
      ensures leaked == old(leaked) + Lost(old(Now()), name, req, now, fs)
      ensures (rc, of) == Outcome(name in old(tree), if name in old(tree) then old(entries[tree[name]]) else junk,
        req, now, fs)
    {
      hide Inv, FdOf, Of, Noted, Steady, Remembered, Reused, Whole, Outcome, Answer, StillGood;
      ghost var s := Now();
      if name in tree {
        ByName(Now(), name);
        ghost var e := tree[name];
        OutcomeAgain(entries[e], req, now, fs);
        rc, of, h := OpenKnown(tree[name], req, now, fs, memory, junk);
        if looks == old(looks) {
          AnswerAgain(s, Now(), seen, name, e, req, now);
        } else {
          LookedAgain(s, Now(), seen, name, e, of, req, now);
          seen := if name in tree then seen[name := Look(now, req.symlinks, req.from, of)] else seen;
        }
        return;
      }
      OutcomeNew(junk, req, now, fs);
      rc, of, h := OpenNew(name, req, now, fs, memory, junk);
      LookedFirst(s, Now(), seen, name, of, req, now);
      seen := if name in tree then seen[name := Look(now, req.symlinks, req.from, of)] else seen;
    }
  }

  lemma SteadyStill(s: State, but: set<Name>)
    ensures Steady(s, s, but)
  {
  }

  lemma SteadyTrans(s: State, v: State, w: State, but: set<Name>)
    requires Steady(s, v, but) && Steady(v, w, but)
    ensures Steady(s, w, but)
  {
    forall n | Has(w, n) && n !in but
      ensures Has(s, n) && s.tree[n] == w.tree[n] && SameStamp(s.entries[s.tree[n]], w.entries[w.tree[n]])
    {
      assert Has(v, n) && Has(s, n);
    }
  }

  lemma SteadyMore(s: State, w: State, but: set<Name>)
    requires Steady(s, w, {})
    ensures Steady(s, w, but)
  {
  }

  // One name is gone.
  lemma LeftSteady(s: State, w: State, e: Id)
    requires e in s.entries && w.tree == s.tree - {s.entries[e].name}
    requires forall d :: d in w.entries && d != e ==> d in s.entries && w.entries[d] == s.entries[d]
    requires e in w.entries ==> w.entries[e].name == s.entries[e].name
    ensures Steady(s, w, {})
  {
    forall n | Has(w, n)
      ensures Has(s, n) && s.tree[n] == w.tree[n] && SameStamp(s.entries[s.tree[n]], w.entries[w.tree[n]])
    {
    }
  }

  // A handle was given back, and its entry perhaps closed.
  lemma CloseSteady(s: State, v: State, w: State, e: Id, minUses: nat, now: int)
    requires e in s.entries && e in v.entries && v.entries == s.entries[e := s.entries[e].(count := v.entries[e].count)]
    requires w.entries == AfterClose(v.entries, e, minUses, now) && w.tree == s.tree
    ensures Steady(s, w, {})
  {
  }

  // A new entry took the answer over.
  lemma CreateSteady(s: State, v: State, u: State, w: State, name: Name, e: Id)
    requires Steady(s, v, {}) && u.tree == v.tree[name := e] && w.tree == u.tree
    requires forall d :: d in w.entries && d != e ==> d in v.entries && w.entries[d] == v.entries[d]
    requires e in w.entries && w.entries[e].name == name
    ensures Steady(s, w, {name})
  {
    forall n | Has(w, n) && n != name
      ensures Has(s, n) && s.tree[n] == w.tree[n] && SameStamp(s.entries[s.tree[n]], w.entries[w.tree[n]])
    {
      assert Has(v, n);
    }
  }

  lemma NotedSame(s: State, v: State, w: State, name: Name, of: Info, req: Request, now: int)
    requires v.tree == s.tree && v.entries == s.entries && Noted(v, w, name, of, req, now)
    ensures Noted(s, w, name, of, req, now)
  {
    assert forall n :: Has(v, n) <==> Has(s, n);
  }

  lemma NewNoted(s: State, w: State, name: Name, e: Id, of: Info, req: Request, now: int)
    requires Steady(s, w, {name}) && name in w.tree && w.tree[name] == e && e in w.entries && e !in s.entries
    requires w.entries[e].name == name && w.entries[e].uses == 1
    requires !Stale(of) ==> Matches(w.entries[e], Look(now, req.symlinks, req.from, of))
    ensures Noted(s, w, name, of, req, now)
  {
  }

  lemma NotThere(s: State, v: State, w: State, name: Name, of: Info, req: Request, now: int)
    requires v.tree == s.tree && v.entries == s.entries && name !in w.tree && Steady(v, w, {})
    ensures Noted(s, w, name, of, req, now)
  {
    assert forall n :: Has(v, n) <==> Has(s, n);
  }

  lemma StillRemembered(s: State, w: State, seen: map<Name, Look>)
    requires Remembered(s, seen) && Steady(s, w, {})
    ensures Remembered(w, seen)
  {
    assert forall n :: Has(w, n) ==> Has(s, n);
  }

  /** An answer given again is the one of the last look, and that was not too long ago. */
  lemma AnswerAgain(s: State, w: State, seen: map<Name, Look>, name: Name, e: Id, req: Request, now: int)
    requires Whole(s) && Remembered(s, seen) && name in s.tree && s.tree[name] == e && InTree(s, e)
    requires s.entries[e].name == name && Answered(s.entries[e]) && Trusted(s.entries[e], req, now)
    requires Reused(s, w, e, now)
    ensures Remembered(w, seen) && StillGood(s, seen, name, req, now) && name in w.tree && w.tree[name] == e
    ensures e in w.entries && w.entries[e].uses == (s.entries[e].uses + 1) % USES
    ensures var f := s.entries[e];
      f.err == seen[name].of.err && (f.err == 0 ==> Info(f.fd, f.uniq, 0, f.isDir) == seen[name].of)
  {
    assert Has(s, name) && Clean(s, e);
    forall n | Has(w, n)
      ensures n in seen && Matches(w.entries[w.tree[n]], seen[n])
    {
      assert Has(s, n);
    }
  }

  lemma OutcomeAgain(f: Entry, req: Request, now: int, fs: Files)
    ensures Answered(f) && Trusted(f, req, now) ==>
      Outcome(true, f, req, now, fs)
        == if f.err == 0 then (OK, Info(f.fd, f.uniq, 0, f.isDir)) else (ERROR, Info(NO_FILE, req.uniq, f.err, false))
    ensures !(Answered(f) && Trusted(f, req, now)) && !Confused(f, req, now, fs) ==>
      !Stale(Outcome(true, f, req, now, fs).1)
  {
  }

  lemma OutcomeNew(f: Entry, req: Request, now: int, fs: Files)
    ensures Outcome(false, f, req, now, fs) == Judged(Answer(Info(NO_FILE, req.uniq, 0, false), req.testDir, fs))
  {
  }

  /** After a look the other entries remember theirs, and this one remembers it. */
  lemma LookedAgain(s: State, w: State, seen: map<Name, Look>, name: Name, e: Id, of: Info, req: Request, now: int)
    requires Remembered(s, seen) && name in s.tree && s.tree[name] == e && e in s.entries && s.entries[e].name == name
    requires !(Answered(s.entries[e]) && Trusted(s.entries[e], req, now))
    requires Noted(OneMoreUse(s, e), w, name, of, req, now)
    ensures !StillGood(s, seen, name, req, now)
    ensures name in w.tree ==>
      w.tree[name] in w.entries
      && w.entries[w.tree[name]].uses == if w.tree[name] == e then (s.entries[e].uses + 1) % USES else 1
    ensures !Stale(of) ==>
      Remembered(w, if name in w.tree then seen[name := Look(now, req.symlinks, req.from, of)] else seen)
  {
    assert Has(s, name);
    var v := OneMoreUse(s, e);
    forall n | Has(w, n) && n != name
      ensures n in seen && Matches(w.entries[w.tree[n]], seen[n])
    {
      assert Has(v, n);
      assert Has(s, n);
    }
  }

  lemma LookedFirst(s: State, w: State, seen: map<Name, Look>, name: Name, of: Info, req: Request, now: int)
    requires Remembered(s, seen) && name !in s.tree && Noted(s, w, name, of, req, now) && !Stale(of)
    ensures !StillGood(s, seen, name, req, now)
    ensures name in w.tree ==> w.tree[name] in w.entries && w.entries[w.tree[name]].uses == 1
    ensures Remembered(w, if name in w.tree then seen[name := Look(now, req.symlinks, req.from, of)] else seen)
  {
    forall n | Has(w, n) && n != name
      ensures n in seen && Matches(w.entries[w.tree[n]], seen[n])
    {
      assert Has(s, n);
    }
  }

  // What left the end of the queue.
  ghost function Gone(before: seq<Id>, after: seq<Id>): set<Id> {
    if |after| <= |before| then set d | d in before[|after|..] else {}
  }

  // The descriptors of these entries that no handle refers to.
  ghost function Unused(entries: map<Id, Entry>, es: set<Id>): set<int> {
    set d | d in es && d in entries && entries[d].count == 0 && entries[d].fd != NO_FILE :: entries[d].fd
  }

  /** The other entries are as they were. */
  ghost predicate Expired(before: map<Id, Entry>, after: map<Id, Entry>, gone: set<Id>) {
    forall d :: d in before && d !in gone ==> d in after && after[d] == before[d]
  }

  lemma UnusedOne(entries: map<Id, Entry>, e: Id)
    requires e in entries
    ensures Unused(entries, {e}) == if entries[e].count == 0 && entries[e].fd != NO_FILE then {entries[e].fd} else {}
  {
  }

  lemma NothingGone(entries: map<Id, Entry>, q: seq<Id>, open: set<int>)
    ensures Gone(q, q) == {} && Expired(entries, entries, {}) && open == open - Unused(entries, {})
  {
    assert q[|q|..] == [];
  }

  // One more entry leaves the queue.
  lemma GoneOne(e0: map<Id, Entry>, e1: map<Id, Entry>, e2: map<Id, Entry>, q0: seq<Id>, q: seq<Id>)
    requires q != [] && q <= q0 && Distinct(q0) && Expired(e0, e1, Gone(q0, q)) && q[|q| - 1] in e1
    requires e1.Keys <= e0.Keys && forall d :: d in e1 && d != q[|q| - 1] ==> d in e2 && e2[d] == e1[d]
    ensures var e := q[|q| - 1];
      && Gone(q0, q[..|q| - 1]) == Gone(q0, q) + {e} && e in e0 && e1[e] == e0[e]
      && Unused(e0, Gone(q0, q) + {e}) == Unused(e0, Gone(q0, q)) + Unused(e1, {e})
      && Expired(e0, e2, Gone(q0, q) + {e})
  {
    var n := |q| - 1;
    assert q0[n..] == [q0[n]] + q0[n + 1..];
    assert q0[n] == q[n];
    var r := q0[n + 1..];
    forall i | 0 <= i < |r|
      ensures r[i] != q0[n]
    {
      assert r[i] == q0[n + 1 + i];
    }
  }

  lemma AllHandedOut(s: State)
    requires Whole(s)
    ensures forall k :: k in s.handles ==> s.handles[k].fd in s.open
  {
    forall k | k in s.handles
      ensures s.handles[k].fd in s.open
    {
      HandedOutIsOpen(s, k);
    }
  }

  // A descriptor whose entry stays, stays open.
  lemma StillHeld(s: State, e: Id, fd: int, q: seq<Id>, now: int, inactive: nat)
    requires Inv(s, -1, -1, {}) && fd != NO_FILE && q <= s.queue
    requires e in s.entries && s.entries[e].fd == fd ==> s.entries[e].close || s.entries[e].accessed == now
    requires forall d :: d in Gone(s.queue, q) && d in s.entries ==> now - s.entries[d].accessed > inactive
    ensures e in s.entries && s.entries[e].fd == fd ==> fd in s.open - Unused(s.entries, Gone(s.queue, q))
  {
    hide Inv;
    if e in s.entries && s.entries[e].fd == fd {
      HeldFacts(s, e);
      GoneWasQueued(s.queue, q);
    }
  }

  lemma GoneWasQueued(before: seq<Id>, after: seq<Id>)
    requires after <= before
    ensures forall d :: d in Gone(before, after) ==> d in before
  {
    assert before == before[..|after|] + before[|after|..];
  }

  lemma HeldFacts(s: State, e: Id)
    requires Inv(s, -1, -1, {}) && e in s.entries && s.entries[e].fd != NO_FILE
    ensures s.entries[e].fd in s.open && (s.entries[e].close ==> e !in s.queue)
    ensures forall d :: d in s.entries && d != e ==> s.entries[d].fd != s.entries[e].fd
  {
    hide Indexed, Counted, Served;
    assert s.entries[e].fd in Held(s, -1);
    assert Clean(s, e);
  }

  // The descriptor of the answer.
  ghost function Of(of: Info): set<int> {
    if of.fd == NO_FILE then {} else {of.fd}
  }

  // The descriptor of the answer, unless an entry still has it.
  ghost function Loose(of: Info): set<int> {
    if Stale(of) then {} else Of(of)
  }

  lemma LooseIs(of: Info)
    ensures Stale(of) ==> Loose(of) == {}
    ensures !Stale(of) ==> Loose(of) == Of(of)
  {
  }

  lemma WholeIs(s: State)
    requires Whole(s)
    ensures Inv(s, -1, -1, {})
  {
  }

  lemma FdOfIs(s: State, e: Id)
    requires e in s.entries
    ensures FdOf(s, e) == if s.entries[e].fd == NO_FILE then {} else {s.entries[e].fd}
  {
  }

  lemma StaysInTree(s: State, e: Id, fd: int)
    requires InTree(s, e)
    ensures InTree(s.(open := s.open - {fd}), e)
  {
  }

  lemma NotQueued(s: State, e: Id, extra: set<int>)
    requires InHand(s, e, e, extra)
    ensures e !in s.queue
  {
  }

  /** What an update does for the caller; the bookkeeping is right if the answer fits, and wrong if it is
      a directory with a descriptor. */
  lemma UpdateShows(s: State, e: Id, of: Info, req: Request, now: int, h: HandleId)
    requires InTree(s, e) && h !in s.handles
    ensures var w := Updated(s, e, of, req, now, h);
      && Given(s.handles, w.handles, h, Verdict(of), of, req.minUses) && (of.err == 0 ==>
        Cached(w, s.entries[e].name, of, now))
      && w.current == s.current && w.open == s.open && w.leaked == s.leaked && w.tree == s.tree
      && w.queue == [e] + s.queue && w.entries.Keys == s.entries.Keys && w.entries[e].name == s.entries[e].name
      && (forall d :: d in s.entries && d != e ==> d in w.entries && w.entries[d] == s.entries[d])
      && (Stale(of) ==> !Whole(w)) && Noted(s, w, s.entries[e].name, of, req, now)
    ensures Inv(s, e, e, Of(of)) && Fits(s, e, of) ==> Whole(Updated(s, e, of, req, now, h))
  {
    hide Inv;
    var w := Updated(s, e, of, req, now, h);
    forall n | Has(w, n) && n != s.entries[e].name
      ensures Has(s, n) && w.entries[w.tree[n]] == s.entries[s.tree[n]]
    {
    }
    if Stale(of) {
      assert e in w.entries && !Clean(w, e);
      NotWhole(w, e);
    }
    if Inv(s, e, e, Of(of)) && Fits(s, e, of) {
      UpdateKeeps(s, e, of, req, now, h);
    }
  }

  lemma NotWhole(s: State, e: Id)
    requires e in s.entries && !Clean(s, e)
    ensures !Whole(s)
  {
  }

  lemma UpdateKeeps(s: State, e: Id, of: Info, req: Request, now: int, h: HandleId)
    requires InTree(s, e) && h !in s.handles && Inv(s, e, e, Of(of)) && Fits(s, e, of)
    ensures Whole(Updated(s, e, of, req, now, h))
  {
    hide Inv, Whole, Of, InTree;
    var g := Taken(s.entries[e], of, req, now);
    TakeOver(s, e, g, of);
    var v := s.(entries := s.entries[e := g]);
    if of.err == 0 && !of.isDir {
      AddHandle(v, e, Of(of), e, h, req.minUses);
      var u := v.(entries := v.entries[e := g.(count := g.count + 1)],
        handles := v.handles[h := Handle(e, g.fd, req.minUses)]);
      BackToHead(u, e, of);
      assert u.entries == s.entries[e := g.(count := g.count + 1)];
    } else {
      BackToHead(v, e, of);
    }
  }

  // An answer fits an entry: errors and directories only replace an entry without handles, and the
  // handles of the entry hold the descriptor of the answer.
  ghost predicate Fits(s: State, e: Id, of: Info) {
    && e in s.entries && (of.err == 0 && !of.isDir <==> of.fd != NO_FILE)
    && (of.fd == NO_FILE ==> s.entries[e].count == 0)
    && forall h :: h in HandlesOf(s, e) ==> s.handles[h].fd in s.leaked || s.handles[h].fd == of.fd
  }

  /** A file that was opened comes with a handle; nothing else does. */
  ghost predicate Given(before: map<HandleId, Handle>, after: map<HandleId, Handle>, h: HandleId, rc: Status, of: Info,
                        minUses: nat) {
    if rc == OK && !of.isDir then
      h !in before && h in after && after == before[h := after[h]] && after[h].fd == of.fd &&
        after[h].minUses == minUses
    else after == before
  }

  lemma NewHandle(handles: map<HandleId, Handle>) returns (h: HandleId)
    ensures h !in handles
  {
    h := Bound(handles.Keys);
  }

  lemma Bound(s: set<HandleId>) returns (h: HandleId)
    ensures forall k :: k in s ==> k < h
  {
    if s == {} {
      h := 0;
    } else {
      var m :| m in s;
      h := Bound(s - {m});
      assert forall k :: k in s ==> k == m || k in s - {m};
      if h <= m {
        h := m + 1;
      }
    }
  }

  /** The entry takes over the answer's descriptor. */
  lemma TakeOver(s: State, e: Id, f: Entry, of: Info)
    requires InTree(s, e) && Inv(s, e, e, Of(of)) && Fits(s, e, of)
    requires f.name == s.entries[e].name && f.count == s.entries[e].count && f.fd == of.fd && f.err == of.err
    requires of.err == 0 ==> !f.close && f.isDir == of.isDir
    ensures var w := s.(entries := s.entries[e := f]);
      Inv(w, e, e, Of(of)) && InTree(w, e) && (of.fd == NO_FILE ==> f.count == 0) && (of.err == 0 && !of.isDir <==>
        of.fd != NO_FILE)
  {
    hide Indexed, Counted, AllClean, Owned, Served, Queued;
    SetEntry(s, e, Of(of), e, f);
  }

  lemma BackToHead(s: State, e: Id, of: Info)
    requires InTree(s, e) && Inv(s, e, e, Of(of)) && of.fd == s.entries[e].fd && Regular(s.entries[e])
    requires s.entries[e].err == 0 ==> !s.entries[e].close
    ensures Whole(s.(queue := [e] + s.queue)) && InTree(s.(queue := [e] + s.queue), e)
  {
    hide Indexed, Counted, AllClean, Owned, Served, Queued;
    ToHead(s, e, FdOf(s, e), e);
    assert FdOf(s, e) + {} == FdOf(s, e);
    Settle(s.(queue := [e] + s.queue), -1, e, {});
  }

  lemma NewFits(s: State, e: Id, of: Info)
    requires Inv(s, e, e, Of(of)) && e in s.entries && s.entries[e].count == 0
    requires of.err == 0 && !of.isDir <==> of.fd != NO_FILE
    ensures Fits(s, e, of)
  {
    NoHandles(s, e);
  }

  lemma ReplaceFits(s: State, e: Id, of: Info)
    requires InHand(s, e, e, Of(of)) && s.entries[e].fd != NO_FILE && s.entries[e].count == 0
    requires of.err == 0 && !of.isDir <==> of.fd != NO_FILE
    ensures s.entries[e].fd in s.open
    ensures var w := s.(open := s.open - {s.entries[e].fd});
      Inv(w, e, e, Of(of)) && Fits(w, e, of) && InTree(w, e) == InTree(s, e)
  {
    hide Indexed, Queued, AllClean, Served;
    var fd := s.entries[e].fd;
    CloseOne(s, e, e, {fd} + Of(of), fd);
    assert {fd} + Of(of) - {fd} == Of(of);
    NewFits(s.(open := s.open - {fd}), e, of);
  }

  lemma InHandIsOpen(s: State, qhole: int, e: Id, extra: set<int>)
    requires InHand(s, qhole, e, extra)
    ensures e in s.entries
    ensures s.entries[e].fd != NO_FILE ==> s.entries[e].fd in s.open
  {
  }

  // A directory that is taken for the cached file: nothing was opened, and the answer has its descriptor.
  lemma AliasAnswer(s: State, f: Entry, testDir: bool, fs: Files, ok: bool, of: Info)
    requires Regular(f) && Alias(f, fs) && (ok, of) == Answer(Info(f.fd, f.uniq, 0, false), testDir, fs)
    ensures ok && Stale(of) && of.fd == f.fd && f.err == 0 && !f.isDir && !Flipped(f, fs)
    ensures s.open + {} == s.open && Loose(of) == {}
  {
  }

  // What an answer about a known entry can look like.
  lemma AnswerShape(f: Entry, testDir: bool, fs: Files, ok: bool, of: Info, open: set<int>)
    requires Regular(f) && Kernel(fs, open) && !Alias(f, fs)
    requires (ok, of) == Answer(Info(f.fd, f.uniq, 0, false), testDir, fs)
    requires f.fd != NO_FILE ==> f.fd in open
    ensures (of.err == 0 && !of.isDir && ok <==> of.fd != NO_FILE) && (ok ==> of.err == 0)
    ensures !ok ==> !of.isDir && of.fd == NO_FILE
    ensures of.fd != NO_FILE && of.fd != f.fd ==> ok && of.fd !in open
    ensures ok && !of.isDir && f.fd != NO_FILE && of.uniq == f.uniq && of.fd != f.fd <==> Flipped(f, fs)
  {
  }

  lemma Arrived(s: State, e: Id, fd: int)
    requires InTree(s, e) && InHand(s, e, e, {}) && fd !in s.open && fd != NO_FILE
    ensures InTree(s.(open := s.open + {fd}), e) && InHand(s.(open := s.open + {fd}), e, e, {fd})
  {
    hide Indexed, Queued, AllClean, Served;
    OpenOne(s, e, e, FdOf(s, e) + {}, fd);
    assert FdOf(s, e) + {} + {fd} == FdOf(s, e) + {fd};
    assert FdOf(s, e) <= s.open;
  }

  // An entry without a descriptor, or with the answer's own, can take the answer over.
  lemma CanUpdate(s: State, e: Id, of: Info)
    requires e in s.entries && InHand(s, e, e, if of.fd == s.entries[e].fd then {} else Of(of)) && Regular(s.entries[e])
    requires s.entries[e].fd == NO_FILE || of.fd == s.entries[e].fd
    requires of.err == 0 && !of.isDir <==> of.fd != NO_FILE
    ensures Inv(s, e, e, Of(of)) && Fits(s, e, of)
  {
    assert FdOf(s, e) + (if of.fd == s.entries[e].fd then {} else Of(of)) == Of(of);
    if s.entries[e].fd == NO_FILE {
      NoHandles(s, e);
    }
  }

  // The answer for an entry in hand: where its descriptor is, and what may be done with it.
  lemma Retested(s: State, w: State, e: Id, testDir: bool, fs: Files, ok: bool, of: Info)
    requires InTree(s, e) && InHand(s, e, e, {}) && Regular(s.entries[e]) && Kernel(fs, s.open)
    requires !Alias(s.entries[e], fs)
    requires (ok, of) == Answer(Info(s.entries[e].fd, s.entries[e].uniq, 0, false), testDir, fs)
    requires w == s.(open := s.open + if ok && of.fd != NO_FILE && of.fd != s.entries[e].fd then {of.fd} else {})
    ensures InTree(w, e) && (of.err == 0 && !of.isDir && ok <==> of.fd != NO_FILE) && (ok ==> of.err == 0)
    ensures !ok ==> w == s && !of.isDir && of.fd == NO_FILE
    ensures of.fd == NO_FILE || of.fd != s.entries[e].fd ==> InHand(w, e, e, Of(of))
    ensures s.entries[e].fd == NO_FILE || of.fd == s.entries[e].fd ==>
      (of.err == 0 && !of.isDir <==> of.fd != NO_FILE) ==> Inv(w, e, e, Of(of)) && Fits(w, e, of)
    ensures ok && !of.isDir && s.entries[e].fd != NO_FILE && of.uniq == s.entries[e].uniq && of.fd != s.entries[e].fd
         <==> Flipped(s.entries[e], fs)
  {
    InHandIsOpen(s, e, e, {});
    AnswerShape(s.entries[e], testDir, fs, ok, of, s.open);
    if of.fd != NO_FILE && of.fd != s.entries[e].fd {
      Arrived(s, e, of.fd);
    } else {
      assert s.open + {} == s.open;
    }
    hide Inv, InHand;
    if (s.entries[e].fd == NO_FILE || of.fd == s.entries[e].fd) && (of.err == 0 && !of.isDir <==> of.fd != NO_FILE) {
      CanUpdate(w, e, of);
    }
  }

  lemma LeakOld(s: State, e: Id, of: Info)
    requires InTree(s, e) && InHand(s, e, e, Of(of)) && s.entries[e].fd != NO_FILE && of.fd != NO_FILE && of.err == 0
    requires !of.isDir
    ensures var w := s.(leaked := s.leaked + {s.entries[e].fd});
      InTree(w, e) && Inv(w, e, e, Of(of)) && Fits(w, e, of)
  {
    hide Indexed, Queued, AllClean;
    var fd := s.entries[e].fd;
    Leak(s, e, e, {fd} + Of(of), fd);
    assert {fd} + Of(of) - {fd} == Of(of);
  }

  /** The descriptor an open loses track of, if any. */
  ghost function Lost(s: State, name: Name, req: Request, now: int, fs: Files): set<int> {
    if name in s.tree && s.tree[name] in s.entries then
      var f := s.entries[s.tree[name]];
      if !Trusted(f, req, now) && Flipped(f, fs) then {f.fd} else {}
    else {}
  }

  lemma ByName(s: State, name: Name)
    requires Whole(s) && name in s.tree
    ensures InTree(s, s.tree[name]) && s.entries[s.tree[name]].name == name
  {
  }

  // The found entry is taken out of the queue and in hand.
  lemma Known(s: State, e: Id, f: Entry)
    requires Whole(s) && InTree(s, e) && f == s.entries[e].(uses := f.uses)
    ensures var w := s.(entries := s.entries[e := f], queue := Removed(s.queue, e));
      InHand(w, e, e, {}) && InTree(w, e) && Regular(f) && (f.err == 0 ==> !f.close)
  {
    hide Indexed, Queued, AllClean, Owned, Served;
    IsRegular(s, -1, e, {});
    OutOfQueue(s, -1, {}, e);
    var v := s.(queue := Removed(s.queue, e));
    Lift(v, e, e, {});
    Touch(v, e, e, f, {});
  }

  lemma NewAnswer(req: Request, fs: Files, ok: bool, of: Info, open: set<int>)
    requires Kernel(fs, open) && (ok, of) == Answer(Info(NO_FILE, req.uniq, 0, false), req.testDir, fs)
    ensures (of.err == 0 && !of.isDir && ok <==> of.fd != NO_FILE) && (ok ==> of.err == 0)
    ensures !ok ==> !of.isDir && of.fd == NO_FILE
    ensures of.fd != NO_FILE ==> ok && of.fd !in open
  {
  }

  lemma Found(s: State, w: State, req: Request, fs: Files, ok: bool, of: Info)
    requires Whole(s) && Kernel(fs, s.open) && (ok, of) == Answer(Info(NO_FILE, req.uniq, 0, false), req.testDir, fs)
    requires w == s.(open := s.open + if ok && of.fd != NO_FILE then {of.fd} else {})
    ensures Inv(w, -1, -1, Of(of)) && (!ok ==> Whole(w))
    ensures (of.err == 0 && !of.isDir && ok <==> of.fd != NO_FILE) && (ok ==> of.err == 0)
  {
    hide Indexed, Queued, AllClean, Owned, Served;
    NewAnswer(req, fs, ok, of, s.open);
    if of.fd != NO_FILE {
      OpenOne(s, -1, -1, {}, of.fd);
      assert {} + {of.fd} == Of(of);
    } else {
      assert s.open + {} == s.open;
    }
  }

  lemma Renewed(s: State, w: State, e: Id, req: Request, fs: Files, ok: bool, of: Info)
    requires InTree(s, e) && InHand(s, e, e, {}) && Regular(s.entries[e]) && s.entries[e].fd == NO_FILE
    requires Kernel(fs, s.open) && (ok, of) == Answer(Info(NO_FILE, req.uniq, 0, false), req.testDir, fs)
    requires w == s.(open := s.open + if ok && of.fd != NO_FILE then {of.fd} else {})
    ensures InTree(w, e) && (!ok ==> w == s) && (of.err == 0 && !of.isDir && ok <==> of.fd != NO_FILE)
    ensures (of.err == 0 && !of.isDir <==> of.fd != NO_FILE) ==> Inv(w, e, e, Of(of)) && Fits(w, e, of)
  {
    hide Indexed, Queued, AllClean, Owned, Served;
    NewAnswer(req, fs, ok, of, s.open);
    if of.fd != NO_FILE {
      Arrived(s, e, of.fd);
    } else {
      assert s.open + {} == s.open;
    }
    hide Inv, InHand;
    if of.err == 0 && !of.isDir <==> of.fd != NO_FILE {
      CanUpdate(w, e, of);
    }
  }

  /** With all handles given back, every open descriptor is held by an entry of the tree, unless it was
      lost to a flip. */
  lemma NothingElseIsOpen(s: State)
    requires Whole(s) && s.handles == map[]
    ensures forall e :: e in s.entries ==> InTree(s, e)
    ensures s.open == Held(s, -1) + s.leaked
  {
    forall e | e in s.entries
      ensures InTree(s, e)
    {
      assert HandlesOf(s, e) == {};
      assert Clean(s, e);
    }
  }

  /** A lost descriptor is open, and no entry knows it: it can never be closed. */
  lemma LostForGood(s: State, fd: int)
    requires Whole(s) && fd in s.leaked
    ensures fd in s.open && forall e :: e in s.entries ==> s.entries[e].fd != fd
  {
    forall e | e in s.entries
      ensures s.entries[e].fd != fd
    {
      if s.entries[e].fd != NO_FILE {
        assert s.entries[e].fd in Held(s, -1);
      }
    }
  }

  /** For example: a cached file 7 on descriptor 3; the name leads to file 8 when it is looked at and to
      file 7 again when it is opened, on descriptor 5. Descriptor 3 is lost. */
  lemma FlipExample()
    ensures var f := Entry("a", 0, 0, 3, 7, 0, 1, 0, false, false, 0, 0);
      var s := State(map[1 := f], map["a" := 1], [1], 1, {3}, map[], {});
      var fs := Files(Stat(8, false), Opened(5, 7, false));
      Whole(s) && Kernel(fs, s.open) && Lost(s, "a", Request(0, 60, 1, false, false, 0, 0), 100, fs) == {3}
  {
    var f := Entry("a", 0, 0, 3, 7, 0, 1, 0, false, false, 0, 0);
    var s := State(map[1 := f], map["a" := 1], [1], 1, {3}, map[], {});
    assert HandlesOf(s, 1) == {};
    assert s.entries[1].fd in Held(s, -1);
    assert Held(s, -1) == {3};
  }

  /** For example: the same cached file; the name leads to a directory with number 7 now. Nothing forbids it,
      and the cached answer is too old to be trusted. */
  lemma AliasExample()
    ensures var f := Entry("a", 0, 0, 3, 7, 0, 1, 0, false, false, 0, 0);
      var s := State(map[1 := f], map["a" := 1], [1], 1, {3}, map[], {});
      var fs := Files(Stat(7, true), NoOpen(2));
      Whole(s) && Kernel(fs, s.open) && ConfusedAt(s, "a", Request(0, 60, 1, false, false, 0, 0), 100, fs)
  {
    var f := Entry("a", 0, 0, 3, 7, 0, 1, 0, false, false, 0, 0);
    var s := State(map[1 := f], map["a" := 1], [1], 1, {3}, map[], {});
    assert HandlesOf(s, 1) == {};
    assert s.entries[1].fd in Held(s, -1);
    assert Held(s, -1) == {3};
  }
}
