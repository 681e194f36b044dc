/** The process mutex kept in shared memory (atomic operations plus a POSIX semaphore).

    The mutex is run by many processes at once, so it is modelled as a state machine: `Step`
    lists the atomic actions of the source one by one (a load and the compare-and-set that
    follows it are two actions), and a run interleaves the actions of any number of processes.
  */
module Shmtx {

  type Pid = p: nat | p != 0 witness 1

  // Which of the three places a "*lock == 0 && cmp_set(lock, 0, pid)" attempt belongs to.
  datatype Attempt = TryLock | LockLoop | Recheck

  datatype Pc =
    | Idle
    | LoadLock(attempt: Attempt)
    | CasLock(attempt: Attempt)
    | AddWait
    | SemWait
    | SubWait
    | Critical
    | Unlock
    | ForceUnlock(victim: Pid)
    | LoadWait
    | CasWait(seen: int)
    | SemPost
    | Dead(wasRegistered: bool)

  /** `wait` is the signed reading of the shared word; `WaitStaysInRange` shows it never wraps. */
  datatype State = State(lock: nat, wait: int, sem: nat, pc: map<Pid, Pc>)

  ghost predicate Init(s: State) {
    && s.lock == 0 && s.wait == 0 && s.sem == 0
    && forall p :: p in s.pc ==> s.pc[p] == Idle
  }

  function Goto(s: State, p: Pid, q: Pc): State {
    s.(pc := s.pc[p := q])
  }

  /** One atomic action of process `p`. */
  ghost predicate Step(s: State, s': State, p: Pid) {
    p in s.pc &&
    match s.pc[p]
    case Idle =>
      || s' == Goto(s, p, LoadLock(TryLock))
      || s' == Goto(s, p, LoadLock(LockLoop))
      || s' == Goto(s, p, Unlock)
      || exists v: Pid :: v in s.pc && s.pc[v].Dead? && s' == Goto(s, p, ForceUnlock(v))
    case LoadLock(a) =>
      if s.lock == 0 then s' == Goto(s, p, CasLock(a)) else Fails(s, s', p, a)
    case CasLock(a) =>
      if s.lock == 0
      then s' == Goto(s, p, if a == Recheck then SubWait else Critical).(lock := p)
      else Fails(s, s', p, a)
    case AddWait => s' == Goto(s, p, LoadLock(Recheck)).(wait := s.wait + 1)
    case SemWait => s.sem > 0 && s' == Goto(s, p, LoadLock(LockLoop)).(sem := s.sem - 1)
    case SubWait => s' == Goto(s, p, Critical).(wait := s.wait - 1) || s' == Goto(s, p, Dead(true))
    case Critical => s' == Goto(s, p, Unlock) || s' == Goto(s, p, Dead(false))
    case Unlock =>
      if s.lock == p then s' == Goto(s, p, LoadWait).(lock := 0) else s' == Goto(s, p, Idle)
    case ForceUnlock(v) =>
      if s.lock == v then s' == Goto(s, p, LoadWait).(lock := 0) else s' == Goto(s, p, Idle)
    case LoadWait => s' == Goto(s, p, if s.wait <= 0 then Idle else CasWait(s.wait))
    case CasWait(w) =>
      if s.wait == w then s' == Goto(s, p, SemPost).(wait := w - 1) else s' == Goto(s, p, LoadWait)
    case SemPost => s' == Goto(s, p, Idle).(sem := s.sem + 1)
    case Dead(_) => false
  }

  /** What a failed attempt does next: trylock gives up, the lock loop spins again or registers,
      the recheck goes to sleep. */
  ghost predicate Fails(s: State, s': State, p: Pid, a: Attempt) {
    match a
    case TryLock => s' == Goto(s, p, Idle)
    case LockLoop => s' == Goto(s, p, LoadLock(LockLoop)) || s' == Goto(s, p, AddWait)
    case Recheck => s' == Goto(s, p, SemWait)
  }

  ghost predicate Next(s: State, s': State) {
    exists p :: Step(s, s', p)
  }

  ghost predicate IsRun(run: seq<State>) {
    && |run| > 0
    && Init(run[0])
    && forall i {:trigger run[i]} :: 0 < i < |run| ==> Next(run[i - 1], run[i])
  }

  // ----- what the states mean -----

  predicate Inside(q: Pc) {
    q == Critical || q == SubWait
  }

  // Between its own fetch_add(wait, 1) and the sem_wait or fetch_add(wait, -1) that answers it.
  predicate IsRegistered(q: Pc) {
    q == LoadLock(Recheck) || q == CasLock(Recheck) || q == SubWait || q == SemWait || q == Dead(true)
  }

  // A process that will still look at the lock, or that still owes a wake-up.
  predicate IsActive(q: Pc) {
    q.LoadLock? || q.CasLock? || q.AddWait? || q.LoadWait? || q.CasWait? || q.SemPost?
  }

  ghost function Registered(pc: map<Pid, Pc>): set<Pid> {
    set p | p in pc && IsRegistered(pc[p])
  }

  ghost function Posting(pc: map<Pid, Pc>): set<Pid> {
    set p | p in pc && pc[p].SemPost?
  }

  ghost predicate SomeoneSleeps(s: State) {
    exists p :: p in s.pc && s.pc[p] == SemWait
  }

  ghost predicate SomeoneActive(s: State) {
    exists p :: p in s.pc && IsActive(s.pc[p])
  }

  // ----- the three promises, and the invariant that carries them -----

  ghost predicate MutualExclusion(s: State) {
    forall p, q :: p in s.pc && q in s.pc && Inside(s.pc[p]) && Inside(s.pc[q]) ==> p == q
  }

  ghost predicate Conservation(s: State) {
    s.wait + s.sem + |Posting(s.pc)| == |Registered(s.pc)|
  }

  ghost predicate NoLostWakeup(s: State) {
    s.lock == 0 && s.sem == 0 && SomeoneSleeps(s) ==> SomeoneActive(s)
  }

  ghost predicate LockWordIsOwner(s: State) {
    && (s.lock != 0 ==> s.lock in s.pc)
    && (forall p :: p in s.pc && Inside(s.pc[p]) ==> s.lock == p)
    && (forall p :: p in s.pc && s.lock == p ==> Inside(s.pc[p]) || s.pc[p] == Unlock || s.pc[p].Dead?)
  }

  // The supervisor only breaks the lock of a process that has died.
  ghost predicate ForcesOnlyTheDead(s: State) {
    forall p :: p in s.pc && s.pc[p].ForceUnlock? ==>
      s.pc[p].victim in s.pc && s.pc[s.pc[p].victim].Dead?
  }

  ghost predicate CasSeesPositive(s: State) {
    forall p :: p in s.pc && s.pc[p].CasWait? ==> s.pc[p].seen > 0
  }

  ghost predicate InRange(s: State) {
    && |Registered(s.pc)| <= |s.pc|
    && |Registered(s.pc)| - |s.pc| <= s.wait <= |Registered(s.pc)|
  }

  ghost predicate Inv(s: State) {
    && LockWordIsOwner(s) && ForcesOnlyTheDead(s) && CasSeesPositive(s)
    && Conservation(s) && InRange(s) && NoLostWakeup(s)
  }

  // ----- proofs -----

  function One(b: bool): nat {
    if b then 1 else 0
  }

  lemma SetMove(a: set<Pid>, b: set<Pid>, p: Pid)
    requires a - {p} == b - {p}
    ensures |b| == |a| - One(p in a) + One(p in b)
  {
    assert a == (a - {p}) + if p in a then {p} else {};
    assert b == (b - {p}) + if p in b then {p} else {};
  }

  /** Moving one process changes each count by that process alone. */
  lemma MoveCounts(pc: map<Pid, Pc>, p: Pid, q: Pc)
    requires p in pc
    ensures |Registered(pc[p := q])| == |Registered(pc)| - One(IsRegistered(pc[p])) + One(IsRegistered(q))
    ensures |Posting(pc[p := q])| == |Posting(pc)| - One(pc[p].SemPost?) + One(q.SemPost?)
  {
    SetMove(Registered(pc), Registered(pc[p := q]), p);
    SetMove(Posting(pc), Posting(pc[p := q]), p);
  }

  lemma InitInv(s: State)
    requires Init(s)
    ensures Inv(s)
  {
    assert Registered(s.pc) == {};
    assert Posting(s.pc) == {};
  }

  lemma StepKeepsKeys(s: State, s': State, p: Pid)
    requires Step(s, s', p)
    ensures p in s'.pc && s'.pc == s.pc[p := s'.pc[p]] && s'.pc.Keys == s.pc.Keys && |s'.pc| == |s.pc|
  {
    assert s.pc.Keys + {p} == s.pc.Keys;
    assert |s'.pc.Keys| == |s'.pc| && |s.pc.Keys| == |s.pc|;
  }

  lemma StepDead(s: State, s': State, p: Pid)
    requires ForcesOnlyTheDead(s) && CasSeesPositive(s) && Step(s, s', p)
    ensures ForcesOnlyTheDead(s') && CasSeesPositive(s')
  {
    StepKeepsKeys(s, s', p);
  }

  lemma StepLock(s: State, s': State, p: Pid)
    requires LockWordIsOwner(s) && ForcesOnlyTheDead(s) && Step(s, s', p)
    ensures LockWordIsOwner(s')
  {
    StepKeepsKeys(s, s', p);
    var q, q' := s.pc[p], s'.pc[p];
    assert s'.lock == s.lock || (s.lock == 0 && s'.lock == p && Inside(q')) || (s.lock != 0 && s'.lock == 0);
    forall z | z in s'.pc && Inside(s'.pc[z])
      ensures s'.lock == z
    {
      if z != p {
        assert s.pc[z] == s'.pc[z] && s.lock == z;
      }
    }
    forall z | z in s'.pc && s'.lock == z
      ensures Inside(s'.pc[z]) || s'.pc[z] == Unlock || s'.pc[z].Dead?
    {
      if z != p {
        assert s.pc[z] == s'.pc[z] && s.lock == z;
      }
    }
  }

  lemma StepConservation(s: State, s': State, p: Pid)
    requires Conservation(s) && Step(s, s', p)
    ensures Conservation(s')
  {
    StepKeepsKeys(s, s', p);
    MoveCounts(s.pc, p, s'.pc[p]);
  }

  lemma StepInRange(s: State, s': State, p: Pid)
    requires Conservation(s) && InRange(s) && CasSeesPositive(s) && Step(s, s', p)
    ensures InRange(s')
  {
    StepKeepsKeys(s, s', p);
    MoveCounts(s.pc, p, s'.pc[p]);
    StepConservation(s, s', p);
    SubsetSize(s'.pc);
    SubsetSize(s.pc);
  }

  lemma SubsetSize(pc: map<Pid, Pc>)
    ensures |Registered(pc)| <= |pc|
  {
    Subset(Registered(pc), pc.Keys);
    assert |pc.Keys| == |pc|;
  }

  lemma Subset(a: set<Pid>, b: set<Pid>)
    requires a <= b
    ensures |a| <= |b|
  {
    assert b == a + (b - a);
  }

  lemma StepNoLostWakeup(s: State, s': State, p: Pid)
    requires Conservation(s) && NoLostWakeup(s) && Step(s, s', p)
    ensures NoLostWakeup(s')
  {
    StepKeepsKeys(s, s', p);
    StepConservation(s, s', p);
    if s'.lock == 0 && s'.sem == 0 && SomeoneSleeps(s') && !IsActive(s'.pc[p]) {
      var z :| z in s'.pc && s'.pc[z] == SemWait;
      assert z != p ==> s.pc[z] == SemWait;
      if s.pc[p].LoadWait? {
        // wakeup saw wait <= 0, so every registration is already matched by a post under way
        assert z in Registered(s'.pc);
        assert Posting(s'.pc) != {};
        var y :| y in Posting(s'.pc);
        assert IsActive(s'.pc[y]);
      } else {
        assert SomeoneSleeps(s);
        var y :| y in s.pc && IsActive(s.pc[y]);
        assert y != p;
        assert IsActive(s'.pc[y]);
      }
    }
  }

  /** Every atomic action of every process keeps the invariant. */
  lemma StepKeepsInv(s: State, s': State, p: Pid)
    requires Inv(s) && Step(s, s', p)
    ensures Inv(s')
  {
    StepLock(s, s', p);
    StepDead(s, s', p);
    StepConservation(s, s', p);
    StepInRange(s, s', p);
    StepNoLostWakeup(s, s', p);
  }

  /** The invariant holds in every state of every run. */
  lemma {:induction false} RunInv(run: seq<State>, i: nat)
    requires IsRun(run) && i < |run|
    ensures Inv(run[i]) && run[i].pc.Keys == run[0].pc.Keys
  {
    if i == 0 {
      InitInv(run[0]);
    } else {
      RunInv(run, i - 1);
      var p :| Step(run[i - 1], run[i], p);
      StepKeepsInv(run[i - 1], run[i], p);
      StepKeepsKeys(run[i - 1], run[i], p);
    }
  }

  /** At most one live process is inside, over every interleaving. */
  lemma AtMostOneInside(run: seq<State>, i: nat)
    requires IsRun(run) && i < |run|
    ensures MutualExclusion(run[i])
    ensures forall p :: p in run[i].pc && Inside(run[i].pc[p]) ==> run[i].lock == p
  {
    RunInv(run, i);
  }

  /** wait + semaphore + posts under way = registered waiters, and no wake-up is ever lost. */
  lemma WakeupsAreConserved(run: seq<State>, i: nat)
    requires IsRun(run) && i < |run|
    ensures Conservation(run[i]) && NoLostWakeup(run[i])
  {
    RunInv(run, i);
  }

  /** With n processes both shared counters stay within n of zero: the signed reading of `wait`
      in wakeup is sound and the semaphore cannot overflow. */
  lemma WaitStaysInRange(run: seq<State>, i: nat)
    requires IsRun(run) && i < |run|
    ensures var n := |run[0].pc|; -n <= run[i].wait <= n && run[i].sem <= n
  {
    RunInv(run, i);
    assert |run[i].pc.Keys| == |run[i].pc| && |run[0].pc.Keys| == |run[0].pc|;
  }

  // ----- a sleeper can always get in -----

  ghost predicate IsPath(t: seq<State>) {
    |t| > 0 && forall i {:trigger t[i]} :: 0 < i < |t| ==> Next(t[i - 1], t[i])
  }

  function Last(t: seq<State>): State
    requires |t| > 0
  {
    t[|t| - 1]
  }

  // A path so far, ending in a good state where `z` still sleeps.
  ghost predicate Waiting(t: seq<State>, z: Pid) {
    IsPath(t) && Inv(Last(t)) && z in Last(t).pc && Last(t).pc[z] == SemWait
  }

  lemma Extend(t: seq<State>, p: Pid, s': State)
    requires IsPath(t) && Inv(Last(t)) && Step(Last(t), s', p)
    ensures IsPath(t + [s']) && Inv(s') && Last(t + [s']) == s'
  {
    StepKeepsInv(Last(t), s', p);
    assert Next(Last(t), s');
  }

  /** `o` is inside: it leaves and is about to wake somebody. */
  lemma Leave(t: seq<State>, o: Pid, z: Pid) returns (u: seq<State>)
    requires Waiting(t, z) && o in Last(t).pc && Last(t).lock == o && (Inside(Last(t).pc[o]) || Last(t).pc[o] == Unlock)
    ensures Waiting(u, z) && u[0] == t[0]
    ensures Last(u).lock == 0 && o in Last(u).pc && Last(u).pc[o] == LoadWait
  {
    hide Inv;
    u := t;
    if Last(u).pc[o] == SubWait {
      var s := Goto(Last(u), o, Critical).(wait := Last(u).wait - 1);
      Extend(u, o, s);
      u := u + [s];
    }
    if Last(u).pc[o] == Critical {
      var s := Goto(Last(u), o, Unlock);
      Extend(u, o, s);
      u := u + [s];
    }
    var s := Goto(Last(u), o, LoadWait).(lock := 0);
    Extend(u, o, s);
    u := u + [s];
  }

  /** The owner died: an idle process breaks the lock and is about to wake somebody. */
  lemma Break(t: seq<State>, i: Pid, z: Pid) returns (u: seq<State>)
    requires Waiting(t, z) && Last(t).lock != 0 && Last(t).lock in Last(t).pc && Last(t).pc[Last(t).lock].Dead?
    requires i in Last(t).pc && Last(t).pc[i] == Idle
    ensures Waiting(u, z) && u[0] == t[0]
    ensures Last(u).lock == 0 && i in Last(u).pc && Last(u).pc[i] == LoadWait
  {
    hide Inv;
    var s := Goto(Last(t), i, ForceUnlock(Last(t).lock));
    Extend(t, i, s);
    u := t + [s];
    s := Goto(s, i, LoadWait).(lock := 0);
    Extend(u, i, s);
    u := u + [s];
  }

  /** `r` is on its way to the free lock: it takes it. */
  lemma Acquire(t: seq<State>, r: Pid, z: Pid) returns (u: seq<State>)
    requires Waiting(t, z) && Last(t).lock == 0 && r in Last(t).pc
    requires Last(t).pc[r].LoadLock? || Last(t).pc[r].CasLock? || Last(t).pc[r].AddWait?
    ensures Waiting(u, z) && u[0] == t[0]
    ensures Last(u).lock == r && r in Last(u).pc && Inside(Last(u).pc[r])
  {
    hide Inv;
    u := t;
    if Last(u).pc[r].AddWait? {
      var s := Goto(Last(u), r, LoadLock(Recheck)).(wait := Last(u).wait + 1);
      Extend(u, r, s);
      u := u + [s];
    }
    if Last(u).pc[r].LoadLock? {
      var s := Goto(Last(u), r, CasLock(Last(u).pc[r].attempt));
      Extend(u, r, s);
      u := u + [s];
    }
    var q := if Last(u).pc[r].attempt == Recheck then SubWait else Critical;
    var s := Goto(Last(u), r, q).(lock := r);
    Extend(u, r, s);
    u := u + [s];
  }

  /** `y` is about to post: it posts. */
  lemma Post(t: seq<State>, y: Pid, z: Pid) returns (u: seq<State>)
    requires Waiting(t, z) && Last(t).lock == 0 && y in Last(t).pc && Last(t).pc[y] == SemPost
    ensures Waiting(u, z) && u[0] == t[0] && Last(u).lock == 0 && Last(u).sem > 0
  {
    hide Inv;
    var s := Goto(Last(t), y, Idle).(sem := Last(t).sem + 1);
    Extend(t, y, s);
    u := t + [s];
  }

  /** `r` is inside wakeup while `z` sleeps: some post reaches the semaphore. */
  lemma WakeUp(t: seq<State>, r: Pid, z: Pid) returns (u: seq<State>)
    requires Waiting(t, z) && Last(t).lock == 0 && Last(t).sem == 0 && r in Last(t).pc
    requires Last(t).pc[r].LoadWait? || Last(t).pc[r].CasWait? || Last(t).pc[r].SemPost?
    ensures Waiting(u, z) && u[0] == t[0] && Last(u).lock == 0 && Last(u).sem > 0
  {
    if Last(t).wait <= 0 {
      var y := SomePoster(Last(t), z);
      u := Post(t, y, z);
    } else {
      u := Claim(t, r, z);
      u := Post(u, r, z);
    }
  }

  lemma SomePoster(s: State, z: Pid) returns (y: Pid)
    requires Inv(s) && s.wait <= 0 && s.sem == 0 && z in s.pc && s.pc[z] == SemWait
    ensures y in s.pc && s.pc[y] == SemPost
  {
    assert z in Registered(s.pc);
    assert Posting(s.pc) != {};
    y :| y in Posting(s.pc);
  }

  /** `r` is inside wakeup and a waiter is registered: it takes one registration. */
  lemma Claim(t: seq<State>, r: Pid, z: Pid) returns (u: seq<State>)
    requires Waiting(t, z) && Last(t).lock == 0 && Last(t).wait > 0 && r in Last(t).pc
    requires Last(t).pc[r].LoadWait? || Last(t).pc[r].CasWait? || Last(t).pc[r].SemPost?
    ensures Waiting(u, z) && u[0] == t[0] && Last(u).lock == 0 && r in Last(u).pc && Last(u).pc[r] == SemPost
  {
    hide Inv;
    u := t;
    if Last(u).pc[r].CasWait? && Last(u).pc[r].seen != Last(u).wait {
      var s := Goto(Last(u), r, LoadWait);
      Extend(u, r, s);
      u := u + [s];
    }
    if Last(u).pc[r].LoadWait? {
      var s := Goto(Last(u), r, CasWait(Last(u).wait));
      Extend(u, r, s);
      u := u + [s];
    }
    if Last(u).pc[r].CasWait? {
      var s := Goto(Last(u), r, SemPost).(wait := Last(u).wait - 1);
      Extend(u, r, s);
      u := u + [s];
    }
  }

  /** The lock is free and the semaphore is up: the sleeper goes in. */
  lemma Enter(t: seq<State>, z: Pid) returns (u: seq<State>)
    requires Waiting(t, z) && Last(t).lock == 0 && Last(t).sem > 0
    ensures IsPath(u) && u[0] == t[0] && Last(u).lock == z && z in Last(u).pc && Last(u).pc[z] == Critical
  {
    hide Inv;
    var s := Goto(Last(t), z, LoadLock(LockLoop)).(sem := Last(t).sem - 1);
    Extend(t, z, s);
    u := t + [s];
    s := Goto(s, z, CasLock(LockLoop));
    Extend(u, z, s);
    u := u + [s];
    s := Goto(s, z, Critical).(lock := z);
    Extend(u, z, s);
    u := u + [s];
  }

  /** The lock gets free, with somebody owing a wake-up if it was not free before. */
  lemma Free(s: State, z: Pid) returns (u: seq<State>)
    requires Inv(s) && z in s.pc && s.pc[z] == SemWait
    requires s.lock in s.pc && s.pc[s.lock].Dead? ==> exists i :: i in s.pc && s.pc[i] == Idle
    ensures Waiting(u, z) && u[0] == s && Last(u).lock == 0
  {
    u := [s];
    if s.lock != 0 {
      if s.pc[s.lock].Dead? {
        var i :| i in s.pc && s.pc[i] == Idle;
        u := Break(u, i, z);
      } else {
        u := Leave(u, s.lock, z);
      }
    }
  }

  /** Some active process raises the semaphore. */
  lemma Raise(t: seq<State>, r: Pid, z: Pid) returns (u: seq<State>)
    requires Waiting(t, z) && Last(t).lock == 0 && Last(t).sem == 0
    requires r in Last(t).pc && IsActive(Last(t).pc[r])
    ensures Waiting(u, z) && u[0] == t[0] && Last(u).lock == 0 && Last(u).sem > 0
  {
    hide Inv;
    u := t;
    if Last(u).pc[r].LoadLock? || Last(u).pc[r].CasLock? || Last(u).pc[r].AddWait? {
      u := Acquire(u, r, z);
      u := Leave(u, r, z);
    }
    if Last(u).sem == 0 {
      u := WakeUp(u, r, z);
    }
  }

  /** From every reachable state in which `z` sleeps, unless the owner is dead and nobody is idle
      to break the lock, some continuation lets `z` in: the protocol can never wedge a sleeper. */
  lemma SleeperCanEnter(run: seq<State>, z: Pid) returns (u: seq<State>)
    requires IsRun(run) && z in Last(run).pc && Last(run).pc[z] == SemWait
    requires Last(run).lock in Last(run).pc && Last(run).pc[Last(run).lock].Dead? ==>
               exists i :: i in Last(run).pc && Last(run).pc[i] == Idle
    ensures IsPath(u) && u[0] == Last(run) && z in Last(u).pc && Last(u).pc[z] == Critical && Last(u).lock == z
  {
    RunInv(run, |run| - 1);
    u := Free(Last(run), z);
    if Last(u).sem == 0 {
      assert NoLostWakeup(Last(u));
      var r :| r in Last(u).pc && IsActive(Last(u).pc[r]);
      u := Raise(u, r, z);
    }
    u := Enter(u, z);
  }
}
