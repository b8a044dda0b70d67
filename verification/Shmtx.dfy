/** The inter-process mutex of ngx_shmtx.c, in its atomic and semaphore versions, as a step
    system: any number of processes, one step per access to shared memory or the semaphore.

    A test of the lock word and the compare-and-set that follows it are two steps.  How long a
    process spins is left open: after a failed attempt it may try again or go on. */
module Shmtx {

  /** ngx_pid: nonzero, because zero in the lock word means free. */
  type Pid = p: nat | 0 < p witness 1

  /** Where a process stands in ngx_shmtx_lock, ngx_shmtx_trylock, ngx_shmtx_unlock and
      ngx_shmtx_wakeup. */
  datatype PC =
    | Idle
    | TestLock         // lock: *mtx->lock == 0 ?
    | TakeLock         // lock: compare-and-set 0 -> pid
    | AddWaiter        // lock: fetch-and-add 1 to wait
    | RetestLock       // lock, counted as a waiter: *mtx->lock == 0 ?
    | RetakeLock       // lock, counted as a waiter: compare-and-set 0 -> pid
    | DropWaiter       // lock, already the owner: fetch-and-add -1 to wait
    | SemWait          // lock, counted as a waiter: sem_wait
    | TryTest          // trylock: *mtx->lock == 0 ?
    | TryTake          // trylock: compare-and-set 0 -> pid
    | Holding          // between lock or trylock and unlock
    | Release          // unlock: compare-and-set pid -> 0
    | ReadWait         // wakeup: wait = *mtx->wait
    | ClaimWaiter(seen: int)  // wakeup: compare-and-set seen -> seen - 1
    | SemPost          // wakeup: sem_post

  /** `wait` is the counter read as a signed number, as ngx_shmtx_wakeup reads it. */
  datatype State = State(lock: nat, wait: int, sem: nat, semaphore: bool, pcs: map<Pid, PC>)

  predicate Init(s: State) {
    s.lock == 0 && s.wait == 0 && s.sem == 0 && forall p :: p in s.pcs ==> s.pcs[p] == Idle
  }

  function Goto(s: State, p: Pid, pc: PC): State {
    s.(pcs := s.pcs[p := pc])
  }

  /** After a failed attempt: spin, register as a waiter, or yield without a semaphore. */
  predicate Failed(s: State, p: Pid, s': State) {
    s' == Goto(s, p, TestLock) || (s.semaphore && s' == Goto(s, p, AddWaiter))
  }

  /** Process `p` makes its next step. */
  predicate Step(s: State, p: Pid, s': State) {
    p in s.pcs &&
    match s.pcs[p]
    case Idle =>
      || s' == Goto(s, p, TestLock)
      || s' == Goto(s, p, TryTest)
      || s' == Goto(s, p, Release)
    case TestLock => if s.lock == 0 then s' == Goto(s, p, TakeLock) else Failed(s, p, s')
    case TakeLock => if s.lock == 0 then s' == Goto(s, p, Holding).(lock := p) else Failed(s, p, s')
    case AddWaiter => s' == Goto(s, p, RetestLock).(wait := s.wait + 1)
    case RetestLock => s' == Goto(s, p, if s.lock == 0 then RetakeLock else SemWait)
    case RetakeLock =>
      s' == if s.lock == 0 then Goto(s, p, DropWaiter).(lock := p) else Goto(s, p, SemWait)
    case DropWaiter => s' == Goto(s, p, Holding).(wait := s.wait - 1)
    case SemWait => s.sem > 0 && s' == Goto(s, p, TestLock).(sem := s.sem - 1)
    case TryTest => s' == Goto(s, p, if s.lock == 0 then TryTake else Idle)
    case TryTake => s' == if s.lock == 0 then Goto(s, p, Holding).(lock := p) else Goto(s, p, Idle)
    case Holding => s' == Goto(s, p, Release)
    case Release =>
      s' == if s.lock == p then Goto(s, p, if s.semaphore then ReadWait else Idle).(lock := 0) else Goto(s, p, Idle)
    case ReadWait => s' == Goto(s, p, if s.wait <= 0 then Idle else ClaimWaiter(s.wait))
    case ClaimWaiter(seen) =>
      s' == if s.wait == seen then Goto(s, p, SemPost).(wait := seen - 1) else Goto(s, p, ReadWait)
    case SemPost => s' == Goto(s, p, Idle).(sem := s.sem + 1)
  }

  ghost predicate Next(s: State, s': State) {
    exists p :: Step(s, p, s')
  }

  /** A run: an initial state and any interleaving of steps. */
  ghost predicate Run(r: seq<State>) {
    |r| > 0 && Init(r[0]) && forall i :: 0 <= i < |r| - 1 ==> Next(r[i], r[i + 1])
  }

  // ---------------------------------------------------------------- what is counted

  /** Counted in `wait` and neither served by a wakeup nor withdrawn. */
  predicate Registered(pc: PC) { pc.RetestLock? || pc.RetakeLock? || pc.DropWaiter? || pc.SemWait? }

  /** Has taken one off `wait` and still owes the semaphore a post. */
  predicate Owing(pc: PC) { pc.SemPost? }

  /** The lock word names this process. */
  predicate Owner(pc: PC) { pc.Holding? || pc.DropWaiter? }

  predicate Blocked(s: State, p: Pid) { p in s.pcs && s.pcs[p].SemWait? && s.sem == 0 }

  /** Able to step, and bound either to look at the lock word or to look for a sleeper. */
  predicate Active(s: State, p: Pid) {
    p in s.pcs &&
    match s.pcs[p]
    case Idle => false
    case Holding => false
    case DropWaiter => false
    case Release => false
    case SemWait => s.sem > 0
    case _ => true
  }

  /** Only reached when the mutex has a semaphore. */
  predicate UsesSemaphore(pc: PC) {
    Registered(pc) || Owing(pc) || pc.AddWaiter? || pc.ReadWait? || pc.ClaimWaiter?
  }

  ghost function Waiters(pcs: map<Pid, PC>): set<Pid> { set p | p in pcs && Registered(pcs[p]) }
  ghost function Posters(pcs: map<Pid, PC>): set<Pid> { set p | p in pcs && Owing(pcs[p]) }

  // ---------------------------------------------------------------- invariants

  /** The lock word names exactly the process between a successful compare-and-set and its release. */
  ghost predicate LockNamesOwner(s: State) {
    && (forall p :: p in s.pcs && Owner(s.pcs[p]) ==> s.lock == p)
    && (s.lock != 0 ==> s.lock in s.pcs && (Owner(s.pcs[s.lock]) || s.pcs[s.lock].Release?))
  }

  ghost predicate Accounted(s: State) {
    s.wait + s.sem + |Posters(s.pcs)| == |Waiters(s.pcs)|
  }

  ghost predicate PostsBounded(s: State) {
    s.sem + |Posters(s.pcs)| <= |s.pcs|
  }

  /** Nobody sleeps on a free lock unless somebody is still on the way to look at it. */
  ghost predicate SleepersCovered(s: State) {
    s.lock == 0 && (exists p :: Blocked(s, p)) ==> exists q :: Active(s, q)
  }

  ghost predicate Inv(s: State) {
    && LockNamesOwner(s) && Accounted(s) && PostsBounded(s) && SleepersCovered(s)
    && (forall p :: p in s.pcs && s.pcs[p].ClaimWaiter? ==> s.pcs[p].seen > 0)
    && (forall p :: p in s.pcs && UsesSemaphore(s.pcs[p]) ==> s.semaphore)
  }

  lemma InitInv(s: State)
    requires Init(s)
    ensures Inv(s)
  {
    assert Waiters(s.pcs) == {} && Posters(s.pcs) == {};
  }

  /** One process moves: the sets of waiters and posters change by at most that process. */
  lemma CountMove(pcs: map<Pid, PC>, p: Pid, pc: PC)
    requires p in pcs
    ensures |pcs[p := pc]| == |pcs|
    ensures |Waiters(pcs[p := pc])| - |Waiters(pcs)| == (if Registered(pc) then 1 else 0) - (if Registered(pcs[p]) then 1 else 0)
    ensures |Posters(pcs[p := pc])| - |Posters(pcs)| == (if Owing(pc) then 1 else 0) - (if Owing(pcs[p]) then 1 else 0)
  {
    var pcs' := pcs[p := pc];
    assert pcs'.Keys == pcs.Keys;
    SameButFor(Waiters(pcs'), Waiters(pcs), p);
    SameButFor(Posters(pcs'), Posters(pcs), p);
    assert |pcs'| == |pcs'.Keys| && |pcs| == |pcs.Keys|;
  }

  lemma SameButFor(a: set<Pid>, b: set<Pid>, p: Pid)
    requires a - {p} == b - {p}
    ensures |a| - |b| == (if p in a then 1 else 0) - (if p in b then 1 else 0)
  {
    assert |a| == |a - {p}| + if p in a then 1 else 0;
    assert |b| == |b - {p}| + if p in b then 1 else 0;
  }

  lemma WaitersAreProcesses(s: State)
    ensures |Waiters(s.pcs)| <= |s.pcs|
  {
    SubsetSize(Waiters(s.pcs), s.pcs.Keys);
    assert |s.pcs.Keys| == |s.pcs|;
  }

  lemma {:induction false} SubsetSize(a: set<Pid>, b: set<Pid>)
    requires a <= b
    ensures |a| <= |b|
  {
    assert |b| == |a| + |b - a| by { assert b == a + (b - a); }
  }

  // ---------------------------------------------------------------- every step keeps them

  lemma StepMovesOne(s: State, p: Pid, s': State)
    requires Step(s, p, s')
    ensures p in s'.pcs && s'.pcs == s.pcs[p := s'.pcs[p]] && s'.semaphore == s.semaphore
  {
    assert s.pcs[p := s.pcs[p]] == s.pcs;
  }

  lemma StepAccounted(s: State, p: Pid, s': State)
    requires Inv(s) && Step(s, p, s')
    ensures Accounted(s') && PostsBounded(s')
  {
    StepMovesOne(s, p, s');
    CountMove(s.pcs, p, s'.pcs[p]);
    WaitersAreProcesses(s);
  }

  lemma StepLockNamesOwner(s: State, p: Pid, s': State)
    requires Inv(s) && Step(s, p, s')
    ensures LockNamesOwner(s')
  {
    StepMovesOne(s, p, s');
  }

  /** Only a waker that finds no waiter to claim gives up on a free lock, and then the
      accounting shows another one with a post still to make. */
  lemma StepSleepersCovered(s: State, p: Pid, s': State)
    requires Inv(s) && Step(s, p, s')
    ensures SleepersCovered(s')
  {
    StepMovesOne(s, p, s');
    if b :| s'.lock == 0 && Blocked(s', b) {
      if !Active(s', p) {
        assert b != p ==> Blocked(s, b);
        if s.pcs[p].ReadWait? {
          assert b in Waiters(s.pcs);
          assert |Posters(s.pcs)| > 0;
          var q :| q in Posters(s.pcs);
          assert Active(s', q);
        } else {
          var q :| Active(s, q);
          assert Active(s', q);
        }
      }
    }
  }

  lemma StepCounters(s: State, p: Pid, s': State)
    requires Inv(s) && Step(s, p, s')
    ensures forall q :: q in s'.pcs && s'.pcs[q].ClaimWaiter? ==> s'.pcs[q].seen > 0
    ensures forall q :: q in s'.pcs && UsesSemaphore(s'.pcs[q]) ==> s'.semaphore
  {
    StepMovesOne(s, p, s');
  }

  lemma StepInv(s: State, p: Pid, s': State)
    requires Inv(s) && Step(s, p, s')
    ensures Inv(s')
  {
    StepAccounted(s, p, s');
    StepCounters(s, p, s');
    StepLockNamesOwner(s, p, s');
    StepSleepersCovered(s, p, s');
  }

  lemma {:induction false} RunInv(r: seq<State>, i: nat)
    requires Run(r) && i < |r|
    ensures Inv(r[i])
  {
    if i == 0 {
      InitInv(r[0]);
    } else {
      RunInv(r, i - 1);
      var p :| Step(r[i - 1], p, r[i]);
      StepInv(r[i - 1], p, r[i]);
    }
  }

  // ---------------------------------------------------------------- over whole runs

  /** Mutual exclusion. */
  lemma AtMostOneHolder(r: seq<State>, i: nat, p: Pid, q: Pid)
    requires Run(r) && i < |r| && p in r[i].pcs && q in r[i].pcs
    requires Owner(r[i].pcs[p]) && Owner(r[i].pcs[q])
    ensures p == q && r[i].lock == p
  {
    RunInv(r, i);
  }

  /** No lost wakeup: the counter, the semaphore and the posts still owed add up to the
      registered waiters, and a sleeper on a free lock is never left alone. */
  lemma NoLostWakeup(r: seq<State>, i: nat)
    requires Run(r) && i < |r|
    ensures r[i].wait + r[i].sem + |Posters(r[i].pcs)| == |Waiters(r[i].pcs)|
    ensures forall p :: r[i].lock == 0 && Blocked(r[i], p) ==> exists q :: q != p && Active(r[i], q)
  {
    RunInv(r, i);
    forall p | r[i].lock == 0 && Blocked(r[i], p) ensures exists q :: q != p && Active(r[i], q) {
      var q :| Active(r[i], q);
      assert q != p;
    }
  }

  /** A run cannot stop with sleepers only: some process holds the lock or can go on. */
  lemma NoDeadlock(r: seq<State>, i: nat, p: Pid)
    requires Run(r) && i < |r| && Blocked(r[i], p)
    ensures exists q, s' :: q != p && q in r[i].pcs && !r[i].pcs[q].Idle? && Step(r[i], q, s')
  {
    RunInv(r, i);
    var s := r[i];
    var q: Pid;
    if s.lock == 0 {
      q :| Active(s, q);
    } else {
      q := s.lock;
    }
    var s' := SomeStep(s, q);
    assert q != p && q in s.pcs && !s.pcs[q].Idle? && Step(s, q, s');
  }

  /** Steps of process `q` alone, from the first state of `r` to the last. */
  ghost predicate Solo(r: seq<State>, q: Pid) {
    |r| > 0 && forall i :: 0 <= i < |r| - 1 ==> Step(r[i], q, r[i + 1])
  }

  /** How far an active process is from taking a free lock or posting the semaphore. */
  function StepsLeft(s: State, q: Pid): nat
    requires q in s.pcs
  {
    match s.pcs[q]
    case AddWaiter => 4
    case RetestLock => 3
    case ReadWait => 3
    case ClaimWaiter(seen) => if seen == s.wait then 2 else 4
    case TestLock => 2
    case TryTest => 2
    case _ => 1
  }

  /** The help that covers a sleeper is real: left to itself, the covering process takes the
      lock or posts the semaphore within four steps. */
  lemma SleeperCanBeHelped(s: State, b: Pid) returns (q: Pid, r: seq<State>)
    requires Inv(s) && s.lock == 0 && Blocked(s, b)
    ensures Solo(r, q) && r[0] == s && |r| <= 5
    ensures q != b && (r[|r| - 1].lock == q || r[|r| - 1].sem > 0)
  {
    if Posters(s.pcs) != {} {
      q :| q in Posters(s.pcs);
    } else {
      q :| Active(s, q);
    }
    assert b in Waiters(s.pcs);
    r := Help(s, q);
  }

  lemma {:induction false} Help(s: State, q: Pid) returns (r: seq<State>)
    requires q in s.pcs && s.lock == 0 && Active(s, q) && !s.pcs[q].SemWait?
    requires s.pcs[q].SemPost? || s.wait > 0
    ensures Solo(r, q) && r[0] == s && |r| <= StepsLeft(s, q) + 1
    ensures r[|r| - 1].lock == q || r[|r| - 1].sem > 0
    decreases StepsLeft(s, q)
  {
    var s' := SomeStep(s, q);
    if s'.lock == q || s'.sem > 0 {
      r := [s, s'];
    } else {
      var t := Help(s', q);
      r := [s] + t;
    }
  }

  lemma SomeStep(s: State, p: Pid) returns (s': State)
    requires p in s.pcs && !Blocked(s, p)
    ensures Step(s, p, s')
  {
    match s.pcs[p]
    case Idle => s' := Goto(s, p, TestLock);
    case TestLock => s' := Goto(s, p, if s.lock == 0 then TakeLock else TestLock);
    case TakeLock => s' := if s.lock == 0 then Goto(s, p, Holding).(lock := p) else Goto(s, p, TestLock);
    case AddWaiter => s' := Goto(s, p, RetestLock).(wait := s.wait + 1);
    case RetestLock => s' := Goto(s, p, if s.lock == 0 then RetakeLock else SemWait);
    case RetakeLock =>
      s' := if s.lock == 0 then Goto(s, p, DropWaiter).(lock := p) else Goto(s, p, SemWait);
    case DropWaiter => s' := Goto(s, p, Holding).(wait := s.wait - 1);
    case SemWait => s' := Goto(s, p, TestLock).(sem := s.sem - 1);
    case TryTest => s' := Goto(s, p, if s.lock == 0 then TryTake else Idle);
    case TryTake => s' := if s.lock == 0 then Goto(s, p, Holding).(lock := p) else Goto(s, p, Idle);
    case Holding => s' := Goto(s, p, Release);
    case Release =>
      s' := if s.lock == p then Goto(s, p, if s.semaphore then ReadWait else Idle).(lock := 0) else Goto(s, p, Idle);
    case ReadWait => s' := Goto(s, p, if s.wait <= 0 then Idle else ClaimWaiter(s.wait));
    case ClaimWaiter(seen) =>
      s' := if s.wait == seen then Goto(s, p, SemPost).(wait := seen - 1) else Goto(s, p, ReadWait);
    case SemPost => s' := Goto(s, p, Idle).(sem := s.sem + 1);
  }

  /** The counter stays between -N and N for N processes, so the machine word never wraps. */
  lemma CounterBounded(r: seq<State>, i: nat)
    requires Run(r) && i < |r|
    ensures -|r[i].pcs| <= r[i].wait <= |r[i].pcs|
  {
    RunInv(r, i);
    WaitersAreProcesses(r[i]);
  }

  lemma Extend(r: seq<State>, p: Pid, s': State)
    requires Run(r) && Step(r[|r| - 1], p, s')
    ensures Run(r + [s'])
  {
    var r' := r + [s'];
    forall i | 0 <= i < |r'| - 1 ensures Next(r'[i], r'[i + 1]) {
      if i == |r| - 1 { assert Step(r'[i], p, r'[i + 1]); } else { assert Next(r[i], r[i + 1]); }
    }
  }

  /** Process 1 holds the lock, process 2 has just been counted as a waiter. */
  lemma HolderAndWaiter() returns (r: seq<State>)
    ensures Run(r) && r[|r| - 1] == State(1, 1, 0, true, map[1 := Holding, 2 := RetestLock])
  {
    var s := State(0, 0, 0, true, map[1 := Idle, 2 := Idle]);
    r := [s];
    s := s.(pcs := map[1 := TestLock, 2 := Idle]);
    Extend(r, 1, s); r := r + [s];
    s := s.(pcs := map[1 := TakeLock, 2 := Idle]);
    Extend(r, 1, s); r := r + [s];
    s := s.(pcs := map[1 := Holding, 2 := Idle], lock := 1);
    Extend(r, 1, s); r := r + [s];
    s := s.(pcs := map[1 := Holding, 2 := TestLock]);
    Extend(r, 2, s); r := r + [s];
    s := s.(pcs := map[1 := Holding, 2 := AddWaiter]);
    Extend(r, 2, s); r := r + [s];
    s := s.(pcs := map[1 := Holding, 2 := RetestLock], wait := 1);
    Extend(r, 2, s); r := r + [s];
  }

  /** Process 1 has released the lock and claimed the waiter, but not yet posted. */
  lemma ClaimedWaiter() returns (r: seq<State>)
    ensures Run(r) && r[|r| - 1] == State(0, 0, 0, true, map[1 := SemPost, 2 := RetestLock])
  {
    r := HolderAndWaiter();
    var s := State(1, 1, 0, true, map[1 := Release, 2 := RetestLock]);
    Extend(r, 1, s); r := r + [s];
    s := s.(pcs := map[1 := ReadWait, 2 := RetestLock], lock := 0);
    Extend(r, 1, s); r := r + [s];
    s := s.(pcs := map[1 := ClaimWaiter(1), 2 := RetestLock]);
    Extend(r, 1, s); r := r + [s];
    s := s.(pcs := map[1 := SemPost, 2 := RetestLock], wait := 0);
    Extend(r, 1, s); r := r + [s];
  }

  /** The counter really goes below zero: a waiter whose wait has been claimed takes the lock
      itself and withdraws. */
  lemma CounterGoesNegative() returns (r: seq<State>)
    ensures Run(r) && r[|r| - 1].wait == -1
  {
    r := ClaimedWaiter();
    var s := State(0, 0, 0, true, map[1 := SemPost, 2 := RetakeLock]);
    Extend(r, 2, s); r := r + [s];
    s := s.(pcs := map[1 := SemPost, 2 := DropWaiter], lock := 2);
    Extend(r, 2, s); r := r + [s];
    s := s.(pcs := map[1 := SemPost, 2 := Holding], wait := -1);
    Extend(r, 2, s); r := r + [s];
  }
}
