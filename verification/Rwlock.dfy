/** The reader-writer lock of ngx_rwlock.c as a step system over any number of processes: one
    shared word, one step per access to it.  Spinning is left open. */
module Rwlock {

  /** ngx_atomic_uint_t on the 64-bit build. */
  const WORD: nat := 0x1_0000_0000_0000_0000

  /** NGX_RWLOCK_WLOCK, (ngx_atomic_uint_t) -1 */
  const WLOCK: nat := WORD - 1

  type Pid = nat

  /** Where a process stands.  `writer` says in which role a process that is unlocking holds
      the lock; the code itself has to find that out from the word. */
  datatype PC =
    | Idle
    | WriteTest                          // wlock: *lock == 0 ?
    | WriteTake                          // wlock: compare-and-set 0 -> WLOCK
    | ReadTest                           // rlock: readers = *lock
    | ReadTake(readers: nat)             // rlock: compare-and-set readers -> readers + 1
    | Holding(writer: bool)
    | UnlockTest(writer: bool)           // unlock: readers = *lock
    | UnlockStore(writer: bool)          // unlock: *lock = 0
    | UnlockTake(writer: bool, readers: nat)  // unlock: compare-and-set readers -> readers - 1
    | UnlockReread(writer: bool)         // unlock: readers = *lock, without looking for WLOCK

  datatype State = State(lock: nat, pcs: map<Pid, PC>)

  predicate Init(s: State) {
    s.lock == 0 && forall p :: p in s.pcs ==> s.pcs[p] == Idle
  }

  function Goto(s: State, p: Pid, pc: PC): State {
    s.(pcs := s.pcs[p := pc])
  }

  predicate Step(s: State, p: Pid, s': State) {
    p in s.pcs &&
    match s.pcs[p]
    case Idle => s' == Goto(s, p, WriteTest) || s' == Goto(s, p, ReadTest)
    case WriteTest => s' == Goto(s, p, if s.lock == 0 then WriteTake else WriteTest)
    case WriteTake =>
      s' == if s.lock == 0 then Goto(s, p, Holding(true)).(lock := WLOCK) else Goto(s, p, WriteTest)
    case ReadTest => s' == Goto(s, p, if s.lock != WLOCK then ReadTake(s.lock) else ReadTest)
    case ReadTake(readers) =>
      s' == if s.lock == readers then Goto(s, p, Holding(false)).(lock := (readers + 1) % WORD) else Goto(s, p, ReadTest)
    case Holding(writer) => s' == Goto(s, p, UnlockTest(writer))
    case UnlockTest(writer) =>
      s' == Goto(s, p, if s.lock == WLOCK then UnlockStore(writer) else UnlockTake(writer, s.lock))
    case UnlockStore(_) => s' == Goto(s, p, Idle).(lock := 0)
    case UnlockTake(writer, readers) =>
      s' == if s.lock == readers then Goto(s, p, Idle).(lock := (readers - 1) % WORD) else Goto(s, p, UnlockReread(writer))
    case UnlockReread(writer) => s' == Goto(s, p, UnlockTake(writer, s.lock))
  }

  ghost predicate Next(s: State, s': State) {
    exists p :: Step(s, p, s')
  }

  ghost predicate Run(r: seq<State>) {
    |r| > 0 && Init(r[0]) && forall i :: 0 <= i < |r| - 1 ==> Next(r[i], r[i + 1])
  }

  predicate Holds(pc: PC, writer: bool) {
    match pc
    case Holding(w) => w == writer
    case UnlockTest(w) => w == writer
    case UnlockStore(w) => w == writer
    case UnlockTake(w, _) => w == writer
    case UnlockReread(w) => w == writer
    case _ => false
  }

  ghost function Holders(pcs: map<Pid, PC>, writer: bool): set<Pid> {
    set p | p in pcs && Holds(pcs[p], writer)
  }

  /** The word says what is held: WLOCK for one writer and no reader, else the number of readers. */
  ghost predicate WordTells(s: State) {
    var readers, writers := |Holders(s.pcs, false)|, |Holders(s.pcs, true)|;
    if s.lock == WLOCK then writers == 1 && readers == 0 else writers == 0 && s.lock == readers
  }

  /** What a process has in hand while unlocking suits its role. */
  ghost predicate Suits(pc: PC) {
    && (pc.UnlockStore? ==> pc.writer)
    && ((pc.UnlockTake? || pc.UnlockReread?) ==> !pc.writer)
    && (pc.ReadTake? ==> pc.readers != WLOCK)
  }

  ghost predicate Inv(s: State) {
    WordTells(s) && forall p :: p in s.pcs ==> Suits(s.pcs[p])
  }

  lemma CountMove(pcs: map<Pid, PC>, p: Pid, pc: PC, writer: bool)
    requires p in pcs
    ensures |Holders(pcs[p := pc], writer)| - |Holders(pcs, writer)|
         == (if Holds(pc, writer) then 1 else 0) - (if Holds(pcs[p], writer) then 1 else 0)
  {
    var a, b := Holders(pcs[p := pc], writer), Holders(pcs, writer);
    assert a - {p} == b - {p};
    assert |a| == |a - {p}| + if p in a then 1 else 0;
    assert |b| == |b - {p}| + if p in b then 1 else 0;
  }

  lemma HoldersAreProcesses(pcs: map<Pid, PC>, writer: bool)
    ensures |Holders(pcs, writer)| <= |pcs|
  {
    var h := Holders(pcs, writer);
    assert pcs.Keys == h + (pcs.Keys - h);
    assert |pcs.Keys| == |h| + |pcs.Keys - h| == |pcs|;
  }

  lemma StepInv(s: State, p: Pid, s': State)
    requires Inv(s) && Step(s, p, s') && |s.pcs| < WLOCK
    ensures Inv(s') && |s'.pcs| == |s.pcs|
  {
    var pc, pc' := s.pcs[p], s'.pcs[p];
    assert s'.pcs == s.pcs[p := pc'];
    assert s'.pcs.Keys == s.pcs.Keys && |s'.pcs.Keys| == |s'.pcs| && |s.pcs.Keys| == |s.pcs|;
    CountMove(s.pcs, p, pc', false);
    CountMove(s.pcs, p, pc', true);
    HoldersAreProcesses(s.pcs, false);
    HoldersAreProcesses(s'.pcs, false);
    assert Holds(pc, false) ==> p in Holders(s.pcs, false);
    assert Holds(pc, true) ==> p in Holders(s.pcs, true);
  }

  /** With fewer than 2^64 - 1 processes, in every state of every run, the word is WLOCK exactly
      when one writer and no reader holds the lock, and otherwise the number of readers. */
  lemma {:induction false} RunInv(r: seq<State>, i: nat)
    requires Run(r) && i < |r| && |r[0].pcs| < WLOCK
    ensures WordTells(r[i]) && Inv(r[i]) && |r[i].pcs| == |r[0].pcs|
  {
    if i == 0 {
      assert Holders(r[0].pcs, false) == {} && Holders(r[0].pcs, true) == {};
    } else {
      RunInv(r, i - 1);
      var p :| Step(r[i - 1], p, r[i]);
      StepInv(r[i - 1], p, r[i]);
    }
  }

  /** A writer is alone. */
  lemma WriterExcludes(r: seq<State>, i: nat, p: Pid, q: Pid)
    requires Run(r) && i < |r| && |r[0].pcs| < WLOCK
    requires p in r[i].pcs && Holds(r[i].pcs[p], true) && q in r[i].pcs && q != p
    ensures !Holds(r[i].pcs[q], true) && !Holds(r[i].pcs[q], false)
  {
    RunInv(r, i);
    var w := Holders(r[i].pcs, true);
    assert p in w;
    assert |w - {p}| == |w| - 1;
    assert q in w ==> q in w - {p};
    assert q !in Holders(r[i].pcs, false);
  }

  // ---------------------------------------------------------------- one process too many

  ghost function Below(n: nat): (s: set<nat>)
    ensures |s| == n && forall p: nat :: p in s <==> p < n
  {
    if n == 0 then {} else Below(n - 1) + {n - 1}
  }

  /** The first k of n processes hold the lock for reading, the others are idle. */
  ghost function Readers(n: nat, k: nat): (s: State)
    ensures |s.pcs| == n
  {
    var pcs := map p | p in Below(n) :: if p < k then Holding(false) else Idle;
    assert pcs.Keys == Below(n) && |pcs| == |pcs.Keys|;
    State(k, pcs)
  }

  lemma Extend(r: seq<State>, p: Pid, s': State)
    requires Run(r) && Step(r[|r| - 1], p, s')
    ensures Run(r + [s'])
  {
    var r' := r + [s'];
    forall i | 0 <= i < |r'| - 1 ensures Next(r'[i], r'[i + 1]) {
      if i == |r| - 1 { assert Step(r'[i], p, r'[i + 1]); } else { assert Next(r[i], r[i + 1]); }
    }
  }

  /** One reader after the other takes the lock. */
  lemma {:induction false} ReadersCome(n: nat, k: nat) returns (r: seq<State>)
    requires k <= n && k <= WLOCK
    ensures Run(r) && r[0] == Readers(n, 0) && r[|r| - 1] == Readers(n, k)
  {
    hide Goto, Below;
    if k == 0 {
      r := [Readers(n, 0)];
    } else {
      r := ReadersCome(n, k - 1);
      hide Step, Run, Readers;
      var p, s := k - 1, Readers(n, k - 1);
      var s1, s2 := Goto(s, p, ReadTest), Goto(s, p, ReadTake(p));
      OneMoreReader(n, p);
      Extend(r, p, s1);
      Extend(r + [s1], p, s2);
      Extend(r + [s1] + [s2], p, Readers(n, k));
      r := r + [s1] + [s2] + [Readers(n, k)];
    }
  }

  lemma OneMoreReader(n: nat, p: nat)
    requires p < n && p < WLOCK
    ensures var s := Readers(n, p);
            var s1, s2 := Goto(s, p, ReadTest), Goto(s, p, ReadTake(p));
            Step(s, p, s1) && Step(s1, p, s2) && Step(s2, p, Readers(n, p + 1))
  {
    hide Below;
    var s, t := Readers(n, p), Readers(n, p + 1);
    assert Goto(Goto(s, p, ReadTest), p, ReadTake(p)) == Goto(s, p, ReadTake(p));
    assert Goto(Goto(s, p, ReadTake(p)), p, Holding(false)).pcs == t.pcs;
  }

  /** The bound is tight: from 2^64 - 1 processes on there is a run that ends with that many
      readers, whose count looks like a write lock. */
  lemma OneReaderTooMany(n: nat) returns (r: seq<State>)
    requires n >= WLOCK
    ensures Run(r) && |r[0].pcs| == n && r[|r| - 1].lock == WLOCK && !WordTells(r[|r| - 1])
  {
    r := ReadersCome(n, WLOCK);
    var s := Readers(n, WLOCK);
    assert Holders(s.pcs, true) == {};
  }
}
