/** How the calls of ngx_shmtx_lock, ngx_shmtx_trylock and ngx_shmtx_unlock end, in every run. */
module ShmtxCalls {
  import opened Shmtx

  /** The steps of `p` between the states i and j. */
  function Own(r: seq<State>, p: Pid, i: nat, j: nat): (own: seq<nat>)
    requires i <= j < |r| && forall k :: i <= k <= j ==> p in r[k].pcs
    ensures forall k :: 0 <= k < |own| ==> i <= own[k] < j
  {
    if i == j then []
    else Own(r, p, i, j - 1) + if r[j - 1].pcs[p] != r[j].pcs[p] then [j - 1] else []
  }

  lemma OwnNext(r: seq<State>, p: Pid, i: nat, j: nat)
    requires i <= j < |r| && forall k :: i <= k <= j ==> p in r[k].pcs
    ensures i == j ==> Own(r, p, i, j) == []
    ensures i < j ==> Own(r, p, i, j)
                      == if r[j - 1].pcs[p] != r[j].pcs[p] then Own(r, p, i, j - 1) + [j - 1] else Own(r, p, i, j - 1)
  {
  }

  /** Neither inside a call nor waiting for one. */
  predicate Outside(pc: PC) { pc.Idle? || pc.Holding? }

  /** `p` has called at i, and not come back before j. */
  predicate Calls(r: seq<State>, p: Pid, first: PC, i: nat, j: nat) {
    && i < j < |r|
    && (forall k :: i <= k <= j ==> p in r[k].pcs)
    && Outside(r[i].pcs[p]) && r[i + 1].pcs[p] == first
    && (forall k :: i < k < j ==> !Outside(r[k].pcs[p]))
  }

  /** The shared words are as they were. */
  predicate SameWords(s: State, s': State) {
    s'.lock == s.lock && s'.wait == s.wait && s'.sem == s.sem
  }

  /** Inside ngx_shmtx_lock. */
  predicate InLock(pc: PC) {
    pc.TestLock? || pc.TakeLock? || pc.AddWaiter? || pc.RetestLock? || pc.RetakeLock? || pc.DropWaiter? || pc.SemWait?
  }

  /** Either `p` steps from state k, or it stays where it is. */
  lemma StepsOrStays(r: seq<State>, p: Pid, k: nat)
    requires Run(r) && k + 1 < |r| && p in r[k].pcs && p in r[k + 1].pcs
    ensures r[k].pcs[p] != r[k + 1].pcs[p] ==> Step(r[k], p, r[k + 1])
  {
    assert Next(r[k], r[k + 1]);
    var q :| Step(r[k], q, r[k + 1]);
    StepMovesOne(r[k], q, r[k + 1]);
  }

  // ---------------------------------------------------------------- trylock

  /** Where a call of trylock stands after these steps of its own. */
  predicate TrylockStands(r: seq<State>, p: Pid, own: seq<nat>, pc: PC)
    requires forall k :: 0 <= k < |own| ==> own[k] + 1 < |r|
  {
    match |own|
    case 0 => pc == TryTest
    case 1 =>
      if r[own[0]].lock == 0 then pc == TryTake
      else pc == Idle && SameWords(r[own[0]], r[own[0] + 1])
    case _ =>
      && |own| == 2 && r[own[0]].lock == 0
      && if r[own[1]].lock == 0
         then pc == Holding && r[own[1] + 1] == r[own[1]].(lock := p, pcs := r[own[1] + 1].pcs)
         else pc == Idle && SameWords(r[own[1]], r[own[1] + 1])
  }

  /** A call of trylock makes at most two steps.  If the word is 0 at both, the process holds the lock
      then; otherwise it returns and has changed nothing.  It is never on its way into lock. */
  lemma {:induction false} TrylockReturns(r: seq<State>, p: Pid, i: nat, j: nat)
    requires Run(r) && Calls(r, p, TryTest, i, j)
    ensures TrylockStands(r, p, Own(r, p, i + 1, j), r[j].pcs[p])
    ensures forall k :: i < k <= j ==> !InLock(r[k].pcs[p])
  {
    hide Run, Step, Own;
    OwnNext(r, p, i + 1, j);
    if i + 1 < j {
      TrylockReturns(r, p, i, j - 1);
      StepsOrStays(r, p, j - 1);
      if r[j - 1].pcs[p] != r[j].pcs[p] {
        TrylockSteps(r, p, Own(r, p, i + 1, j - 1), j - 1);
      }
    }
  }

  lemma TrylockSteps(r: seq<State>, p: Pid, own: seq<nat>, k: nat)
    requires k + 1 < |r| && p in r[k].pcs && p in r[k + 1].pcs && forall m :: 0 <= m < |own| ==> own[m] + 1 < |r|
    requires TrylockStands(r, p, own, r[k].pcs[p]) && Step(r[k], p, r[k + 1]) && !Outside(r[k].pcs[p])
    ensures TrylockStands(r, p, own + [k], r[k + 1].pcs[p]) && !InLock(r[k + 1].pcs[p])
  {
    var own' := own + [k];
    assert own == [] ==> own'[0] == k;
    assert |own| == 1 ==> own'[0] == own[0] && own'[1] == k;
  }

  // ---------------------------------------------------------------- lock

  lemma LockSteps(s: State, p: Pid, s': State)
    requires Step(s, p, s') && InLock(s.pcs[p])
    ensures p in s'.pcs && (InLock(s'.pcs[p]) || s'.pcs[p].Holding?)
  {
  }

  /** A call of lock ends with the lock, never without it. */
  lemma {:induction false} LockReturns(r: seq<State>, p: Pid, i: nat, j: nat)
    requires Run(r) && Calls(r, p, TestLock, i, j)
    ensures InLock(r[j].pcs[p]) || (r[j].pcs[p].Holding? && r[j].lock == p)
  {
    hide Run, Step;
    if i + 1 < j {
      LockReturns(r, p, i, j - 1);
      StepsOrStays(r, p, j - 1);
      if r[j - 1].pcs[p] != r[j].pcs[p] {
        LockSteps(r[j - 1], p, r[j]);
      }
    }
    RunInv(r, j);
  }

  /** A process that runs alone in lock or trylock takes a free lock within three steps. */
  lemma TakesFreeLock(r: seq<State>, p: Pid)
    requires Solo(r, p) && |r| == 4 && p in r[0].pcs && r[0].lock == 0
    requires var pc := r[0].pcs[p]; (InLock(pc) && !pc.DropWaiter?) || pc.TryTest? || pc.TryTake?
    ensures exists k: nat :: k <= 3 && r[k].lock == p && p in r[k].pcs && Owner(r[k].pcs[p])
  {
    assert Step(r[0], p, r[1]) && Step(r[1], p, r[2]) && Step(r[2], p, r[3]);
    var k := if Owner(r[1].pcs[p]) then 1 else if Owner(r[2].pcs[p]) then 2 else 3;
    assert r[k].lock == p && p in r[k].pcs && Owner(r[k].pcs[p]);
  }

  // ---------------------------------------------------------------- unlock

  /** One waiter has been taken off the counter by `p`. */
  predicate Claims(r: seq<State>, own: seq<nat>) {
    exists c :: 0 <= c < |own| && ClaimsAt(r, own[c])
  }

  predicate ClaimsAt(r: seq<State>, k: nat) {
    k + 1 < |r| && r[k].wait > 0 && r[k + 1].wait == r[k].wait - 1
  }

  /** Where a call of unlock stands after these steps of its own. */
  predicate UnlockStands(r: seq<State>, p: Pid, own: seq<nat>, pc: PC)
    requires forall k :: 0 <= k < |own| ==> own[k] + 1 < |r|
  {
    if own == [] then pc == Release
    else
      var first, last := own[0], own[|own| - 1];
      if r[first].lock != p then own == [first] && pc == Idle && SameWords(r[first], r[first + 1])
      else
        && r[first + 1].lock == 0 && r[first + 1].wait == r[first].wait && r[first + 1].sem == r[first].sem
        && (!r[first].semaphore ==> own == [first] && pc == Idle)
        && (r[first].semaphore ==>
              match pc
              case ReadWait => true
              case ClaimWaiter(seen) => seen > 0
              case SemPost => Claims(r, own)
              case Idle =>
                || (|own| > 1 && r[last].wait <= 0 && SameWords(r[last], r[last + 1]))
                || (Claims(r, own) && r[last + 1].sem == r[last].sem + 1)
              case _ => false)
  }

  /** A call of unlock frees the word exactly if it is the caller's.  Then, with a semaphore, it returns
      when it has seen that nobody waits, or has taken a waiter off the counter and posted. */
  lemma {:induction false} UnlockReturns(r: seq<State>, p: Pid, i: nat, j: nat)
    requires Run(r) && Calls(r, p, Release, i, j)
    ensures UnlockStands(r, p, Own(r, p, i + 1, j), r[j].pcs[p])
  {
    UnlockBegins(r, p);
    hide Run, Step, Own, UnlockStands;
    OwnNext(r, p, i + 1, j);
    if i + 1 < j {
      var own := Own(r, p, i + 1, j - 1);
      UnlockReturns(r, p, i, j - 1);
      StepsOrStays(r, p, j - 1);
      if r[j - 1].pcs[p] != r[j].pcs[p] {
        if own != [] {
          SameMutex(r, own[0], j - 1);
        }
        UnlockSteps(r, p, own, j - 1);
      }
    }
  }

  lemma UnlockBegins(r: seq<State>, p: Pid)
    ensures UnlockStands(r, p, [], Release)
  {
  }

  /** Whether the mutex has a semaphore does not change. */
  lemma {:induction false} SameMutex(r: seq<State>, i: nat, j: nat)
    requires Run(r) && i <= j < |r|
    ensures r[j].semaphore == r[i].semaphore
    decreases j
  {
    hide Step;
    if i < j {
      SameMutex(r, i, j - 1);
      assert Next(r[j - 1], r[j]);
      var q :| Step(r[j - 1], q, r[j]);
      StepMovesOne(r[j - 1], q, r[j]);
    }
  }

  lemma UnlockSteps(r: seq<State>, p: Pid, own: seq<nat>, k: nat)
    requires k + 1 < |r| && p in r[k].pcs && p in r[k + 1].pcs && forall m :: 0 <= m < |own| ==> own[m] + 1 < |r|
    requires Step(r[k], p, r[k + 1]) && !Outside(r[k].pcs[p])
    requires own != [] ==> r[k].semaphore == r[own[0]].semaphore
    ensures UnlockStands(r, p, own, r[k].pcs[p]) ==> UnlockStands(r, p, own + [k], r[k + 1].pcs[p])
  {
    var own' := own + [k];
    assert forall c :: 0 <= c < |own| ==> own'[c] == own[c];
    assert own'[|own|] == k;
    if Claims(r, own) {
      var c :| 0 <= c < |own| && ClaimsAt(r, own[c]);
      assert ClaimsAt(r, own'[c]);
    }
    if UnlockStands(r, p, own, r[k].pcs[p]) && r[k].pcs[p].ClaimWaiter? && r[k].wait == r[k].pcs[p].seen {
      assert ClaimsAt(r, own'[|own|]);
    }
  }
}
