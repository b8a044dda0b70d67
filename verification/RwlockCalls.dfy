/** How the calls of ngx_rwlock_wlock, ngx_rwlock_rlock and ngx_rwlock_unlock end, in every run. */
module RwlockCalls {
  import opened Rwlock

  /** Inside a call that takes the lock, or one that gives it back. */
  predicate Taking(pc: PC, writer: bool) {
    if writer then pc.WriteTest? || pc.WriteTake? else pc.ReadTest? || pc.ReadTake?
  }

  predicate Returning(pc: PC, writer: bool) {
    Holds(pc, writer) && !pc.Holding?
  }

  /** `p` has begun at i, and neither holds nor has left the lock before j. */
  ghost predicate Calls(r: seq<State>, p: Pid, i: nat, j: nat) {
    && i < j < |r| && (forall k :: i <= k <= j ==> p in r[k].pcs)
    && (forall k :: i < k < j ==> !r[k].pcs[p].Idle? && !r[k].pcs[p].Holding?)
  }

  lemma StepsOrStays(r: seq<State>, p: Pid, k: nat)
    requires Run(r) && k + 1 < |r| && p in r[k].pcs && p in r[k + 1].pcs
    ensures r[k].pcs[p] != r[k + 1].pcs[p] ==> Step(r[k], p, r[k + 1])
  {
    assert Next(r[k], r[k + 1]);
    var q :| Step(r[k], q, r[k + 1]);
    assert q != p ==> r[k + 1].pcs[p] == r[k].pcs[p];
  }

  /** A call that takes the lock ends with the lock, in its own role. */
  lemma {:induction false} TakingReturns(r: seq<State>, p: Pid, writer: bool, i: nat, j: nat)
    requires Run(r) && |r[0].pcs| < WLOCK && Calls(r, p, i, j) && Taking(r[i + 1].pcs[p], writer)
    ensures Taking(r[j].pcs[p], writer)
            || (r[j].pcs[p] == Holding(writer) && (r[j].lock == WLOCK <==> writer) && r[j].lock > 0)
  {
    hide Run, Step, WordTells;
    if i + 1 < j {
      TakingReturns(r, p, writer, i, j - 1);
      StepsOrStays(r, p, j - 1);
      if r[j - 1].pcs[p] != r[j].pcs[p] {
        TakingSteps(r[j - 1], p, r[j], writer);
      }
    }
    RunInv(r, j);
    if r[j].pcs[p] == Holding(writer) {
      HolderTells(r[j], p, writer);
    }
  }

  lemma TakingSteps(s: State, p: Pid, s': State, writer: bool)
    requires Step(s, p, s') && Taking(s.pcs[p], writer)
    ensures p in s'.pcs && (Taking(s'.pcs[p], writer) || s'.pcs[p] == Holding(writer))
  {
  }

  lemma HolderTells(s: State, p: Pid, writer: bool)
    requires WordTells(s) && p in s.pcs && Holds(s.pcs[p], writer)
    ensures (s.lock == WLOCK <==> writer) && s.lock > 0
  {
    assert p in Holders(s.pcs, writer);
    assert Holders(s.pcs, writer) != {};
  }

  lemma WordFits(s: State)
    requires WordTells(s) && |s.pcs| < WLOCK
    ensures s.lock <= WLOCK
  {
    HoldersAreProcesses(s.pcs, false);
  }

  /** A call of unlock ends with the lock given back, and the role is found out from the word. */
  lemma {:induction false} UnlockReturns(r: seq<State>, p: Pid, writer: bool, i: nat, j: nat)
    requires Run(r) && Calls(r, p, i, j) && Returning(r[i + 1].pcs[p], writer)
    ensures Returning(r[j].pcs[p], writer) || r[j].pcs[p].Idle?
  {
    hide Run;
    if i + 1 < j {
      UnlockReturns(r, p, writer, i, j - 1);
      StepsOrStays(r, p, j - 1);
    }
  }

  /** What one step makes of the word: a writer takes it from 0 to WLOCK and back, a reader adds one
      and takes one off, and nothing else changes it. */
  lemma StepsWord(r: seq<State>, i: nat, p: Pid)
    requires Run(r) && |r[0].pcs| < WLOCK && i + 1 < |r| && Step(r[i], p, r[i + 1])
    ensures var from, to := r[i].lock, r[i + 1].lock;
            var w, w' := Holds(r[i].pcs[p], true), Holds(r[i + 1].pcs[p], true);
            var d, d' := Holds(r[i].pcs[p], false), Holds(r[i + 1].pcs[p], false);
            && (!w && w' ==> from == 0 && to == WLOCK) && (w && !w' ==> from == WLOCK && to == 0)
            && (!d && d' ==> from != WLOCK && to == from + 1) && (d && !d' ==> from != WLOCK && to == from - 1)
            && (w == w' && d == d' ==> to == from)
  {
    hide Run, WordTells;
    RunInv(r, i);
    RunInv(r, i + 1);
    WordFits(r[i]);
    if Holds(r[i].pcs[p], true) {
      HolderTells(r[i], p, true);
    }
    if Holds(r[i].pcs[p], false) {
      HolderTells(r[i], p, false);
    }
    if Holds(r[i + 1].pcs[p], false) {
      HolderTells(r[i + 1], p, false);
    }
  }

  /** Steps of process `p` alone. */
  ghost predicate Solo(r: seq<State>, p: Pid) {
    |r| > 0 && forall k :: 0 <= k < |r| - 1 ==> Step(r[k], p, r[k + 1])
  }

  /** Readers share the lock: while no writer has it, a reader that runs alone gets it in three steps
      at most, however many others have it.  A writer gets a free lock in two. */
  lemma {:induction false} Enters(r: seq<State>, p: Pid, writer: bool)
    requires Solo(r, p) && |r| == 4 && p in r[0].pcs && Taking(r[0].pcs[p], writer)
    requires if writer then r[0].lock == 0 else r[0].lock < WLOCK - 1
    ensures exists k: nat :: k <= 3 && p in r[k].pcs && r[k].pcs[p] == Holding(writer)
                        && r[k].lock == if writer then WLOCK else r[0].lock + 1
  {
    assert Step(r[0], p, r[1]) && Step(r[1], p, r[2]) && Step(r[2], p, r[3]);
    var k := if r[1].pcs[p].Holding? then 1 else if r[2].pcs[p].Holding? then 2 else 3;
    assert r[k].pcs[p] == Holding(writer) && r[k].lock == if writer then WLOCK else r[0].lock + 1;
  }
}
