/** The row-lock theorems, over every run of the step machine. */
module RowLockRuns {
  import opened ByteOrder
  import opened RowLock
  import opened RowLockSafety
  import opened Deadlock

  lemma InitInv(hash: Hash)
    ensures Inv(hash, Init) && CyclesHot(Init)
  {
    var h: map<TrxId, seq<LockId>> := map[];
    assert Held(Init, h);
    forall t, n: nat | 1 <= n ensures !Cycle(Init, t, n) {
      NoEdgeNoCycle(Init, t, n);
    }
  }

  lemma {:induction false} NoEdgeNoCycle(s: State, t: TrxId, n: nat)
    requires Succ(s, t) == None && n >= 1
    ensures After(s, t, n) == None
  {
    if n == 1 {
      assert After(s, t, 0) == Some(t);
    } else {
      NoEdgeNoCycle(s, t, n - 1);
    }
  }

  lemma StepInv(hash: Hash, s: State, st: Step)
    requires Inv(hash, s) && Enabled(hash, s, st)
    ensures Inv(hash, Apply(hash, s, st))
  {
    var h :| Held(s, h);
    KeepsEntries(hash, s, st);
    KeepsOwners(hash, s, h, st);
    KeepsPcs(hash, s, st);
    KeepsExclusive(hash, s, st);
    KeepsWalkersLive(hash, s, st);
    KeepsWaitersExact(hash, s, st);
    KeepsNoLostWakeup(hash, s, st);
    var h' := KeepsHeld(hash, s, h, st);
  }

  lemma {:induction false} RunInv(hash: Hash, s: State, steps: seq<Step>)
    requires Inv(hash, s) && CyclesHot(s) && Runs(hash, s, steps)
    ensures Inv(hash, Final(hash, s, steps)) && CyclesHot(Final(hash, s, steps))
    decreases |steps|
  {
    if steps != [] {
      StepInv(hash, s, steps[0]);
      KeepsCyclesHot(hash, s, steps[0]);
      RunInv(hash, Apply(hash, s, steps[0]), steps[1..]);
    }
  }

  ghost predicate Reachable(hash: Hash, s: State) {
    exists steps :: Runs(hash, Init, steps) && Final(hash, Init, steps) == s
  }

  lemma ReachableInv(hash: Hash, s: State)
    requires Reachable(hash, s)
    ensures Inv(hash, s) && CyclesHot(s)
  {
    InitInv(hash);
    var steps :| Runs(hash, Init, steps) && Final(hash, Init, steps) == s;
    RunInv(hash, Init, steps);
  }

  lemma {:induction false} RunAppend(hash: Hash, s: State, steps: seq<Step>, st: Step)
    requires Runs(hash, s, steps) && Enabled(hash, Final(hash, s, steps), st)
    ensures Runs(hash, s, steps + [st])
    ensures Final(hash, s, steps + [st]) == Apply(hash, Final(hash, s, steps), st)
    decreases |steps|
  {
    if steps == [] {
      assert steps + [st] == [st];
    } else {
      RunAppend(hash, Apply(hash, s, steps[0]), steps[1..], st);
      assert (steps + [st])[1..] == steps[1..] + [st];
    }
  }

  lemma ReachNext(hash: Hash, s: State, st: Step, s': State)
    requires Reachable(hash, s) && Enabled(hash, s, st) && s' == Apply(hash, s, st)
    ensures Reachable(hash, s')
  {
    var steps :| Runs(hash, Init, steps) && Final(hash, Init, steps) == s;
    RunAppend(hash, Init, steps, st);
  }

  // ----- What reachability gives a caller -----

  lemma OneOwnerPerKey(hash: Hash, s: State, t: TrxId, u: TrxId, l: LockId, k: LockId)
    requires Reachable(hash, s) && Owns(s, t, l) && Owns(s, u, k) && s.locks[l].pk == s.locks[k].pk
    ensures l == k && t == u && t in s.trxs
  {
    ReachableInv(hash, s);
  }

  lemma ReleasedOwnsNothing(hash: Hash, s: State, t: TrxId, l: LockId)
    requires Reachable(hash, s) && t in s.trxs
    requires s.trxs[t].pc.Closing? || (s.trxs[t].pc.Releasing? && s.trxs[t].pc.next.None?)
    ensures !Owns(s, t, l)
  {
    ReachableInv(hash, s);
    var h :| Held(s, h);
    assert PcOk(s, t) && h[t] == [];
  }

  // How many steps of its own a hot transaction is from the verdict.
  function Rank(pc: Pc, n: nat): int {
    match pc
    case Published(_) => 2 * n + 1
    case Walking(_, _, d, At(_)) => 2 * (n - d)
    case Walking(_, _, d, Hop(_)) => 2 * (n - d) - 1
    case _ => 0
  }

  // A step that moves only a program counter moves no edge.
  lemma PcMovesNoEdge(s: State, t: TrxId, pc: Pc, w: TrxId, n: nat)
    requires t in s.trxs
    ensures WalksAgree(s, SetPc(s, t, pc), w, n)
  {
    forall k | 0 <= k <= n ensures After(s, w, k) == After(SetPc(s, t, pc), w, k) {
      AfterSame(s, SetPc(s, t, pc), w, k);
    }
  }

  function NextOwn(t: TrxId, pc: Pc): Step {
    if pc.Published? then StartWalk(t) else WalkOn(t)
  }

  function NextPc(s: State, t: TrxId): Pc
    requires t in s.trxs && EnabledFor(s, NextOwn(t, s.trxs[t].pc))
  {
    var pc := s.trxs[t].pc;
    if pc.Published? then Walking(pc.lock, false, 0, At(s.locks[pc.lock].owner)) else WalkFrom(s, t)
  }

  lemma RankDrops(s: State, t: TrxId, n: nat)
    requires Owners(s) && t in s.trxs && PcOk(s, t) && n <= DEADLOCK_MAX_DEPTH && Cycle(s, t, n) && Hot(s, t, n)
    requires s.trxs[t].pc.Published? || s.trxs[t].pc.Walking?
    requires EnabledFor(s, NextOwn(t, s.trxs[t].pc))
    ensures 0 <= Rank(NextPc(s, t), n) < Rank(s.trxs[t].pc, n)
  {
    if s.trxs[t].pc.Walking? { HotWalkStays(s, t, n); }
  }

  // A hot transaction that has no verdict yet can always step, keeps the
  // cycle and stays hot, and comes closer to the verdict "deadlock".
  lemma HotAdvances(hash: Hash, s: State, t: TrxId, n: nat)
    requires Inv(hash, s) && t in s.trxs && n <= DEADLOCK_MAX_DEPTH && Cycle(s, t, n) && Hot(s, t, n)
    requires s.trxs[t].pc.Published? || s.trxs[t].pc.Walking?
    ensures var st := NextOwn(t, s.trxs[t].pc);
            && Enabled(hash, s, st)
            && Cycle(Apply(hash, s, st), t, n) && Hot(Apply(hash, s, st), t, n)
            && 0 <= Rank(Apply(hash, s, st).trxs[t].pc, n) < Rank(s.trxs[t].pc, n)
  {
    assert PcOk(s, t);
    var st := NextOwn(t, s.trxs[t].pc);
    RankDrops(s, t, n);
    PcMovesNoEdge(s, t, NextPc(s, t), t, n);
    PrefixSome(s, t, n, 0);
    PrefixSome(s, t, n, 1);
    assert Apply(hash, s, st) == SetPc(s, t, NextPc(s, t));
    OwnStepKeepsHot(hash, s, st, n);
  }

  // Its verdict ends its wait, and with it the cycle.
  lemma VerdictBreaksCycle(hash: Hash, s: State, st: Step, n: nat)
    requires Enabled(hash, s, st) && st.t in s.trxs && (st.Resume? || st.Settle?) && n >= 1
    requires s.trxs[st.t].pc.Walked? && s.trxs[st.t].pc.deadlock
    ensures Apply(hash, s, st).trxs[st.t].pc.Idle? && !Cycle(Apply(hash, s, st), st.t, n)
  {
    NoEdgeNoCycle(Apply(hash, s, st), st.t, n);
  }
}
