/** DEADLOCK_MAX_DEPTH is exactly the length of cycle the detector covers: for
    every longer ring there is a run that puts all of it to sleep. */
module DepthBound {
  import opened ByteOrder
  import opened RowLock
  import opened RowLockSafety
  import opened Deadlock
  import opened RowLockRuns

  // The neighbour whose lock transaction `i` of an `n`-ring asks for.
  function Right(n: nat, i: nat): nat {
    if i + 1 < n then i + 1 else 0
  }

  // Transactions 0..n-1 each own the lock with their own number; the first `k`
  // sleep on their neighbour's.
  function RingTrx(n: nat, k: nat, i: nat): Trx {
    if i < k then Trx(Asleep(Right(n, i), false), Some(Right(n, i)), Some(i)) else Trx(Idle, None, Some(i))
  }

  function RingLock(hash: Hash, n: nat, k: nat, i: nat): Lock {
    Lock(Zeros(i), Part(hash, Zeros(i)), LOCK_TXN_ID, Some(i),
         if (if i == 0 then n - 1 else i - 1) < k then 1 else 0, None)
  }

  function Ring(hash: Hash, n: nat, k: nat): State {
    State(RingTrxs(n, k), RingLocks(hash, n, k))
  }

  function RingTrxs(n: nat, k: nat): map<TrxId, Trx> { map i: nat | 0 <= i < n :: RingTrx(n, k, i) }

  function RingLocks(hash: Hash, n: nat, k: nat): map<LockId, Lock> { map i: nat | 0 <= i < n :: RingLock(hash, n, k, i) }

  // The ring while transaction `k` is on its way to sleep; `extra` is 1 once
  // it has counted itself as a waiter.
  function Mid(hash: Hash, n: nat, k: nat, pc: Pc, extra: nat): State
    requires k < n
  {
    var s := Ring(hash, n, k);
    var r := Right(n, k);
    State(s.trxs[k := Trx(pc, Some(r), Some(k))], s.locks[r := s.locks[r].(waiters := extra)])
  }

  lemma ZerosDistinct(i: nat, j: nat)
    ensures Zeros(i) == Zeros(j) ==> i == j
  {
    assert |Zeros(i)| == i && |Zeros(j)| == j;
  }

  lemma Grow(hash: Hash, m: nat)
    requires Reachable(hash, Ring(hash, m, 0))
    ensures Reachable(hash, Ring(hash, m + 1, 0))
  {
    var s := Ring(hash, m, 0);
    var s1 := s.(trxs := s.trxs[m := Trx(Idle, None, None)]);
    ReachNext(hash, s, Create(m), s1);
    forall k | k in s1.locks ensures s1.locks[k].pk != Zeros(m) { ZerosDistinct(k, m); }
    GrowClaim(hash, m, s1);
  }

  lemma ClaimStep(hash: Hash, m: nat, s: State)
    requires forall k :: k in s.locks ==> s.locks[k].pk != Zeros(m)
    requires s == Ring(hash, m, 0).(trxs := Ring(hash, m, 0).trxs[m := Trx(Idle, None, None)])
    ensures Enabled(hash, s, Acquire(m, Zeros(m), m)) && Apply(hash, s, Acquire(m, Zeros(m), m)) == Ring(hash, m + 1, 0)
  {
    ClaimGrows(hash, m, s);
  }

  lemma ClaimGrows(hash: Hash, m: nat, s: State)
    requires m !in s.locks
    requires s == Ring(hash, m, 0).(trxs := Ring(hash, m, 0).trxs[m := Trx(Idle, None, None)])
    ensures AcquireFound(FindOrCreate(hash, s, Zeros(m), m), m, m) == Ring(hash, m + 1, 0)
  {
    var s', s'' := Ring(hash, m + 1, 0), AcquireFound(FindOrCreate(hash, s, Zeros(m), m), m, m);
    assert s''.locks == s'.locks;
    assert s''.trxs == s'.trxs;
  }

  lemma GrowClaim(hash: Hash, m: nat, s: State)
    requires Reachable(hash, s) && (forall k :: k in s.locks ==> s.locks[k].pk != Zeros(m))
    requires s == Ring(hash, m, 0).(trxs := Ring(hash, m, 0).trxs[m := Trx(Idle, None, None)])
    ensures Reachable(hash, Ring(hash, m + 1, 0))
  {
    ClaimStep(hash, m, s);
    ReachNext(hash, s, Acquire(m, Zeros(m), m), Ring(hash, m + 1, 0));
  }

  lemma ReachEmpty(hash: Hash)
    ensures Reachable(hash, Ring(hash, 0, 0))
  {
    assert Ring(hash, 0, 0) == Init;
    assert Runs(hash, Init, []) && Final(hash, Init, []) == Init;
  }

  lemma {:induction false} ReachRing(hash: Hash, n: nat)
    ensures Reachable(hash, Ring(hash, n, 0))
  {
    if n == 0 {
      ReachEmpty(hash);
    } else {
      ReachRing(hash, n - 1);
      Grow(hash, n - 1);
      assert n - 1 + 1 == n;
    }
  }

  lemma Publish(hash: Hash, n: nat, k: nat)
    requires k < n && n >= 2 && Reachable(hash, Ring(hash, n, k))
    ensures Reachable(hash, Mid(hash, n, k, Published(Right(n, k)), 0))
  {
    var r := Right(n, k);
    var st := Acquire(k, Zeros(r), r);
    var s := Ring(hash, n, k);
    var s' := Mid(hash, n, k, Published(r), 0);
    assert s.locks[r].waiters == 0;
    assert s'.locks == s.locks;
    assert Apply(hash, s, st) == s';
    ReachNext(hash, s, st, s');
  }

  // Where the walk of transaction `k` stands after `d` hops: its neighbour does
  // not wait yet, except that the last transaction finds all the others asleep.
  function WalkPc(n: nat, k: nat, inWait: bool, d: nat): Pc {
    Walking(Right(n, k), inWait, d, At(Some(if k + 1 < n then k + 1 else d)))
  }

  function Extra(inWait: bool): nat {
    if inWait then 1 else 0
  }

  lemma WalkStop(hash: Hash, n: nat, k: nat, inWait: bool, d: nat)
    requires k < n && n > DEADLOCK_MAX_DEPTH && (if k + 1 < n then d == 0 else d == DEADLOCK_MAX_DEPTH)
    requires Reachable(hash, Mid(hash, n, k, WalkPc(n, k, inWait, d), Extra(inWait)))
    ensures Reachable(hash, Mid(hash, n, k, Walked(Right(n, k), inWait, false), Extra(inWait)))
  {
    var s := Mid(hash, n, k, WalkPc(n, k, inWait, d), Extra(inWait));
    ReachNext(hash, s, WalkOn(k), Mid(hash, n, k, Walked(Right(n, k), inWait, false), Extra(inWait)));
  }

  lemma WalkHop(hash: Hash, n: nat, k: nat, inWait: bool, d: nat)
    requires n > DEADLOCK_MAX_DEPTH && k + 1 == n && d < DEADLOCK_MAX_DEPTH
    requires Reachable(hash, Mid(hash, n, k, WalkPc(n, k, inWait, d), Extra(inWait)))
    ensures Reachable(hash, Mid(hash, n, k, Walking(0, inWait, d, Hop(d + 1)), Extra(inWait)))
  {
    var s := Mid(hash, n, k, WalkPc(n, k, inWait, d), Extra(inWait));
    ReachNext(hash, s, WalkOn(k), Mid(hash, n, k, Walking(0, inWait, d, Hop(d + 1)), Extra(inWait)));
  }

  lemma {:induction false} WalkTo(hash: Hash, n: nat, k: nat, inWait: bool, d: nat)
    requires k < n && n > DEADLOCK_MAX_DEPTH && d <= DEADLOCK_MAX_DEPTH && (k + 1 < n ==> d == 0)
    requires Reachable(hash, Mid(hash, n, k, WalkPc(n, k, inWait, d), Extra(inWait)))
    ensures Reachable(hash, Mid(hash, n, k, Walked(Right(n, k), inWait, false), Extra(inWait)))
    decreases DEADLOCK_MAX_DEPTH - d
  {
    if k + 1 < n || d == DEADLOCK_MAX_DEPTH {
      WalkStop(hash, n, k, inWait, d);
    } else {
      WalkHop(hash, n, k, inWait, d);
      var s1 := Mid(hash, n, k, Walking(0, inWait, d, Hop(d + 1)), Extra(inWait));
      ReachNext(hash, s1, WalkOn(k), Mid(hash, n, k, WalkPc(n, k, inWait, d + 1), Extra(inWait)));
      WalkTo(hash, n, k, inWait, d + 1);
    }
  }

  lemma CountStep(hash: Hash, n: nat, k: nat)
    requires k < n && n > DEADLOCK_MAX_DEPTH
    ensures var s := Mid(hash, n, k, Walked(Right(n, k), false, false), 0);
            Enabled(hash, s, Resume(k)) && Apply(hash, s, Resume(k)) == Mid(hash, n, k, WaitCheck(Right(n, k)), 1)
  {
  }

  lemma Count(hash: Hash, n: nat, k: nat)
    requires k < n && n > DEADLOCK_MAX_DEPTH
    requires Reachable(hash, Mid(hash, n, k, Walked(Right(n, k), false, false), 0))
    ensures Reachable(hash, Mid(hash, n, k, WaitCheck(Right(n, k)), 1))
  {
    CountStep(hash, n, k);
    ReachNext(hash, Mid(hash, n, k, Walked(Right(n, k), false, false), 0), Resume(k), Mid(hash, n, k, WaitCheck(Right(n, k)), 1));
  }

  lemma SleepStep(hash: Hash, n: nat, k: nat)
    requires k < n && n > DEADLOCK_MAX_DEPTH
    ensures var s := Mid(hash, n, k, Walked(Right(n, k), true, false), 1);
            Enabled(hash, s, Settle(k)) && Apply(hash, s, Settle(k)) == Ring(hash, n, k + 1)
  {
    SleepIsRing(hash, n, k);
  }

  lemma SleepIsRing(hash: Hash, n: nat, k: nat)
    requires k < n && n > DEADLOCK_MAX_DEPTH
    ensures SetPc(Mid(hash, n, k, Walked(Right(n, k), true, false), 1), k, Asleep(Right(n, k), false)) == Ring(hash, n, k + 1)
  {
    SleepTrxs(n, k);
    SleepLocks(hash, n, k);
  }

  lemma SleepTrxs(n: nat, k: nat)
    requires k < n
    ensures RingTrxs(n, k)[k := Trx(Asleep(Right(n, k), false), Some(Right(n, k)), Some(k))] == RingTrxs(n, k + 1)
  {
  }

  lemma SleepLocks(hash: Hash, n: nat, k: nat)
    requires k < n && n > DEADLOCK_MAX_DEPTH
    ensures Right(n, k) < n
    ensures RingLocks(hash, n, k)[Right(n, k) := RingLock(hash, n, k, Right(n, k)).(waiters := 1)] == RingLocks(hash, n, k + 1)
  {
  }

  lemma Sleep(hash: Hash, n: nat, k: nat)
    requires k < n && n > DEADLOCK_MAX_DEPTH
    requires Reachable(hash, Mid(hash, n, k, Walked(Right(n, k), true, false), 1))
    ensures Reachable(hash, Ring(hash, n, k + 1))
  {
    SleepStep(hash, n, k);
    ReachNext(hash, Mid(hash, n, k, Walked(Right(n, k), true, false), 1), Settle(k), Ring(hash, n, k + 1));
  }

  lemma BeginWalk(hash: Hash, n: nat, k: nat, inWait: bool)
    requires k < n && n > DEADLOCK_MAX_DEPTH
    requires Reachable(hash, Mid(hash, n, k, if inWait then WaitCheck(Right(n, k)) else Published(Right(n, k)), Extra(inWait)))
    ensures Reachable(hash, Mid(hash, n, k, WalkPc(n, k, inWait, 0), Extra(inWait)))
  {
    var s := Mid(hash, n, k, if inWait then WaitCheck(Right(n, k)) else Published(Right(n, k)), Extra(inWait));
    ReachNext(hash, s, StartWalk(k), Mid(hash, n, k, WalkPc(n, k, inWait, 0), Extra(inWait)));
  }

  lemma OneMoreAsleep(hash: Hash, n: nat, k: nat)
    requires k < n && n > DEADLOCK_MAX_DEPTH && Reachable(hash, Ring(hash, n, k))
    ensures Reachable(hash, Ring(hash, n, k + 1))
  {
    Publish(hash, n, k);
    BeginWalk(hash, n, k, false);
    WalkTo(hash, n, k, false, 0);
    Count(hash, n, k);
    BeginWalk(hash, n, k, true);
    WalkTo(hash, n, k, true, 0);
    Sleep(hash, n, k);
  }

  lemma {:induction false} ReachAsleep(hash: Hash, n: nat, k: nat)
    requires k <= n && n > DEADLOCK_MAX_DEPTH
    ensures Reachable(hash, Ring(hash, n, k))
  {
    if k == 0 {
      ReachRing(hash, n);
    } else {
      ReachAsleep(hash, n, k - 1);
      OneMoreAsleep(hash, n, k - 1);
    }
  }

  lemma {:induction false} RingAfter(hash: Hash, n: nat, i: nat)
    requires n >= 1 && i <= n
    ensures After(Ring(hash, n, n), 0, i) == Some(if i < n then i else 0)
  {
    if i > 0 { RingAfter(hash, n, i - 1); }
  }

  // Every one of the `n` members of the cycle through `t` is in cond_wait.
  ghost predicate WhollyAsleep(s: State, t: TrxId, n: nat) {
    forall i :: 0 <= i < n ==>
      After(s, t, i).Some? && After(s, t, i).value in s.trxs && s.trxs[After(s, t, i).value].pc.Asleep?
  }

  ghost predicate SleepingCycleReachable(hash: Hash, n: nat) {
    exists s, t :: Reachable(hash, s) && Cycle(s, t, n) && WhollyAsleep(s, t, n)
  }

  /** A cycle of length `n` can fall wholly asleep exactly when it is longer
      than DEADLOCK_MAX_DEPTH. */
  lemma DepthBoundExact(hash: Hash, n: nat)
    requires n >= 1
    ensures SleepingCycleReachable(hash, n) <==> n > DEADLOCK_MAX_DEPTH
  {
    if n > DEADLOCK_MAX_DEPTH {
      var s := Ring(hash, n, n);
      ReachAsleep(hash, n, n);
      forall i | 0 <= i <= n ensures After(s, 0, i) == Some(if i < n then i else 0) { RingAfter(hash, n, i); }
      assert Cycle(s, 0, n) && WhollyAsleep(s, 0, n);
    } else {
      forall s, t | Reachable(hash, s) && Cycle(s, t, n) ensures !WhollyAsleep(s, t, n) {
        ReachableInv(hash, s);
        assert HasHot(s, t, n);
        var i :| 0 <= i < n && HotAt(s, t, n, i);
      }
    }
  }
}
