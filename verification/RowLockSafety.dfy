/** What every step of the row-lock manager keeps: exact ownership and held
    lists, exact waiter counts, no lost wakeup, no dangling walker pointer. */
module RowLockSafety {
  import opened ByteOrder
  import opened RowLock

  // One entry per primary key, filed in the partition its key hashes to.
  ghost predicate Entries(hash: Hash, s: State) {
    && (forall l :: l in s.locks ==> s.locks[l].partition == Part(hash, s.locks[l].pk))
    && (forall l, k :: l in s.locks && k in s.locks && s.locks[l].pk == s.locks[k].pk ==> l == k)
  }

  ghost predicate Owners(s: State) {
    forall l :: l in s.locks ==>
      && (s.locks[l].ownerTxnId == 0 <==> s.locks[l].owner == None)
      && (s.locks[l].owner.Some? ==> s.locks[l].ownerTxnId == LOCK_TXN_ID && s.locks[l].owner.value in s.trxs)
  }

  predicate Waits(pc: Pc) {
    pc.Published? || pc.Walking? || pc.Walked? || pc.WaitCheck? || pc.Asleep?
  }

  // What a transaction's program counter says about its lock.
  ghost predicate PcOk(s: State, t: TrxId)
    requires t in s.trxs
  {
    var trx := s.trxs[t];
    var pc := trx.pc;
    && (Waits(pc) ==>
          && trx.waitingOn == Some(pc.lock) && pc.lock in s.locks
          && s.locks[pc.lock].owner != Some(t))
    && ((pc.Walking? || pc.Walked?) && pc.inWait ==> s.locks[pc.lock].owner.Some?)
    && (pc.Walking? ==> pc.depth <= DEADLOCK_MAX_DEPTH)
    && (pc.Walking? && pc.cursor.Hop? ==> pc.depth < DEADLOCK_MAX_DEPTH && pc.cursor.waiting in s.locks)
    && (pc.Claimed? ==> trx.waitingOn == Some(pc.lock) && pc.lock in s.locks && s.locks[pc.lock].owner == Some(t))
    && (pc.Claiming? ==> trx.waitingOn == None && pc.lock in s.locks && s.locks[pc.lock].owner == None)
    && (pc.Idle? || pc.Releasing? || pc.Closing? ==> trx.waitingOn == None)
    && (pc.Closing? ==> trx.heldHead == None)
  }

  ghost predicate Pcs(s: State) {
    forall t :: t in s.trxs ==> PcOk(s, t)
  }

  // At most one transaction inside each partition's critical section.
  ghost predicate Exclusive(s: State) {
    forall t, u, part :: t in s.trxs && u in s.trxs && HoldsPart(s, t, part) && HoldsPart(s, u, part) ==> t == u
  }

  // Every owner pointer a walker has loaded names a live transaction.
  ghost predicate WalkersLive(s: State) {
    forall t :: t in s.trxs && s.trxs[t].pc.Walking? && s.trxs[t].pc.cursor.At? && s.trxs[t].pc.cursor.cur.Some?
      ==> s.trxs[t].pc.cursor.cur.value in s.trxs
  }

  ghost predicate WaitersExact(s: State) {
    forall l :: l in s.locks ==> s.locks[l].waiters == |WaitSet(s, l)|
  }

  // A free lock has no sleeper that has not been signalled.
  ghost predicate NoLostWakeup(s: State) {
    forall t :: t in s.trxs && s.trxs[t].pc.Asleep? && !s.trxs[t].pc.signalled
      ==> s.trxs[t].pc.lock in s.locks && s.locks[s.trxs[t].pc.lock].owner.Some?
  }

  function HeldStart(trx: Trx): Option<LockId> {
    if trx.pc.Releasing? then trx.pc.next else trx.heldHead
  }

  // `q` is the duplicate-free list reached from `start` through held_next.
  ghost predicate Chain(locks: map<LockId, Lock>, start: Option<LockId>, q: seq<LockId>)
    decreases |q|
  {
    if q == [] then start == None
    else start == Some(q[0]) && q[0] in locks && q[0] !in q[1..] && Chain(locks, locks[q[0]].heldNext, q[1..])
  }

  ghost predicate Owns(s: State, t: TrxId, l: LockId) {
    l in s.locks && s.locks[l].owner == Some(t)
  }

  // The held lists: a duplicate-free chain per transaction, holding exactly
  // the entries it owns.
  ghost predicate Held(s: State, h: map<TrxId, seq<LockId>>) {
    && h.Keys == s.trxs.Keys
    && (forall t :: t in s.trxs ==> Chain(s.locks, HeldStart(s.trxs[t]), h[t]))
    && (forall t, l :: t in s.trxs ==> (l in h[t] <==> Owns(s, t, l)))
  }

  ghost predicate Inv(hash: Hash, s: State) {
    && Entries(hash, s) && Owners(s) && Pcs(s) && Exclusive(s) && WalkersLive(s)
    && WaitersExact(s) && NoLostWakeup(s) && (exists h :: Held(s, h))
  }

  lemma KeepsEntries(hash: Hash, s: State, st: Step)
    requires Entries(hash, s) && Enabled(hash, s, st)
    ensures Entries(hash, Apply(hash, s, st))
  {
  }

  // ----- What one step can do to a lock's owner and to other transactions -----

  ghost predicate OwnerSame(s: State, s': State, l: LockId) {
    && l in s.locks && l in s'.locks
    && s'.locks[l].owner == s.locks[l].owner && s'.locks[l].ownerTxnId == s.locks[l].ownerTxnId
  }

  ghost predicate OwnerTaken(s: State, s': State, t: TrxId, l: LockId) {
    && l in s'.locks && s'.locks[l].owner == Some(t) && s'.locks[l].ownerTxnId == LOCK_TXN_ID
    && t in s.trxs && t in s'.trxs && s'.trxs[t].heldHead == Some(l)
    && (s'.trxs[t].pc.Idle? || s'.trxs[t].pc == Claimed(l))
    && (l in s.locks ==>
          && s.locks[l].owner == None
          && (LockMutexFree(s, l) || HoldsPart(s, t, s.locks[l].partition)))
  }

  ghost predicate AllSignalled(s: State, l: LockId) {
    forall u :: u in s.trxs && s.trxs[u].pc.Asleep? && s.trxs[u].pc.lock == l ==> s.trxs[u].pc.signalled
  }

  ghost predicate OwnerDropped(s: State, s': State, t: TrxId, l: LockId) {
    && l in s'.locks && s'.locks[l].owner == None && s'.locks[l].ownerTxnId == 0
    && (l in s.locks ==>
          && t in s.trxs && s.trxs[t].pc.Releasing? && LockMutexFree(s, l)
          && (s.locks[l].waiters > 0 ==> AllSignalled(s', l)))
  }

  ghost predicate OwnerMove(s: State, s': State, t: TrxId, l: LockId) {
    OwnerSame(s, s', l) || OwnerTaken(s, s', t, l) || OwnerDropped(s, s', t, l)
  }

  lemma Moves(hash: Hash, s: State, st: Step, l: LockId)
    requires Entries(hash, s) && Owners(s) && Pcs(s) && Enabled(hash, s, st) && l in Apply(hash, s, st).locks
    ensures OwnerMove(s, Apply(hash, s, st), st.t, l)
  {
    if st.t in s.trxs {
      assert PcOk(s, st.t);
      if st.ReleaseOne? { MovesRelease(hash, s, st, l); }
    }
  }

  lemma MovesRelease(hash: Hash, s: State, st: Step, l: LockId)
    requires Pcs(s) && Enabled(hash, s, st) && st.ReleaseOne? && l in Apply(hash, s, st).locks
    ensures OwnerSame(s, Apply(hash, s, st), l) || OwnerDropped(s, Apply(hash, s, st), st.t, l)
  {
  }

  /** A lock with an owner changes hands only through that owner, releasing it. */
  lemma GivesUpOwn(hash: Hash, s: State, h: map<TrxId, seq<LockId>>, st: Step, l: LockId)
    requires Entries(hash, s) && Owners(s) && Pcs(s) && Held(s, h) && Enabled(hash, s, st)
    requires l in s.locks && s.locks[l].owner.Some?
    ensures var s' := Apply(hash, s, st);
            l in s'.locks && (OwnerSame(s, s', l) || (st.ReleaseOne? && s.locks[l].owner == Some(st.t) && OwnerDropped(s, s', st.t, l)))
  {
    Moves(hash, s, st, l);
    if st.ReleaseOne? { assert Chain(s.locks, s.trxs[st.t].pc.next, h[st.t]) && h[st.t][0] in h[st.t]; }
  }

  lemma OthersStay(hash: Hash, s: State, st: Step, u: TrxId)
    requires Enabled(hash, s, st) && u != st.t
    ensures u in Apply(hash, s, st).trxs <==> u in s.trxs
    ensures u in s.trxs ==>
              || Apply(hash, s, st).trxs[u] == s.trxs[u]
              || (s.trxs[u].pc.Asleep? && st.ReleaseOne? && s.trxs[st.t].pc.next == Some(s.trxs[u].pc.lock) &&
                  Apply(hash, s, st).trxs[u] == s.trxs[u].(pc := Asleep(s.trxs[u].pc.lock, true)))
  {
  }

  lemma KeepsOwners(hash: Hash, s: State, h: map<TrxId, seq<LockId>>, st: Step)
    requires Entries(hash, s) && Owners(s) && Pcs(s) && Held(s, h) && Enabled(hash, s, st)
    ensures Owners(Apply(hash, s, st))
  {
    var s' := Apply(hash, s, st);
    forall l | l in s'.locks
      ensures s'.locks[l].ownerTxnId == 0 <==> s'.locks[l].owner == None
      ensures s'.locks[l].owner.Some? ==>
                s'.locks[l].ownerTxnId == LOCK_TXN_ID && s'.locks[l].owner.value in s'.trxs
    {
      Moves(hash, s, st, l);
      if OwnerSame(s, s', l) && s.locks[l].owner.Some? {
        var u := s.locks[l].owner.value;
        assert l in h[u];
        if u != st.t { OthersStay(hash, s, st, u); } else { assert PcOk(s, u); }
      }
    }
  }

  // While a transaction holds its lock's mutex, nobody else changes the owner.
  lemma HeldMutexKeepsOwner(hash: Hash, s: State, st: Step, u: TrxId)
    requires Entries(hash, s) && Owners(s) && Pcs(s) && Exclusive(s) && Enabled(hash, s, st)
    requires u in s.trxs && u != st.t && HoldsMutex(s.trxs[u].pc) && s.trxs[u].pc.lock in s.locks
    ensures OwnerSame(s, Apply(hash, s, st), s.trxs[u].pc.lock)
  {
    var l := s.trxs[u].pc.lock;
    assert HoldsPart(s, u, s.locks[l].partition);
    LocksStay(hash, s, st);
    Moves(hash, s, st, l);
  }

  lemma LocksStay(hash: Hash, s: State, st: Step)
    requires Enabled(hash, s, st)
    ensures forall l :: l in s.locks ==> l in Apply(hash, s, st).locks
  {
  }

  lemma KeepsOtherPc(hash: Hash, s: State, st: Step, u: TrxId)
    requires Entries(hash, s) && Owners(s) && Pcs(s) && Exclusive(s) && Enabled(hash, s, st)
    requires u in s.trxs && u != st.t
    ensures u in Apply(hash, s, st).trxs && PcOk(Apply(hash, s, st), u)
  {
    assert PcOk(s, u);
    OthersStay(hash, s, st, u);
    LocksStay(hash, s, st);
    var pc := s.trxs[u].pc;
    if HoldsMutex(pc) {
      HeldMutexKeepsOwner(hash, s, st, u);
    } else if Waits(pc) {
      Moves(hash, s, st, pc.lock);
    }
  }

  lemma WalkKeepsOwnPc(hash: Hash, s: State, t: TrxId)
    requires Pcs(s) && Enabled(hash, s, WalkOn(t))
    ensures PcOk(Apply(hash, s, WalkOn(t)), t)
  {
    assert PcOk(s, t);
    var at := s.trxs[t].pc.cursor;
    assert at.At? && at.cur.Some? ==> PcOk(s, at.cur.value);
  }

  lemma KeepsOwnPc(hash: Hash, s: State, st: Step)
    requires Owners(s) && Pcs(s) && Enabled(hash, s, st) && st.t in Apply(hash, s, st).trxs
    ensures PcOk(Apply(hash, s, st), st.t)
  {
    if st.WalkOn? {
      WalkKeepsOwnPc(hash, s, st.t);
    } else if st.t in s.trxs {
      assert PcOk(s, st.t);
    }
  }

  lemma KeepsPcs(hash: Hash, s: State, st: Step)
    requires Entries(hash, s) && Owners(s) && Pcs(s) && Exclusive(s) && Enabled(hash, s, st)
    ensures Pcs(Apply(hash, s, st))
  {
    forall u | u in Apply(hash, s, st).trxs ensures PcOk(Apply(hash, s, st), u) {
      if u == st.t {
        KeepsOwnPc(hash, s, st);
      } else {
        OthersStay(hash, s, st, u);
        KeepsOtherPc(hash, s, st, u);
      }
    }
  }

  // A step lets at most its own transaction enter a critical section, and
  // only when that section's mutex is free or already its own.
  lemma EntersFree(hash: Hash, s: State, st: Step, u: TrxId, part: nat)
    requires Pcs(s) && Enabled(hash, s, st)
    requires u in Apply(hash, s, st).trxs && HoldsPart(Apply(hash, s, st), u, part)
    ensures u in s.trxs && (HoldsPart(s, u, part) || (u == st.t && MutexFree(s, part)))
  {
    if u in s.trxs {
      assert PcOk(s, u);
    }
  }

  lemma KeepsExclusive(hash: Hash, s: State, st: Step)
    requires Pcs(s) && Exclusive(s) && Enabled(hash, s, st)
    ensures Exclusive(Apply(hash, s, st))
  {
    var s' := Apply(hash, s, st);
    forall t, u, part | t in s'.trxs && u in s'.trxs && HoldsPart(s', t, part) && HoldsPart(s', u, part)
      ensures t == u
    {
      EntersFree(hash, s, st, t, part);
      EntersFree(hash, s, st, u, part);
    }
  }

  lemma KeepsWalkersLive(hash: Hash, s: State, st: Step)
    requires Owners(s) && Pcs(s) && WalkersLive(s) && Enabled(hash, s, st)
    ensures WalkersLive(Apply(hash, s, st))
  {
  }

  lemma KeepsSleeper(hash: Hash, s: State, st: Step, u: TrxId)
    requires Entries(hash, s) && Owners(s) && Pcs(s) && WaitersExact(s) && NoLostWakeup(s) && Enabled(hash, s, st)
    requires u in s.trxs && u != st.t && u in Apply(hash, s, st).trxs
    requires Apply(hash, s, st).trxs[u].pc.Asleep? && !Apply(hash, s, st).trxs[u].pc.signalled
    ensures s.trxs[u].pc == Apply(hash, s, st).trxs[u].pc
    ensures OwnerSame(s, Apply(hash, s, st), s.trxs[u].pc.lock)
  {
    OthersStay(hash, s, st, u);
    LocksStay(hash, s, st);
    var l := s.trxs[u].pc.lock;
    assert u in WaitSet(s, l);
    Moves(hash, s, st, l);
  }

  lemma KeepsNoLostWakeup(hash: Hash, s: State, st: Step)
    requires Entries(hash, s) && Owners(s) && Pcs(s) && WaitersExact(s) && NoLostWakeup(s) && Enabled(hash, s, st)
    ensures NoLostWakeup(Apply(hash, s, st))
  {
    var s' := Apply(hash, s, st);
    forall u | u in s'.trxs && s'.trxs[u].pc.Asleep? && !s'.trxs[u].pc.signalled
      ensures s'.trxs[u].pc.lock in s'.locks && s'.locks[s'.trxs[u].pc.lock].owner.Some?
    {
      if u == st.t {
        assert PcOk(s, u);
      } else {
        OthersStay(hash, s, st, u);
        KeepsSleeper(hash, s, st, u);
      }
    }
  }

  // ----- Waiter counts -----

  lemma WaitSetOthers(hash: Hash, s: State, st: Step, l: LockId)
    requires Enabled(hash, s, st)
    ensures WaitSet(Apply(hash, s, st), l) - {st.t} == WaitSet(s, l) - {st.t}
  {
    forall u | u != st.t ensures u in WaitSet(Apply(hash, s, st), l) <==> u in WaitSet(s, l) {
      OthersStay(hash, s, st, u);
    }
  }

  function Waiting(s: State, t: TrxId, l: LockId): nat {
    if t in s.trxs && InWaitSection(s.trxs[t].pc, l) then 1 else 0
  }

  lemma WaiterDelta(hash: Hash, s: State, st: Step, l: LockId)
    requires Pcs(s) && Enabled(hash, s, st) && l in Apply(hash, s, st).locks
    ensures Apply(hash, s, st).locks[l].waiters - (if l in s.locks then s.locks[l].waiters else 0)
            == Waiting(Apply(hash, s, st), st.t, l) - Waiting(s, st.t, l)
  {
    if st.t in s.trxs { assert PcOk(s, st.t); }
  }

  lemma WaitSetCard(s: State, t: TrxId, l: LockId)
    ensures |WaitSet(s, l)| == |WaitSet(s, l) - {t}| + Waiting(s, t, l)
  {
  }

  lemma KeepsWaitersExact(hash: Hash, s: State, st: Step)
    requires Pcs(s) && WaitersExact(s) && Enabled(hash, s, st)
    ensures WaitersExact(Apply(hash, s, st))
  {
    var s' := Apply(hash, s, st);
    forall l | l in s'.locks ensures s'.locks[l].waiters == |WaitSet(s', l)| {
      WaitSetOthers(hash, s, st, l);
      WaiterDelta(hash, s, st, l);
      WaitSetCard(s', st.t, l);
      WaitSetCard(s, st.t, l);
      if l !in s.locks {
        forall u | u in s.trxs ensures u !in WaitSet(s, l) { assert PcOk(s, u); }
        assert WaitSet(s, l) == {};
      }
    }
  }

  // ----- Held lists -----

  lemma {:induction false} ChainFrame(locks: map<LockId, Lock>, locks': map<LockId, Lock>, start: Option<LockId>,
                                      q: seq<LockId>)
    requires Chain(locks, start, q)
    requires forall l :: l in q ==> l in locks && l in locks' && locks'[l].heldNext == locks[l].heldNext
    ensures Chain(locks', start, q)
    decreases |q|
  {
    if q != [] {
      ChainFrame(locks, locks', locks[q[0]].heldNext, q[1..]);
    }
  }

  lemma ClaimHeld(s: State, h: map<TrxId, seq<LockId>>, t: TrxId, l: LockId, pc: Pc)
    requires Held(s, h) && t in s.trxs && l in s.locks && s.locks[l].owner == None
    requires !s.trxs[t].pc.Releasing? && !pc.Releasing?
    ensures Held(Claim(s, t, l, pc), h[t := [l] + h[t]])
  {
    var s', h' := Claim(s, t, l, pc), h[t := [l] + h[t]];
    forall u | u in s'.trxs ensures Chain(s'.locks, HeldStart(s'.trxs[u]), h'[u]) {
      ChainFrame(s.locks, s'.locks, HeldStart(s.trxs[u]), h[u]);
      assert ([l] + h[u])[1..] == h[u];
    }
  }

  lemma ReleaseHeld(s: State, h: map<TrxId, seq<LockId>>, t: TrxId, l: LockId, closing: bool)
    requires Held(s, h) && t in s.trxs && l in s.locks && s.trxs[t].pc == Releasing(Some(l), closing)
    ensures h[t] != [] && Held(Release(s, t, l, closing), h[t := h[t][1..]])
  {
    var s', h' := Release(s, t, l, closing), h[t := h[t][1..]];
    assert h[t] == [l] + h'[t];
    forall u, k | u in s'.trxs ensures k in h'[u] <==> Owns(s', u, k) {
      assert k in h[u] <==> Owns(s, u, k);
      assert l in h[t];
    }
    forall u | u in s'.trxs ensures Chain(s'.locks, HeldStart(s'.trxs[u]), h'[u]) {
      if u == t {
        assert forall k :: k in h'[u] ==> Owns(s', u, k);
        ChainFrame(s.locks, s'.locks, s.locks[l].heldNext, h'[u]);
      } else {
        assert l in h[t];
        ChainFrame(s.locks, s'.locks, HeldStart(s.trxs[u]), h[u]);
      }
    }
  }

  // Steps that touch neither an owner, a held_next nor where a list starts.
  lemma SameHeld(s: State, h: map<TrxId, seq<LockId>>, s': State)
    requires Held(s, h) && s'.trxs.Keys == s.trxs.Keys
    requires forall l :: l in s.locks ==> OwnerSame(s, s', l) && s'.locks[l].heldNext == s.locks[l].heldNext
    requires forall l :: l in s'.locks && l !in s.locks ==> s'.locks[l].owner == None
    requires forall t :: t in s.trxs ==> HeldStart(s'.trxs[t]) == HeldStart(s.trxs[t])
    ensures Held(s', h)
  {
    forall t | t in s'.trxs ensures Chain(s'.locks, HeldStart(s'.trxs[t]), h[t]) {
      ChainFrame(s.locks, s'.locks, HeldStart(s.trxs[t]), h[t]);
    }
  }

  lemma AcquireHeld(hash: Hash, s: State, h: map<TrxId, seq<LockId>>, t: TrxId, pk: Bytes, l: LockId)
    returns (h': map<TrxId, seq<LockId>>)
    requires Owners(s) && Held(s, h) && t in s.trxs && s.trxs[t].pc.Idle?
    ensures Held(AcquireFound(FindOrCreate(hash, s, pk, l), t, l), h')
  {
    var m := FindOrCreate(hash, s, pk, l);
    SameHeld(s, h, m);
    if m.locks[l].ownerTxnId == 0 {
      ClaimHeld(m, h, t, l, Idle);
      h' := h[t := [l] + h[t]];
    } else {
      h' := h;
      SameHeld(m, h, AcquireFound(m, t, l));
    }
  }

  lemma ResumeHeld(s: State, h: map<TrxId, seq<LockId>>, t: TrxId, l: LockId, deadlock: bool)
    returns (h': map<TrxId, seq<LockId>>)
    requires Owners(s) && Held(s, h) && t in s.trxs && s.trxs[t].pc.Walked? && l in s.locks
    ensures Held(ResumeAfterWalk(s, t, l, deadlock), h')
  {
    if !deadlock && s.locks[l].ownerTxnId == 0 {
      ClaimHeld(s, h, t, l, Claimed(l));
      h' := h[t := [l] + h[t]];
    } else {
      h' := h;
      SameHeld(s, h, ResumeAfterWalk(s, t, l, deadlock));
    }
  }

  predicate Quiet(st: Step) {
    st.StartWalk? || st.WalkOn? || st.ClearClaimed? || st.LeaveLoop? || st.Settle? || st.Wake? || st.StartRelease? || st.EndRelease?
  }

  lemma QuietFrame(hash: Hash, s: State, st: Step)
    requires Enabled(hash, s, st) && Quiet(st)
    ensures var s' := Apply(hash, s, st);
            && s'.trxs.Keys == s.trxs.Keys && s'.locks.Keys == s.locks.Keys
            && (forall l :: l in s.locks ==> OwnerSame(s, s', l) && s'.locks[l].heldNext == s.locks[l].heldNext)
            && (forall t :: t in s.trxs ==> HeldStart(s'.trxs[t]) == HeldStart(s.trxs[t]))
  {
  }

  lemma QuietHeld(hash: Hash, s: State, h: map<TrxId, seq<LockId>>, st: Step)
    requires Held(s, h) && Enabled(hash, s, st) && Quiet(st)
    ensures Held(Apply(hash, s, st), h)
  {
    QuietFrame(hash, s, st);
    SameHeld(s, h, Apply(hash, s, st));
  }

  lemma EndsHeld(hash: Hash, s: State, h: map<TrxId, seq<LockId>>, st: Step) returns (h': map<TrxId, seq<LockId>>)
    requires Owners(s) && Pcs(s) && Held(s, h) && Enabled(hash, s, st) && (st.Create? || st.Free?)
    ensures Held(Apply(hash, s, st), h')
  {
    if st.Create? {
      h' := h[st.t := []];
    } else {
      assert PcOk(s, st.t);
      h' := h - {st.t};
    }
  }

  lemma KeepsHeld(hash: Hash, s: State, h: map<TrxId, seq<LockId>>, st: Step) returns (h': map<TrxId, seq<LockId>>)
    requires Entries(hash, s) && Owners(s) && Pcs(s) && Held(s, h) && Enabled(hash, s, st)
    ensures Held(Apply(hash, s, st), h')
  {
    if st.Create? || st.Free? {
      h' := EndsHeld(hash, s, h, st);
    } else if Quiet(st) {
      h' := h;
      QuietHeld(hash, s, h, st);
    } else {
      var pc := s.trxs[st.t].pc;
      assert PcOk(s, st.t);
      match st
      case Acquire(t, pk, l) => h' := AcquireHeld(hash, s, h, t, pk, l);
      case Resume(t) => h' := ResumeHeld(s, h, t, pc.lock, pc.deadlock);
      case StoreOwner(t) =>
        ClaimHeld(s, h, t, pc.lock, Idle);
        h' := h[t := [pc.lock] + h[t]];
      case ReleaseOne(t) =>
        ReleaseHeld(s, h, t, pc.next.value, pc.closing);
        h' := h[t := h[t][1..]];
    }
  }
}
