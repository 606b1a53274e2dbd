/** The pessimistic row-lock manager as a step machine.

    Every transaction has one program counter. A step is the code between two
    points where another thread can interfere: at most one store that the
    lock-free deadlock walker can see (`owner_trx` or `waiting_on`) per step,
    everything else it touches being guarded by a partition mutex or read by
    its own thread only. The partition mutex is held exactly in the program
    points `HoldsMutex` names; the read side of the transaction-lifetime lock
    is held exactly while `Walking`. */
module RowLock {
  import opened ByteOrder

  const ROW_LOCK_PARTITIONS := 65536
  const DEADLOCK_MAX_DEPTH := 100
  const LOCK_TXN_ID := 1

  // Addresses. A freed transaction's address may be handed out again; lock
  // entries are never freed.
  type TrxId = nat
  type LockId = nat

  type Hash = Bytes -> nat

  function Part(hash: Hash, pk: Bytes): nat {
    hash(pk) % ROW_LOCK_PARTITIONS
  }

  datatype Lock = Lock(pk: Bytes, partition: nat, ownerTxnId: nat, owner: Option<TrxId>,
                       waiters: nat, heldNext: Option<LockId>)

  // Where a walker stands: at a loaded owner pointer, or at a loaded lock
  // whose owner it is about to load.
  datatype Cursor = At(cur: Option<TrxId>) | Hop(waiting: LockId)

  datatype Pc =
    | Idle
    | Published(lock: LockId)
    | Walking(lock: LockId, inWait: bool, depth: nat, cursor: Cursor)
    | Walked(lock: LockId, inWait: bool, deadlock: bool)
    | Claimed(lock: LockId)                      // owner stored, waiting_on not yet cleared
    | WaitCheck(lock: LockId)                    // top of the wait loop
    | Claiming(lock: LockId)                     // left the loop, owner not yet stored
    | Asleep(lock: LockId, signalled: bool)
    | Releasing(next: Option<LockId>, closing: bool)
    | Closing

  datatype Trx = Trx(pc: Pc, waitingOn: Option<LockId>, heldHead: Option<LockId>)

  datatype State = State(trxs: map<TrxId, Trx>, locks: map<LockId, Lock>)

  datatype Step =
    | Create(t: TrxId)
    | Acquire(t: TrxId, pk: Bytes, lock: LockId)
    | StartWalk(t: TrxId)
    | WalkOn(t: TrxId)
    | Resume(t: TrxId)
    | ClearClaimed(t: TrxId)
    | LeaveLoop(t: TrxId, killed: bool)
    | StoreOwner(t: TrxId)
    | Settle(t: TrxId)
    | Wake(t: TrxId)
    | StartRelease(t: TrxId, closing: bool)
    | ReleaseOne(t: TrxId)
    | EndRelease(t: TrxId)
    | Free(t: TrxId)

  predicate HoldsMutex(pc: Pc) {
    match pc
    case Walking(_, inWait, _, _) => inWait
    case Walked(_, inWait, _) => inWait
    case Claimed(_) => true
    case WaitCheck(_) => true
    case Claiming(_) => true
    case _ => false
  }

  predicate HoldsPart(s: State, t: TrxId, part: nat)
    requires t in s.trxs
  {
    var pc := s.trxs[t].pc;
    HoldsMutex(pc) && pc.lock in s.locks && s.locks[pc.lock].partition == part
  }

  predicate MutexFree(s: State, part: nat) {
    forall t :: t in s.trxs ==> !HoldsPart(s, t, part)
  }

  predicate LockMutexFree(s: State, l: LockId) {
    l in s.locks && MutexFree(s, s.locks[l].partition)
  }

  // In the section between `waiters++` and `waiters--`.
  predicate InWaitSection(pc: Pc, l: LockId) {
    match pc
    case Walking(k, inWait, _, _) => inWait && k == l
    case Walked(k, inWait, _) => inWait && k == l
    case WaitCheck(k) => k == l
    case Asleep(k, _) => k == l
    case _ => false
  }

  function WaitSet(s: State, l: LockId): set<TrxId> {
    set t | t in s.trxs && InWaitSection(s.trxs[t].pc, l)
  }

  predicate EnabledFor(s: State, st: Step)
    requires st.t in s.trxs
  {
    var pc := s.trxs[st.t].pc;
    match st
    case Create(_) => false
    case Acquire(_, _, _) => pc.Idle?
    case StartWalk(_) =>
      && (pc.Published? || pc.WaitCheck?) && pc.lock in s.locks
      && (pc.WaitCheck? ==> s.locks[pc.lock].ownerTxnId != 0 && s.locks[pc.lock].owner != Some(st.t))
    case WalkOn(_) =>
      pc.Walking? && (pc.cursor.Hop? ==> pc.cursor.waiting in s.locks) &&
      (pc.cursor.At? && pc.cursor.cur.Some? ==> pc.cursor.cur.value in s.trxs)
    case Resume(_) => pc.Walked? && !pc.inWait && LockMutexFree(s, pc.lock)
    case ClearClaimed(_) => pc.Claimed?
    case LeaveLoop(_, killed) =>
      pc.WaitCheck? && pc.lock in s.locks && s.locks[pc.lock].waiters > 0 &&
      (killed <==> (s.locks[pc.lock].ownerTxnId != 0 && s.locks[pc.lock].owner != Some(st.t)))
    case StoreOwner(_) => pc.Claiming? && pc.lock in s.locks
    case Settle(_) =>
      pc.Walked? && pc.inWait && pc.lock in s.locks && s.locks[pc.lock].waiters > 0
    case Wake(_) => pc.Asleep? && LockMutexFree(s, pc.lock)
    case StartRelease(_, _) => pc.Idle?
    case ReleaseOne(_) => pc.Releasing? && pc.next.Some? && LockMutexFree(s, pc.next.value)
    case EndRelease(_) => pc.Releasing? && pc.next.None?
    case Free(_) => pc.Closing? && forall u :: u in s.trxs ==> !s.trxs[u].pc.Walking?
  }

  predicate Enabled(hash: Hash, s: State, st: Step) {
    match st
    case Create(t) => t !in s.trxs
    case Acquire(t, pk, l) =>
      && t in s.trxs && EnabledFor(s, st)
      && MutexFree(s, Part(hash, pk))
      && (if l in s.locks then s.locks[l].pk == pk
          else forall k :: k in s.locks ==> s.locks[k].pk != pk)
    case _ => st.t in s.trxs && EnabledFor(s, st)
  }

  function SetPc(s: State, t: TrxId, pc: Pc): State
    requires t in s.trxs
  {
    s.(trxs := s.trxs[t := s.trxs[t].(pc := pc)])
  }

  // Store the owner and push the entry on the transaction's held list.
  function Claim(s: State, t: TrxId, l: LockId, pc: Pc): State
    requires t in s.trxs && l in s.locks
  {
    var trx := s.trxs[t];
    State(s.trxs[t := trx.(pc := pc, heldHead := Some(l))],
          s.locks[l := s.locks[l].(ownerTxnId := LOCK_TXN_ID, owner := Some(t), heldNext := trx.heldHead)])
  }

  // `waiting_on = nullptr`, going to `pc`.
  function Unpublish(s: State, t: TrxId, pc: Pc): State
    requires t in s.trxs
  {
    s.(trxs := s.trxs[t := s.trxs[t].(pc := pc, waitingOn := None)])
  }

  function CountWaiter(s: State, l: LockId, delta: int): State
    requires l in s.locks && s.locks[l].waiters + delta >= 0
  {
    s.(locks := s.locks[l := s.locks[l].(waiters := s.locks[l].waiters + delta)])
  }

  function Signalled(trx: Trx, l: LockId): Trx {
    if trx.pc.Asleep? && trx.pc.lock == l then trx.(pc := Asleep(l, true)) else trx
  }

  function Broadcast(trxs: map<TrxId, Trx>, l: LockId): map<TrxId, Trx> {
    map t | t in trxs :: Signalled(trxs[t], l)
  }

  function FindOrCreate(hash: Hash, s: State, pk: Bytes, l: LockId): State {
    if l in s.locks then s
    else s.(locks := s.locks[l := Lock(pk, Part(hash, pk), 0, None, 0, None)])
  }

  function AcquireFound(s: State, t: TrxId, l: LockId): State
    requires t in s.trxs && l in s.locks
  {
    var lock := s.locks[l];
    if lock.ownerTxnId == LOCK_TXN_ID && lock.owner == Some(t) then s
    else if lock.ownerTxnId == 0 then Claim(s, t, l, Idle)
    else s.(trxs := s.trxs[t := s.trxs[t].(pc := Published(l), waitingOn := Some(l))])
  }

  function WalkFrom(s: State, t: TrxId): Pc
    requires t in s.trxs && s.trxs[t].pc.Walking? && EnabledFor(s, WalkOn(t))
  {
    var Walking(l, inWait, depth, cursor) := s.trxs[t].pc;
    match cursor
    case Hop(k) => Walking(l, inWait, depth + 1, At(s.locks[k].owner))
    case At(cur) =>
      if depth >= DEADLOCK_MAX_DEPTH || cur.None? then Walked(l, inWait, false)
      else if cur == Some(t) then Walked(l, inWait, true)
      else
        var w := s.trxs[cur.value].waitingOn;
        if w.None? then Walked(l, inWait, false) else Walking(l, inWait, depth, Hop(w.value))
  }

  function ResumeAfterWalk(s: State, t: TrxId, l: LockId, deadlock: bool): State
    requires t in s.trxs && l in s.locks
  {
    if deadlock then Unpublish(s, t, Idle)
    else if s.locks[l].ownerTxnId == 0 then Claim(s, t, l, Claimed(l))
    else SetPc(CountWaiter(s, l, 1), t, WaitCheck(l))
  }

  // Read `held_next` before the entry is given up, then give it up.
  function Release(s: State, t: TrxId, l: LockId, closing: bool): State
    requires t in s.trxs && l in s.locks
  {
    var lock := s.locks[l];
    var trxs := s.trxs[t := s.trxs[t].(pc := Releasing(lock.heldNext, closing))];
    State(if lock.waiters > 0 then Broadcast(trxs, l) else trxs,
          s.locks[l := lock.(ownerTxnId := 0, owner := None, heldNext := None)])
  }

  function Apply(hash: Hash, s: State, st: Step): State
    requires Enabled(hash, s, st)
  {
    match st
    case Create(t) => s.(trxs := s.trxs[t := Trx(Idle, None, None)])
    case Acquire(t, pk, l) => AcquireFound(FindOrCreate(hash, s, pk, l), t, l)
    case StartWalk(t) =>
      var pc := s.trxs[t].pc;
      SetPc(s, t, Walking(pc.lock, pc.WaitCheck?, 0, At(s.locks[pc.lock].owner)))
    case WalkOn(t) => SetPc(s, t, WalkFrom(s, t))
    case Resume(t) => ResumeAfterWalk(s, t, s.trxs[t].pc.lock, s.trxs[t].pc.deadlock)
    case ClearClaimed(t) => Unpublish(s, t, Idle)
    case LeaveLoop(t, killed) =>
      var l := s.trxs[t].pc.lock;
      Unpublish(CountWaiter(s, l, -1), t, if killed then Idle else Claiming(l))
    case StoreOwner(t) => Claim(s, t, s.trxs[t].pc.lock, Idle)
    case Settle(t) =>
      var pc := s.trxs[t].pc;
      if pc.deadlock then Unpublish(CountWaiter(s, pc.lock, -1), t, Idle)
      else SetPc(s, t, Asleep(pc.lock, false))
    case Wake(t) => SetPc(s, t, WaitCheck(s.trxs[t].pc.lock))
    case StartRelease(t, closing) => SetPc(s, t, Releasing(s.trxs[t].heldHead, closing))
    case ReleaseOne(t) => Release(s, t, s.trxs[t].pc.next.value, s.trxs[t].pc.closing)
    case EndRelease(t) =>
      s.(trxs := s.trxs[t := Trx(if s.trxs[t].pc.closing then Closing else Idle, None, None)])
    case Free(t) => s.(trxs := s.trxs - {t})
  }

  const Init := State(map[], map[])

  // A run is a list of steps, each enabled where it is taken.
  ghost predicate Runs(hash: Hash, s: State, steps: seq<Step>)
    decreases |steps|
  {
    steps == [] || (Enabled(hash, s, steps[0]) && Runs(hash, Apply(hash, s, steps[0]), steps[1..]))
  }

  ghost function Final(hash: Hash, s: State, steps: seq<Step>): State
    requires Runs(hash, s, steps)
    decreases |steps|
  {
    if steps == [] then s else Final(hash, Apply(hash, s, steps[0]), steps[1..])
  }
}
