/** The lock manager's own loops, run without interference: the hash-chain
    lookup, the wait-for walk and the release of a held list. */
module LockTable {
  import opened ByteOrder
  import opened RowLock
  import opened RowLockSafety
  import opened Deadlock

  // `q` is the duplicate-free list reached from `start` through `next`.
  ghost predicate Linked(next: map<LockId, Option<LockId>>, start: Option<LockId>, q: seq<LockId>)
    decreases |q|
  {
    if q == [] then start == None
    else start == Some(q[0]) && q[0] in next && q[0] !in q[1..] && Linked(next, next[q[0]], q[1..])
  }

  lemma {:induction false} LinkedFrame(next: map<LockId, Option<LockId>>, next': map<LockId, Option<LockId>>,
                                       start: Option<LockId>, q: seq<LockId>)
    requires Linked(next, start, q)
    requires forall l :: l in q ==> l in next && l in next' && next'[l] == next[l]
    ensures Linked(next', start, q)
    decreases |q|
  {
    if q != [] { LinkedFrame(next, next', next[q[0]], q[1..]); }
  }

  /** One partition of the lock table. */
  class Partition {
    var chain: Option<LockId>
    var hashNext: map<LockId, Option<LockId>>
    var pk: map<LockId, Bytes>
    ghost var order: seq<LockId>              // the chain, spelled out

    ghost predicate Valid()
      reads this
    {
      && Linked(hashNext, chain, order)
      && hashNext.Keys == pk.Keys
      && (forall l :: l in order <==> l in pk)
      && (forall l, k :: l in pk && k in pk && pk[l] == pk[k] ==> l == k)
    }

    constructor ()
      ensures Valid() && pk == map[]
    {
      chain, hashNext, pk, order := None, map[], map[], [];
    }

    /** tdb_lock_find_or_create: the entry with this key if there is one, else a
        new entry at the head of the chain. Entries are never moved or dropped. */
    method FindOrCreate(key: Bytes, addr: LockId) returns (l: LockId)
      requires Valid() && addr !in pk
      modifies this
      ensures Valid() && l in pk && pk[l] == key
      ensures pk == if l in old(pk) then old(pk) else old(pk)[addr := key]
      ensures l !in old(pk) ==> l == addr && (forall k :: k in old(pk) ==> old(pk)[k] != key)
    {
      var e := chain;
      ghost var rest := order;
      while e.Some?
        invariant Linked(hashNext, e, rest)
        invariant forall k :: k in rest ==> k in pk
        invariant forall k :: k in pk && k !in rest ==> pk[k] != key
        decreases |rest|
      {
        if pk[e.value] == key {
          return e.value;
        }
        assert rest == [e.value] + rest[1..];
        e := hashNext[e.value];
        rest := rest[1..];
      }
      l := addr;
      LinkedFrame(hashNext, hashNext[addr := chain], chain, order);
      pk := pk[addr := key];
      hashNext := hashNext[addr := chain];
      chain := Some(addr);
      order := [addr] + order;
      assert order[1..] == old(order);
    }
  }

  /** tdb_lock_would_deadlock on a table that stands still: yes exactly when the
      requestor is among the first DEADLOCK_MAX_DEPTH transactions on the
      wait-for path from the lock's owner. */
  method WouldDeadlock(s: State, requestor: TrxId, target: LockId) returns (found: bool)
    requires Owners(s) && target in s.locks
    requires forall t :: t in s.trxs && s.trxs[t].waitingOn.Some? ==> s.trxs[t].waitingOn.value in s.locks
    ensures found <==> Meets(s, target, requestor, 0)
  {
    var cur := s.locks[target].owner;
    var depth := 0;
    found := false;
    while depth < DEADLOCK_MAX_DEPTH && cur.Some?
      invariant 0 <= depth <= DEADLOCK_MAX_DEPTH
      invariant cur == OnPath(s, target, depth) && (cur.Some? ==> cur.value in s.trxs)
      invariant forall d :: 0 <= d < depth ==> OnPath(s, target, d) != Some(requestor)
    {
      if cur.value == requestor {
        return true;
      }
      var curWaiting := s.trxs[cur.value].waitingOn;
      assert OnPath(s, target, depth + 1) == Succ(s, cur.value);
      if curWaiting.None? {
        PathEnds(s, target, depth + 1);
        return false;
      }
      cur := s.locks[curWaiting.value].owner;
      depth := depth + 1;
    }
    if cur.None? { PathEnds(s, target, depth); }
  }

  // The transaction `d` hops past the owner of `l`.
  function OnPath(s: State, l: LockId, d: nat): Option<TrxId>
    requires l in s.locks
  {
    if s.locks[l].owner.Some? then After(s, s.locks[l].owner.value, d) else None
  }

  lemma PathEnds(s: State, l: LockId, n: nat)
    requires l in s.locks && OnPath(s, l, n) == None
    ensures forall d: nat :: d >= n ==> OnPath(s, l, d) == None
  {
    if s.locks[l].owner.Some? {
      forall d: nat | d >= n ensures OnPath(s, l, d) == None { StopsAt(s, s.locks[l].owner.value, n, d); }
    }
  }

  lemma {:induction false} StopsAt(s: State, t: TrxId, n: nat, d: nat)
    requires After(s, t, n) == None && d >= n
    ensures After(s, t, d) == None
  {
    if d > n { StopsAt(s, t, n, d - 1); }
  }

  function Freed(lock: Lock): Lock {
    lock.(ownerTxnId := 0, owner := None, heldNext := None)
  }

  // The lock table once `t` has given up everything.
  function Released(locks: map<LockId, Lock>, t: TrxId): map<LockId, Lock> {
    map l | l in locks :: if locks[l].owner == Some(t) then Freed(locks[l]) else locks[l]
  }

  /** A transaction's held list over the lock entries. */
  class Holder {
    var locks: map<LockId, Lock>
    var heldHead: Option<LockId>
    var waitingOn: Option<LockId>

    // `q` is the held list of `t`: exactly the entries it owns.
    ghost predicate Holds(t: TrxId, q: seq<LockId>)
      reads this
    {
      && Chain(locks, heldHead, q)
      && (forall l :: l in q <==> l in locks && locks[l].owner == Some(t))
    }

    /** The claim at the end of row_lock_acquire. */
    method Claim(t: TrxId, l: LockId, ghost q: seq<LockId>)
      requires Holds(t, q) && l in locks && locks[l].owner == None
      modifies this
      ensures Holds(t, [l] + q) && waitingOn == old(waitingOn)
      ensures locks == old(locks)[l := old(locks)[l].(ownerTxnId := LOCK_TXN_ID, owner := Some(t), heldNext := old(heldHead))]
    {
      var lock := locks[l].(ownerTxnId := LOCK_TXN_ID, owner := Some(t), heldNext := heldHead);
      ChainFrame(locks, locks[l := lock], heldHead, q);
      locks := locks[l := lock];
      heldHead := Some(l);
      assert ([l] + q)[1..] == q;
    }

    /** row_locks_release_all: every entry the transaction owned is free, the
        entries with waiters are broadcast, no other entry is touched. */
    method ReleaseAll(t: TrxId, ghost q: seq<LockId>) returns (woken: set<LockId>)
      requires Holds(t, q)
      modifies this
      ensures Holds(t, []) && heldHead == None && waitingOn == None
      ensures locks == Released(old(locks), t)
      ensures woken == set l | l in old(locks) && old(locks)[l].owner == Some(t) && old(locks)[l].waiters > 0
    {
      var lock := heldHead;
      ghost var rest := q;
      woken := {};
      while lock.Some?
        invariant locks.Keys == old(locks).Keys && Chain(locks, lock, rest)
        invariant forall l :: l in rest ==> l in q
        invariant forall l :: l in locks ==> locks[l] == if l in q && l !in rest then Freed(old(locks)[l]) else old(locks)[l]
        invariant forall l :: l in woken <==> l in q && l !in rest && old(locks)[l].waiters > 0
        decreases |rest|
      {
        var l := lock.value;
        var next := locks[l].heldNext;
        assert rest == [l] + rest[1..];
        ChainFrame(locks, locks[l := Freed(locks[l])], next, rest[1..]);
        locks := locks[l := Freed(locks[l])];
        if locks[l].waiters > 0 { woken := woken + {l}; }
        lock := next;
        rest := rest[1..];
      }
      heldHead := None;
      waitingOn := None;
    }
  }

  // ----- The loop and the steps -----

  predicate NoMutexHeld(s: State) {
    forall u :: u in s.trxs ==> !HoldsMutex(s.trxs[u].pc)
  }

  lemma ReleaseOneStep(hash: Hash, s: State, t: TrxId, q: seq<LockId>, closing: bool)
    requires t in s.trxs && q != [] && s.trxs[t].pc == Releasing(Some(q[0]), closing) && NoMutexHeld(s)
    requires Chain(s.locks, Some(q[0]), q) && forall l :: l in q <==> l in s.locks && s.locks[l].owner == Some(t)
    ensures Enabled(hash, s, ReleaseOne(t))
    ensures var s' := Apply(hash, s, ReleaseOne(t));
            && t in s'.trxs && s'.trxs[t].pc == Releasing(s.locks[q[0]].heldNext, closing) && NoMutexHeld(s')
            && s'.locks == s.locks[q[0] := Freed(s.locks[q[0]])]
  {
    assert q[0] in q;
  }

  /** Taken without interference, the release steps of the machine leave the lock table
      as the loop of ReleaseAll does. */
  lemma {:induction false} ReleaseSteps(hash: Hash, s: State, t: TrxId, q: seq<LockId>, closing: bool) returns (steps: seq<Step>)
    requires t in s.trxs && s.trxs[t].pc.Releasing? && s.trxs[t].pc.closing == closing && NoMutexHeld(s)
    requires Chain(s.locks, s.trxs[t].pc.next, q) && forall l :: l in q <==> l in s.locks && s.locks[l].owner == Some(t)
    ensures Runs(hash, s, steps) && Final(hash, s, steps).locks == Released(s.locks, t)
    ensures t in Final(hash, s, steps).trxs && Final(hash, s, steps).trxs[t].pc == Releasing(None, closing)
    decreases |q|
  {
    if q == [] {
      assert Released(s.locks, t) == s.locks;
      steps := [];
    } else {
      var l, rest := q[0], q[1..];
      assert q == [l] + rest;
      ReleaseOneStep(hash, s, t, q, closing);
      var s' := Apply(hash, s, ReleaseOne(t));
      ChainFrame(s.locks, s'.locks, s.locks[l].heldNext, rest);
      var more := ReleaseSteps(hash, s', t, rest, closing);
      steps := [ReleaseOne(t)] + more;
      assert steps[1..] == more;
      assert Released(s'.locks, t) == Released(s.locks, t);
    }
  }

  // The walk moves nothing but its own program counter.
  lemma WalkMoves(hash: Hash, s: State, t: TrxId, pc: Pc)
    requires t in s.trxs && pc.Walking? && (pc.cursor.Hop? ==> pc.cursor.waiting in s.locks)
    requires pc.cursor.At? && pc.cursor.cur.Some? ==> pc.cursor.cur.value in s.trxs
    ensures var here := SetPc(s, t, pc);
            && Enabled(hash, here, WalkOn(t))
            && Apply(hash, here, WalkOn(t)) == SetPc(s, t, WalkFrom(here, t))
  {
    var here := SetPc(s, t, pc);
    assert here.trxs[t := here.trxs[t].(pc := WalkFrom(here, t))] == SetPc(s, t, WalkFrom(here, t)).trxs;
  }

  // Whether the walk from depth `d` on meets the requestor.
  ghost predicate Meets(s: State, l: LockId, t: TrxId, d: nat)
    requires l in s.locks
  {
    exists e :: d <= e < DEADLOCK_MAX_DEPTH && OnPath(s, l, e) == Some(t)
  }

  /** Taken without interference, the walking steps of the machine reach the verdict
      WouldDeadlock gives. */
  lemma {:induction false} WalkSteps(hash: Hash, s: State, t: TrxId, l: LockId, inWait: bool, d: nat) returns (steps: seq<Step>)
    requires Owners(s) && t in s.trxs && l in s.locks && d <= DEADLOCK_MAX_DEPTH
    requires forall u :: u in s.trxs && s.trxs[u].waitingOn.Some? ==> s.trxs[u].waitingOn.value in s.locks
    requires OnPath(s, l, d).Some? ==> OnPath(s, l, d).value in s.trxs
    ensures var here := SetPc(s, t, Walking(l, inWait, d, At(OnPath(s, l, d))));
            Runs(hash, here, steps) && Final(hash, here, steps) == SetPc(s, t, Walked(l, inWait, Meets(s, l, t, d)))
    decreases DEADLOCK_MAX_DEPTH - d
  {
    var cur := OnPath(s, l, d);
    var pc := Walking(l, inWait, d, At(cur));
    var here := SetPc(s, t, pc);
    WalkMoves(hash, s, t, pc);
    if d == DEADLOCK_MAX_DEPTH || cur.None? || cur == Some(t) || s.trxs[cur.value].waitingOn.None? {
      steps := [WalkOn(t)];
      WalkEnds(s, t, l, d);
      assert steps[1..] == [];
    } else {
      var k := s.trxs[cur.value].waitingOn.value;
      var hop := Walking(l, inWait, d, Hop(k));
      WalkMoves(hash, s, t, hop);
      assert OnPath(s, l, d + 1) == s.locks[k].owner;
      var more := WalkSteps(hash, s, t, l, inWait, d + 1);
      var there := SetPc(s, t, hop);
      steps := [WalkOn(t)] + ([WalkOn(t)] + more);
      assert steps[1..] == [WalkOn(t)] + more && ([WalkOn(t)] + more)[1..] == more;
      assert Runs(hash, there, [WalkOn(t)] + more);
      assert Meets(s, l, t, d) <==> Meets(s, l, t, d + 1);
    }
  }

  lemma WalkEnds(s: State, t: TrxId, l: LockId, d: nat)
    requires l in s.locks && d <= DEADLOCK_MAX_DEPTH
    requires OnPath(s, l, d).Some? ==> OnPath(s, l, d).value in s.trxs
    requires var cur := OnPath(s, l, d);
             d == DEADLOCK_MAX_DEPTH || cur.None? || cur == Some(t) || s.trxs[cur.value].waitingOn.None?
    ensures Meets(s, l, t, d) <==> d < DEADLOCK_MAX_DEPTH && OnPath(s, l, d) == Some(t)
  {
    var cur := OnPath(s, l, d);
    if d < DEADLOCK_MAX_DEPTH && cur.None? {
      PathEnds(s, l, d);
    } else if d < DEADLOCK_MAX_DEPTH && cur != Some(t) {
      assert OnPath(s, l, d + 1) == None;
      PathEnds(s, l, d + 1);
    }
  }
}
