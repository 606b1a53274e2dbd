/** What an acquire that returns success gives its caller, over every run: the keys a
    transaction was granted since it last released are exactly the keys it owns. */
module RowLockGrants {
  import opened ByteOrder
  import opened RowLock
  import opened RowLockSafety
  import opened RowLockRuns

  // ----- One step -----

  // The step returns success from row_lock_acquire.
  predicate Grants(hash: Hash, s: State, st: Step)
    requires Enabled(hash, s, st)
  {
    (st.Acquire? && Apply(hash, s, st).trxs[st.t].pc.Idle?) || st.ClearClaimed? || st.StoreOwner?
  }

  // It returns an error: a kill, or a deadlock verdict before or during the wait.
  predicate Refuses(hash: Hash, s: State, st: Step)
    requires Enabled(hash, s, st)
  {
    (st.LeaveLoop? && st.killed) || ((st.Resume? || st.Settle?) && s.trxs[st.t].pc.deadlock)
  }

  // The entry the step's transaction is after.
  function LockOf(s: State, st: Step): Option<LockId> {
    if st.Acquire? then Some(st.lock)
    else if st.t in s.trxs && (Waits(s.trxs[st.t].pc) || s.trxs[st.t].pc.Claimed? || s.trxs[st.t].pc.Claiming?) then Some(s.trxs[st.t].pc.lock)
    else None
  }

  // What the lemmas about a transaction's own step need of the invariant.
  ghost predicate Mine(hash: Hash, s: State, st: Step) {
    Enabled(hash, s, st) && Owners(s) && (st.t in s.trxs ==> PcOk(s, st.t))
  }

  /** An acquire that returns success owns its entry. */
  lemma GrantOwns(hash: Hash, s: State, st: Step)
    requires Mine(hash, s, st) && Grants(hash, s, st)
    ensures var s' := Apply(hash, s, st);
            && st.t in s'.trxs && s'.trxs[st.t].pc.Idle? && LockOf(s, st).Some? && Owns(s', st.t, LockOf(s, st).value)
            && (st.Acquire? ==> s'.locks[st.lock].pk == st.pk)
  {
  }

  /** An acquire is answered at once exactly when the entry is free or already its own, and
      so is a free entry found after the walk; otherwise it waits for the entry. */
  lemma AnsweredAtOnce(hash: Hash, s: State, st: Step)
    requires Mine(hash, s, st)
    ensures st.Acquire? ==>
              (Grants(hash, s, st) <==> (st.lock in s.locks ==> s.locks[st.lock].owner.None? || s.locks[st.lock].owner == Some(st.t)))
    ensures st.Acquire? && !Grants(hash, s, st) ==> Apply(hash, s, st).trxs[st.t].waitingOn == Some(st.lock)
    ensures st.Resume? && !s.trxs[st.t].pc.deadlock ==>
              (Owns(Apply(hash, s, st), st.t, s.trxs[st.t].pc.lock) <==> s.locks[s.trxs[st.t].pc.lock].owner.None?)
  {
  }

  /** The only ways back to the caller: a new connection, success, a kill or a deadlock
      verdict, and the end of a release that does not close. */
  lemma WaysToIdle(hash: Hash, s: State, st: Step)
    requires Mine(hash, s, st)
    ensures var s' := Apply(hash, s, st);
            (st.t in s'.trxs && s'.trxs[st.t].pc.Idle?) <==>
              st.Create? || Grants(hash, s, st) || Refuses(hash, s, st) || (st.EndRelease? && !s.trxs[st.t].pc.closing)
  {
  }

  // An entry keeps its key.
  lemma KeyStays(hash: Hash, s: State, st: Step, l: LockId)
    requires Enabled(hash, s, st) && l in s.locks
    ensures l in Apply(hash, s, st).locks && Apply(hash, s, st).locks[l].pk == s.locks[l].pk
  {
  }

  // ----- The account of a run -----

  // The key a transaction last asked for, and those it was granted since it last
  // began to release.
  datatype Book = Book(asked: Bytes, granted: set<Bytes>)

  const BLANK := Book([], {})

  function Tell(hash: Hash, s: State, b: Book, st: Step, t: TrxId): Book
    requires Enabled(hash, s, st)
  {
    if st.t != t then b
    else if st.Create? then BLANK
    else if st.StartRelease? then b.(granted := {})
    else
      var asked := if st.Acquire? then st.pk else b.asked;
      Book(asked, if Grants(hash, s, st) then b.granted + {asked} else b.granted)
  }

  ghost predicate OwnsKey(s: State, t: TrxId, pk: Bytes) {
    exists l :: Owns(s, t, l) && s.locks[l].pk == pk
  }

  // In the middle of an acquire: the entry has the key asked for.
  ghost predicate Asking(s: State, t: TrxId, asked: Bytes)
    requires t in s.trxs
  {
    var pc := s.trxs[t].pc;
    Waits(pc) || pc.Claimed? || pc.Claiming? ==> pc.lock in s.locks && s.locks[pc.lock].pk == asked
  }

  // The key whose owner is stored although the call has not returned.
  ghost predicate Taking(s: State, t: TrxId, pk: Bytes)
    requires t in s.trxs
  {
    s.trxs[t].pc.Claimed? && s.trxs[t].pc.lock in s.locks && s.locks[s.trxs[t].pc.lock].pk == pk
  }

  predicate Leaving(pc: Pc) { pc.Releasing? || pc.Closing? }

  ghost predicate OnBook(s: State, b: Book, t: TrxId) {
    t in s.trxs ==>
      && Asking(s, t, b.asked)
      && (if Leaving(s.trxs[t].pc) then b.granted == {}
          else forall pk :: OwnsKey(s, t, pk) <==> pk in b.granted || Taking(s, t, pk))
  }

  // Another transaction's step.
  lemma OtherOwns(hash: Hash, s: State, h: map<TrxId, seq<LockId>>, st: Step, t: TrxId, l: LockId)
    requires Entries(hash, s) && Owners(s) && Pcs(s) && Held(s, h) && Enabled(hash, s, st) && t != st.t
    ensures Owns(Apply(hash, s, st), t, l) <==> Owns(s, t, l)
  {
    if l in s.locks && s.locks[l].owner.Some? {
      GivesUpOwn(hash, s, h, st, l);
    } else if l in Apply(hash, s, st).locks {
      Moves(hash, s, st, l);
    }
  }

  lemma SameKeys(s: State, s': State, t: TrxId)
    requires forall l :: Owns(s', t, l) <==> Owns(s, t, l)
    requires forall l :: l in s.locks ==> l in s'.locks && s'.locks[l].pk == s.locks[l].pk
    ensures forall pk :: OwnsKey(s', t, pk) <==> OwnsKey(s, t, pk)
  {
    forall pk ensures OwnsKey(s', t, pk) <==> OwnsKey(s, t, pk) {
      if OwnsKey(s, t, pk) {
        var l :| Owns(s, t, l) && s.locks[l].pk == pk;
        assert Owns(s', t, l);
      }
      if OwnsKey(s', t, pk) {
        var l :| Owns(s', t, l) && s'.locks[l].pk == pk;
        assert Owns(s, t, l);
      }
    }
  }

  lemma OtherBook(hash: Hash, s: State, b: Book, st: Step, t: TrxId)
    requires Inv(hash, s) && Enabled(hash, s, st) && OnBook(s, b, t) && t != st.t
    ensures OnBook(Apply(hash, s, st), b, t)
  {
    OthersStay(hash, s, st, t);
    if t in s.trxs {
      OtherKeys(hash, s, st, t);
      SameBook(s, Apply(hash, s, st), b, t);
    }
  }

  lemma SameBook(s: State, s': State, b: Book, t: TrxId)
    requires OnBook(s, b, t) && t in s.trxs && t in s'.trxs && (forall pk :: OwnsKey(s', t, pk) <==> OwnsKey(s, t, pk))
    requires forall l :: l in s.locks ==> l in s'.locks && s'.locks[l].pk == s.locks[l].pk
    requires s'.trxs[t].pc == s.trxs[t].pc || (s.trxs[t].pc.Asleep? && s'.trxs[t].pc == Asleep(s.trxs[t].pc.lock, true))
    ensures OnBook(s', b, t)
  {
    if !Leaving(s.trxs[t].pc) {
      forall pk ensures Taking(s', t, pk) <==> Taking(s, t, pk) { assert Asking(s, t, b.asked); }
    }
  }

  lemma OtherKeys(hash: Hash, s: State, st: Step, t: TrxId)
    requires Inv(hash, s) && Enabled(hash, s, st) && t != st.t
    ensures var s' := Apply(hash, s, st);
            && (forall pk :: OwnsKey(s', t, pk) <==> OwnsKey(s, t, pk))
            && (forall l :: l in s.locks ==> l in s'.locks && s'.locks[l].pk == s.locks[l].pk)
  {
    var s' := Apply(hash, s, st);
    var h :| Held(s, h);
    forall l ensures Owns(s', t, l) <==> Owns(s, t, l) { OtherOwns(hash, s, h, st, t, l); }
    forall l | l in s.locks ensures l in s'.locks && s'.locks[l].pk == s.locks[l].pk { KeyStays(hash, s, st, l); }
    SameKeys(s, s', t);
  }

  // The steps that store an owner.
  predicate Stores(hash: Hash, s: State, st: Step)
    requires Enabled(hash, s, st)
  {
    || (st.Acquire? && (st.lock in s.locks ==> s.locks[st.lock].ownerTxnId == 0))
    || (st.Resume? && !s.trxs[st.t].pc.deadlock && s.locks[s.trxs[st.t].pc.lock].ownerTxnId == 0)
    || st.StoreOwner?
  }

  // What the step's own transaction owns after it.
  lemma OwnOwns(hash: Hash, s: State, st: Step, l: LockId)
    requires Mine(hash, s, st) && st.t in s.trxs && !st.ReleaseOne? && !st.Free?
    ensures Owns(Apply(hash, s, st), st.t, l) <==> Owns(s, st.t, l) || (Stores(hash, s, st) && LockOf(s, st) == Some(l))
  {
  }

  lemma OwnKeys(hash: Hash, s: State, st: Step, pk: Bytes)
    requires Mine(hash, s, st) && st.t in s.trxs && !st.ReleaseOne? && !st.Free?
    ensures var s', l := Apply(hash, s, st), LockOf(s, st);
            && (Stores(hash, s, st) ==> l.Some? && l.value in s'.locks)
            && (OwnsKey(s', st.t, pk) <==> OwnsKey(s, st.t, pk) || (Stores(hash, s, st) && s'.locks[l.value].pk == pk))
  {
    var s', l := Apply(hash, s, st), LockOf(s, st);
    if OwnsKey(s, st.t, pk) {
      var k :| Owns(s, st.t, k) && s.locks[k].pk == pk;
      KeyStays(hash, s, st, k);
      OwnOwns(hash, s, st, k);
    }
    if Stores(hash, s, st) && s'.locks[l.value].pk == pk { OwnOwns(hash, s, st, l.value); }
    if OwnsKey(s', st.t, pk) {
      var k :| Owns(s', st.t, k) && s'.locks[k].pk == pk;
      OwnOwns(hash, s, st, k);
      if Owns(s, st.t, k) { KeyStays(hash, s, st, k); }
    }
  }

  // The program counter's part of the account.
  lemma OwnAsking(hash: Hash, s: State, b: Book, st: Step)
    requires Mine(hash, s, st) && st.t in s.trxs && Asking(s, st.t, b.asked) && !st.Free?
    ensures Asking(Apply(hash, s, st), st.t, Tell(hash, s, b, st, st.t).asked)
  {
    var pc' := Apply(hash, s, st).trxs[st.t].pc;
    if Waits(pc') || pc'.Claimed? || pc'.Claiming? {
      assert LockOf(s, st) == Some(pc'.lock);
      if pc'.lock in s.locks { KeyStays(hash, s, st, pc'.lock); }
    }
  }

  lemma EndOwnsNothing(hash: Hash, s: State, st: Step, pk: Bytes)
    requires Enabled(hash, s, st) && st.EndRelease? && forall l :: !Owns(s, st.t, l)
    ensures !OwnsKey(Apply(hash, s, st), st.t, pk)
  {
    assert forall l :: Owns(Apply(hash, s, st), st.t, l) ==> Owns(s, st.t, l);
  }

  lemma EndedOwnsNothing(s: State, h: map<TrxId, seq<LockId>>, t: TrxId)
    requires Held(s, h) && t in s.trxs && s.trxs[t].pc.Releasing? && s.trxs[t].pc.next.None?
    ensures forall l :: !Owns(s, t, l)
  {
    assert Chain(s.locks, None, h[t]) && h[t] == [];
  }

  // The key of the entry a granting step is after is the one asked for, and the step has
  // the entry already or stores it.
  lemma GrantedKey(hash: Hash, s: State, b: Book, st: Step)
    requires Mine(hash, s, st) && st.t in s.trxs && Asking(s, st.t, b.asked) && Grants(hash, s, st)
    ensures var s', l := Apply(hash, s, st), LockOf(s, st);
            && l.Some? && l.value in s'.locks && s'.locks[l.value].pk == Tell(hash, s, b, st, st.t).asked
            && (Stores(hash, s, st) || Owns(s, st.t, l.value))
  {
    GrantOwns(hash, s, st);
  }

  lemma StaysIn(hash: Hash, s: State, st: Step)
    requires Mine(hash, s, st) && st.t in s.trxs && !Leaving(s.trxs[st.t].pc) && !st.StartRelease?
    ensures !st.ReleaseOne? && !st.EndRelease? && !st.Free? && !st.Create?
    ensures st.t in Apply(hash, s, st).trxs && !Leaving(Apply(hash, s, st).trxs[st.t].pc)
  {
  }

  lemma OwnBook(hash: Hash, s: State, b: Book, st: Step)
    requires Mine(hash, s, st) && st.t in s.trxs && OnBook(s, b, st.t)
    requires !Leaving(s.trxs[st.t].pc) && !st.StartRelease?
    ensures OnBook(Apply(hash, s, st), Tell(hash, s, b, st, st.t), st.t)
  {
    var s', b' := Apply(hash, s, st), Tell(hash, s, b, st, st.t);
    StaysIn(hash, s, st);
    OwnAsking(hash, s, b, st);
    forall pk ensures OwnsKey(s', st.t, pk) <==> pk in b'.granted || Taking(s', st.t, pk) {
      if Grants(hash, s, st) { GrantedKeys(hash, s, b, st, pk); } else { PassingKeys(hash, s, b, st, pk); }
    }
  }

  // A step that returns success.
  lemma GrantedKeys(hash: Hash, s: State, b: Book, st: Step, pk: Bytes)
    requires Mine(hash, s, st) && st.t in s.trxs && OnBook(s, b, st.t)
    requires !Leaving(s.trxs[st.t].pc) && Grants(hash, s, st)
    ensures OwnsKey(Apply(hash, s, st), st.t, pk) <==>
              pk in Tell(hash, s, b, st, st.t).granted || Taking(Apply(hash, s, st), st.t, pk)
  {
    GrantedKey(hash, s, b, st);
    GrantOwns(hash, s, st);
    OwnKeys(hash, s, st, pk);
  }

  // A step that does not return: the owner may be stored on the way.
  lemma PassingKeys(hash: Hash, s: State, b: Book, st: Step, pk: Bytes)
    requires Mine(hash, s, st) && st.t in s.trxs && OnBook(s, b, st.t)
    requires !Leaving(s.trxs[st.t].pc) && !Grants(hash, s, st) && !st.StartRelease?
    ensures OwnsKey(Apply(hash, s, st), st.t, pk) <==>
              pk in Tell(hash, s, b, st, st.t).granted || Taking(Apply(hash, s, st), st.t, pk)
  {
    OwnKeys(hash, s, st, pk);
  }

  lemma LeavingBook(hash: Hash, s: State, b: Book, st: Step)
    requires Mine(hash, s, st) && st.t in s.trxs && OnBook(s, b, st.t) && (Leaving(s.trxs[st.t].pc) || st.StartRelease?)
    requires s.trxs[st.t].pc.Releasing? && s.trxs[st.t].pc.next.None? ==> forall l :: !Owns(s, st.t, l)
    ensures OnBook(Apply(hash, s, st), Tell(hash, s, b, st, st.t), st.t)
  {
    if st.EndRelease? {
      forall pk ensures !OwnsKey(Apply(hash, s, st), st.t, pk) { EndOwnsNothing(hash, s, st, pk); }
    }
  }

  lemma NewOwnsNothing(hash: Hash, s: State, t: TrxId, pk: Bytes)
    requires Owners(s) && t !in s.trxs
    ensures !OwnsKey(Apply(hash, s, Create(t)), t, pk)
  {
    assert forall l :: !Owns(s, t, l);
  }

  lemma StepBook(hash: Hash, s: State, b: Book, st: Step, t: TrxId)
    requires Inv(hash, s) && Enabled(hash, s, st) && OnBook(s, b, t)
    ensures OnBook(Apply(hash, s, st), Tell(hash, s, b, st, t), t)
  {
    if st.t != t {
      OtherBook(hash, s, b, st, t);
    } else if st.Create? {
      forall pk ensures !OwnsKey(Apply(hash, s, st), t, pk) { NewOwnsNothing(hash, s, t, pk); }
    } else if Leaving(s.trxs[t].pc) || st.StartRelease? {
      assert Mine(hash, s, st);
      var h :| Held(s, h);
      if s.trxs[t].pc.Releasing? && s.trxs[t].pc.next.None? { EndedOwnsNothing(s, h, t); }
      LeavingBook(hash, s, b, st);
    } else {
      assert Mine(hash, s, st);
      OwnBook(hash, s, b, st);
    }
  }

  ghost function Told(hash: Hash, s: State, b: Book, steps: seq<Step>, t: TrxId): Book
    requires Runs(hash, s, steps)
    decreases |steps|
  {
    if steps == [] then b else Told(hash, Apply(hash, s, steps[0]), Tell(hash, s, b, steps[0], t), steps[1..], t)
  }

  lemma {:induction false} RunBook(hash: Hash, s: State, b: Book, steps: seq<Step>, t: TrxId)
    requires Inv(hash, s) && Runs(hash, s, steps) && OnBook(s, b, t)
    ensures OnBook(Final(hash, s, steps), Told(hash, s, b, steps, t), t)
    decreases |steps|
  {
    if steps != [] {
      StepInv(hash, s, steps[0]);
      StepBook(hash, s, b, steps[0], t);
      RunBook(hash, Apply(hash, s, steps[0]), Tell(hash, s, b, steps[0], t), steps[1..], t);
    }
  }

  // ----- What it means for the callers -----

  /** After any run, a transaction that is back with its caller owns exactly the keys its
      acquires returned success for since it last released. */
  lemma GrantedIsOwned(hash: Hash, steps: seq<Step>, t: TrxId, pk: Bytes)
    requires Runs(hash, Init, steps)
    ensures var s := Final(hash, Init, steps);
            t in s.trxs && s.trxs[t].pc.Idle? ==> (OwnsKey(s, t, pk) <==> pk in Told(hash, Init, BLANK, steps, t).granted)
  {
    InitInv(hash);
    RunBook(hash, Init, BLANK, steps, t);
  }

  /** Two transactions never both hold a grant of one key. */
  lemma GrantsExclude(hash: Hash, steps: seq<Step>, t: TrxId, u: TrxId, pk: Bytes)
    requires Runs(hash, Init, steps) && t != u
    ensures var s := Final(hash, Init, steps);
            t in s.trxs && u in s.trxs && pk in Told(hash, Init, BLANK, steps, t).granted ==>
              pk !in Told(hash, Init, BLANK, steps, u).granted
  {
    InitInv(hash);
    RunBook(hash, Init, BLANK, steps, t);
    RunBook(hash, Init, BLANK, steps, u);
    var s := Final(hash, Init, steps);
    if t in s.trxs && u in s.trxs && OwnsKey(s, t, pk) && OwnsKey(s, u, pk) {
      var l :| Owns(s, t, l) && s.locks[l].pk == pk;
      var k :| Owns(s, u, k) && s.locks[k].pk == pk;
      OneOwnerPerKey(hash, s, t, u, l, k);
    }
  }

  /** A sleeper whose entry is free, and its partition, takes it in three steps of its own. */
  lemma SleeperTakesFree(hash: Hash, s: State, t: TrxId, l: LockId, steps: seq<Step>)
    requires Owners(s) && t in s.trxs && PcOk(s, t) && s.trxs[t].pc.Asleep? && s.trxs[t].pc.lock == l && LockMutexFree(s, l)
    requires s.locks[l].waiters == |WaitSet(s, l)| && s.locks[l].owner.None?
    requires steps == [Wake(t)] + ([LeaveLoop(t, false)] + [StoreOwner(t)])
    ensures Runs(hash, s, steps)
    ensures var s' := Final(hash, s, steps); Owns(s', t, l) && t in s'.trxs && s'.trxs[t].pc.Idle?
  {
    assert t in WaitSet(s, l);
    var s1 := Apply(hash, s, Wake(t));
    var s2 := Apply(hash, s1, LeaveLoop(t, false));
    RunFirst(hash, s2, StoreOwner(t), []);
    assert [StoreOwner(t)] + [] == [StoreOwner(t)];
    RunFirst(hash, s1, LeaveLoop(t, false), [StoreOwner(t)]);
    RunFirst(hash, s, Wake(t), [LeaveLoop(t, false)] + [StoreOwner(t)]);
  }

  lemma RunFirst(hash: Hash, s: State, st: Step, steps: seq<Step>)
    requires Enabled(hash, s, st) && Runs(hash, Apply(hash, s, st), steps)
    ensures Runs(hash, s, [st] + steps) && Final(hash, s, [st] + steps) == Final(hash, Apply(hash, s, st), steps)
  {
    assert ([st] + steps)[1..] == steps;
  }
}
