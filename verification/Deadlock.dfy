/** Deadlock detection: no wait-for cycle of at most DEADLOCK_MAX_DEPTH
    transactions is ever wholly asleep.

    Only publishing a wait can close a cycle, because a claimer waits for
    nobody. The publisher then walks, and as long as the cycle stands none of
    its edges can move under the walker: every member waits, and a waiting
    transaction releases nothing. So some member is always still on its way to
    the verdict ("hot"). */
module Deadlock {
  import opened ByteOrder
  import opened RowLock
  import opened RowLockSafety

  // The transaction `t` waits for, as the walker reads it.
  function Succ(s: State, t: TrxId): Option<TrxId> {
    if t in s.trxs && s.trxs[t].waitingOn.Some? && s.trxs[t].waitingOn.value in s.locks
    then s.locks[s.trxs[t].waitingOn.value].owner else None
  }

  function After(s: State, t: TrxId, n: nat): Option<TrxId> {
    if n == 0 then Some(t)
    else
      var u := After(s, t, n - 1);
      if u.Some? then Succ(s, u.value) else None
  }

  // `n` hops along the wait-for graph lead from `t` back to `t`.
  predicate Cycle(s: State, t: TrxId, n: nat) {
    n >= 1 && After(s, t, n) == Some(t)
  }

  // `w`, on a cycle of length `n`, has not finished the walk that will find it,
  // or has found it and not yet left, or is clearing a wait it has satisfied.
  predicate Hot(s: State, w: TrxId, n: nat) {
    && w in s.trxs
    && match s.trxs[w].pc
       case Published(_) => true
       case Walking(_, _, d, At(c)) => d < n && c == After(s, w, d + 1)
       case Walking(_, _, d, Hop(k)) =>
         d + 1 < n && After(s, w, d + 1).Some? && After(s, w, d + 1).value in s.trxs &&
         s.trxs[After(s, w, d + 1).value].waitingOn == Some(k)
       case Walked(_, _, deadlock) => deadlock
       case Claimed(_) => true
       case _ => false
  }

  predicate HotAt(s: State, t: TrxId, n: nat, i: nat) {
    After(s, t, i).Some? && Hot(s, After(s, t, i).value, n)
  }

  predicate HasHot(s: State, t: TrxId, n: nat) {
    exists i :: 0 <= i < n && HotAt(s, t, n, i)
  }

  ghost predicate CyclesHot(s: State) {
    forall t, n :: 1 <= n <= DEADLOCK_MAX_DEPTH && Cycle(s, t, n) ==> HasHot(s, t, n)
  }

  lemma {:induction false} AfterAdd(s: State, t: TrxId, a: nat, b: nat)
    requires After(s, t, a).Some?
    ensures After(s, t, a + b) == After(s, After(s, t, a).value, b)
  {
    if b > 0 { AfterAdd(s, t, a, b - 1); }
  }

  lemma {:induction false} PrefixSome(s: State, t: TrxId, n: nat, i: nat)
    requires i <= n && After(s, t, n).Some?
    ensures After(s, t, i).Some?
    ensures i < n ==> Succ(s, After(s, t, i).value) == After(s, t, i + 1)
    decreases n - i
  {
    if i < n { PrefixSome(s, t, n, i + 1); }
  }

  // Every member of a cycle is on it with the same length.
  lemma Rotate(s: State, t: TrxId, n: nat, i: nat)
    requires Cycle(s, t, n) && i < n
    ensures After(s, t, i).Some? && Cycle(s, After(s, t, i).value, n)
  {
    PrefixSome(s, t, n, i);
    AfterAdd(s, t, i, n - i);
    AfterAdd(s, After(s, t, i).value, n - i, i);
  }

  // Edges that agree along a cycle give the same walk.
  lemma {:induction false} AfterSame(s: State, s': State, t: TrxId, n: nat)
    requires forall i :: 0 <= i < n && After(s', t, i).Some?
               ==> Succ(s, After(s', t, i).value) == Succ(s', After(s', t, i).value)
    ensures After(s, t, n) == After(s', t, n)
  {
    if n > 0 { AfterSame(s, s', t, n - 1); }
  }

  // How an edge out of `u` can be new: `u` has just published its wait, or the
  // edge ends at a transaction that has just claimed the lock and so waits for
  // nobody but, for one step, itself.
  predicate Fresh(s: State, u: TrxId, x: TrxId) {
    || (u == x && x in s.trxs && s.trxs[x].pc.Published?)
    || (Succ(s, u) == Some(x) && x in s.trxs && (Succ(s, x) == None || s.trxs[x].pc.Claimed?))
  }

  lemma NewEdge(hash: Hash, s: State, st: Step, u: TrxId)
    requires Entries(hash, s) && Owners(s) && Pcs(s) && Enabled(hash, s, st)
    requires Succ(Apply(hash, s, st), u).Some? && Succ(Apply(hash, s, st), u) != Succ(s, u)
    ensures Fresh(Apply(hash, s, st), u, st.t)
  {
    var s' := Apply(hash, s, st);
    if st.t in s.trxs { assert PcOk(s, st.t); }
    if u in s.trxs { assert PcOk(s, u); }
    if u != st.t {
      OthersStay(hash, s, st, u);
    }
    Moves(hash, s, st, s'.trxs[u].waitingOn.value);
  }

  lemma ClosedCycleHot(s: State, t: TrxId, n: nat, i: nat, x: TrxId)
    requires Cycle(s, t, n) && i < n && After(s, t, i).Some? && Fresh(s, After(s, t, i).value, x)
    ensures HasHot(s, t, n)
  {
    PrefixSome(s, t, n, i);
    var u := After(s, t, i).value;
    if u == x && s.trxs[x].pc.Published? {
      assert HotAt(s, t, n, i);
    } else {
      var j := if i + 1 < n then i + 1 else 0;
      PrefixSome(s, t, n, j);
      PrefixSome(s, t, n, j + 1);
      assert HotAt(s, t, n, j);
    }
  }

  ghost predicate EdgesStand(s: State, s': State, t: TrxId, n: nat) {
    forall i :: 0 <= i < n && After(s', t, i).Some? ==> Succ(s', After(s', t, i).value) == Succ(s, After(s', t, i).value)
  }

  ghost predicate WalksAgree(s: State, s': State, w: TrxId, n: nat) {
    forall k :: 0 <= k <= n ==> After(s, w, k) == After(s', w, k)
  }

  lemma RotatedEdgesStand(s: State, s': State, t: TrxId, n: nat, i: nat)
    requires Cycle(s', t, n) && i < n && EdgesStand(s, s', t, n) && After(s', t, i).Some?
    ensures WalksAgree(s, s', After(s', t, i).value, n)
  {
    var w := After(s', t, i).value;
    forall j | 0 <= j < n && After(s', w, j).Some?
      ensures Succ(s, After(s', w, j).value) == Succ(s', After(s', w, j).value)
    {
      AfterAdd(s', t, i, j);
      if i + j >= n { AfterAdd(s', t, n, i + j - n); }
    }
    forall k | 0 <= k <= n ensures After(s, w, k) == After(s', w, k) {
      AfterSame(s, s', w, k);
    }
  }

  // A cycle all of whose edges stood before the step had a hot member there.
  lemma StandingMember(s: State, s': State, t: TrxId, n: nat) returns (i: nat, w: TrxId)
    requires CyclesHot(s) && Cycle(s', t, n) && n <= DEADLOCK_MAX_DEPTH && EdgesStand(s, s', t, n)
    ensures i < n && After(s', t, i) == Some(w)
    ensures Hot(s, w, n) && Cycle(s, w, n) && Cycle(s', w, n) && WalksAgree(s, s', w, n)
  {
    AfterSame(s, s', t, n);
    assert Cycle(s, t, n);
    assert HasHot(s, t, n);
    i :| 0 <= i < n && HotAt(s, t, n, i);
    AfterSame(s, s', t, i);
    w := After(s, t, i).value;
    Rotate(s, t, n, i);
    Rotate(s', t, n, i);
    RotatedEdgesStand(s, s', t, n, i);
  }

  // A standing wait keeps its lock.
  lemma WaitStable(hash: Hash, s: State, st: Step, c: TrxId)
    requires Pcs(s) && Enabled(hash, s, st) && c in s.trxs && c in Apply(hash, s, st).trxs
    requires s.trxs[c].waitingOn.Some? && Apply(hash, s, st).trxs[c].waitingOn.Some?
    ensures Apply(hash, s, st).trxs[c].waitingOn == s.trxs[c].waitingOn
  {
    assert PcOk(s, c);
    if c != st.t { OthersStay(hash, s, st, c); }
  }

  lemma HotFrame(s: State, s': State, w: TrxId, n: nat)
    requires w in s.trxs && w in s'.trxs && s'.trxs[w].pc == s.trxs[w].pc
    requires Cycle(s', w, n) && Hot(s, w, n) && WalksAgree(s, s', w, n)
    requires forall c :: c in s.trxs && c in s'.trxs && s.trxs[c].waitingOn.Some? && s'.trxs[c].waitingOn.Some?
               ==> s'.trxs[c].waitingOn == s.trxs[c].waitingOn
    ensures Hot(s', w, n)
  {
    var pc := s.trxs[w].pc;
    if pc.Walking? {
      PrefixSome(s', w, n, pc.depth + 1);
      if pc.cursor.Hop? { PrefixSome(s', w, n, pc.depth + 2); }
    }
  }

  lemma OtherStepKeepsHot(hash: Hash, s: State, st: Step, w: TrxId, n: nat)
    requires Pcs(s) && Enabled(hash, s, st) && w != st.t
    requires Cycle(Apply(hash, s, st), w, n) && Hot(s, w, n) && WalksAgree(s, Apply(hash, s, st), w, n)
    ensures Hot(Apply(hash, s, st), w, n)
  {
    var s' := Apply(hash, s, st);
    OthersStay(hash, s, st, w);
    forall c | c in s.trxs && c in s'.trxs && s.trxs[c].waitingOn.Some? && s'.trxs[c].waitingOn.Some?
      ensures s'.trxs[c].waitingOn == s.trxs[c].waitingOn
    {
      WaitStable(hash, s, st, c);
    }
    HotFrame(s, s', w, n);
  }

  // One step of a walker that is following the cycle.
  lemma HotWalkStays(s: State, t: TrxId, n: nat)
    requires Owners(s) && t in s.trxs && s.trxs[t].pc.Walking? && EnabledFor(s, WalkOn(t))
    requires n <= DEADLOCK_MAX_DEPTH && Cycle(s, t, n) && Hot(s, t, n)
    ensures match WalkFrom(s, t)
            case Walking(_, _, d, At(c)) => d < n && c == After(s, t, d + 1)
            case Walking(_, _, d, Hop(k)) => d + 1 < n && After(s, t, d + 1).Some? &&
              After(s, t, d + 1).value in s.trxs && s.trxs[After(s, t, d + 1).value].waitingOn == Some(k)
            case Walked(_, _, deadlock) => deadlock
            case _ => false
  {
    var d := s.trxs[t].pc.depth;
    PrefixSome(s, t, n, d + 1);
    if d + 1 < n { PrefixSome(s, t, n, d + 2); }
  }

  lemma OwnStepKeepsHot(hash: Hash, s: State, st: Step, n: nat)
    requires Owners(s) && Pcs(s) && Enabled(hash, s, st) && st.t in s.trxs
    requires n <= DEADLOCK_MAX_DEPTH && Cycle(s, st.t, n) && Hot(s, st.t, n)
    requires Succ(Apply(hash, s, st), st.t).Some? && WalksAgree(s, Apply(hash, s, st), st.t, n)
    ensures Hot(Apply(hash, s, st), st.t, n)
  {
    var w := st.t;
    assert PcOk(s, w);
    if s.trxs[w].pc.Walking? {
      HotWalkStays(s, w, n);
      PrefixSome(s, w, n, s.trxs[w].pc.depth + 1);
    } else if s.trxs[w].pc.Published? {
      assert After(s, w, 0) == Some(w);
      assert After(s, w, 1) == Succ(s, w);
    }
  }

  lemma StandingCycleHot(hash: Hash, s: State, st: Step, t: TrxId, n: nat)
    requires Owners(s) && Pcs(s) && CyclesHot(s) && Enabled(hash, s, st) && n <= DEADLOCK_MAX_DEPTH
    requires Cycle(Apply(hash, s, st), t, n) && EdgesStand(s, Apply(hash, s, st), t, n)
    ensures HasHot(Apply(hash, s, st), t, n)
  {
    var i, w := StandingMember(s, Apply(hash, s, st), t, n);
    if w == st.t {
      PrefixSome(Apply(hash, s, st), w, n, 0);
      PrefixSome(Apply(hash, s, st), w, n, 1);
      OwnStepKeepsHot(hash, s, st, n);
    } else {
      OtherStepKeepsHot(hash, s, st, w, n);
    }
    assert HotAt(Apply(hash, s, st), t, n, i);
  }

  lemma MovedEdge(s: State, s': State, t: TrxId, n: nat) returns (i: nat, u: TrxId)
    requires Cycle(s', t, n) && !EdgesStand(s, s', t, n)
    ensures i < n && After(s', t, i) == Some(u) && Succ(s', u).Some? && Succ(s', u) != Succ(s, u)
  {
    i :| 0 <= i < n && After(s', t, i).Some? && Succ(s', After(s', t, i).value) != Succ(s, After(s', t, i).value);
    u := After(s', t, i).value;
    PrefixSome(s', t, n, i);
    PrefixSome(s', t, n, i + 1);
  }

  lemma FreshOnCycle(s: State, t: TrxId, n: nat, i: nat, u: TrxId, x: TrxId)
    requires Cycle(s, t, n) && i < n && After(s, t, i) == Some(u) && Fresh(s, u, x)
    ensures x in s.trxs && (s.trxs[x].pc.Published? || s.trxs[x].pc.Claimed?)
    ensures exists j :: 0 <= j < n && After(s, t, j) == Some(x)
  {
    if !(u == x && s.trxs[x].pc.Published?) {
      var j := if i + 1 < n then i + 1 else 0;
      assert After(s, t, i + 1) == Some(x) && After(s, t, j) == Some(x);
      PrefixSome(s, t, n, j + 1);
    }
  }

  /** A step that closes a cycle is a member's own: it has just published its wait, or it
      has just claimed the lock and its wait is cleared in its next step. */
  lemma CycleClosedBy(hash: Hash, s: State, st: Step, t: TrxId, n: nat)
    requires Entries(hash, s) && Owners(s) && Pcs(s) && Enabled(hash, s, st)
    requires Cycle(Apply(hash, s, st), t, n) && !EdgesStand(s, Apply(hash, s, st), t, n)
    ensures var s' := Apply(hash, s, st);
            && st.t in s'.trxs && (s'.trxs[st.t].pc.Published? || s'.trxs[st.t].pc.Claimed?)
            && exists i :: 0 <= i < n && After(s', t, i) == Some(st.t)
  {
    var i, u := MovedEdge(s, Apply(hash, s, st), t, n);
    NewEdge(hash, s, st, u);
    FreshOnCycle(Apply(hash, s, st), t, n, i, u, st.t);
  }

  lemma MovedCycleHot(hash: Hash, s: State, st: Step, t: TrxId, n: nat)
    requires Entries(hash, s) && Owners(s) && Pcs(s) && Enabled(hash, s, st)
    requires Cycle(Apply(hash, s, st), t, n) && !EdgesStand(s, Apply(hash, s, st), t, n)
    ensures HasHot(Apply(hash, s, st), t, n)
  {
    var i, u := MovedEdge(s, Apply(hash, s, st), t, n);
    NewEdge(hash, s, st, u);
    ClosedCycleHot(Apply(hash, s, st), t, n, i, st.t);
  }

  lemma KeepsCyclesHot(hash: Hash, s: State, st: Step)
    requires Entries(hash, s) && Owners(s) && Pcs(s) && CyclesHot(s) && Enabled(hash, s, st)
    ensures CyclesHot(Apply(hash, s, st))
  {
    forall t, n | 1 <= n <= DEADLOCK_MAX_DEPTH && Cycle(Apply(hash, s, st), t, n)
      ensures HasHot(Apply(hash, s, st), t, n)
    {
      if EdgesStand(s, Apply(hash, s, st), t, n) {
        StandingCycleHot(hash, s, st, t, n);
      } else {
        MovedCycleHot(hash, s, st, t, n);
      }
    }
  }
}
