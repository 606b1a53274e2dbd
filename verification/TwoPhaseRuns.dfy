/** What two-phase commit guarantees over every run: connections, crashes, recovery. */
module TwoPhaseRuns {
  import opened ByteOrder
  import opened EngineContract
  import opened TrxHooks
  import opened TwoPhase
  import Xid
  import Recovery

  // ----- The steps that are not hooks -----

  lemma ConnectInv(s: State, c: nat, p: nat)
    requires Inv(s) && Enabled(s, Connect(c, p))
    ensures Inv(Apply(s, Connect(c, p))) && Safe(s.e, Apply(s, Connect(c, p)).e)
  {
    var s' := Apply(s, Connect(c, p));
    KeepsBegin(s.e, p);
    forall d | d in s'.conns ensures ConnOk(s'.e, s'.conns[d]) {
      if d != c { assert ConnOk(s.e, s.conns[d]); }
    }
    forall it | it in s'.iters ensures IterOk(s', it) { assert IterOk(s, it); }
    ConnectApart(s, c, p);
  }

  lemma ConnectApart(s: State, c: nat, p: nat)
    requires Inv(s) && Enabled(s, Connect(c, p))
    ensures Apart(Apply(s, Connect(c, p)).conns)
  {
    forall d | d in s.conns && s.conns[d].t.txn.Some? ensures s.conns[d].t.txn != Some(p) {
      assert ConnOk(s.e, s.conns[d]);
    }
  }

  lemma CacheInv(s: State, c: nat)
    requires Inv(s) && Enabled(s, Cache(c))
    ensures Inv(Apply(s, Cache(c))) && Safe(s.e, Apply(s, Cache(c)).e)
  {
    var s' := Apply(s, Cache(c));
    forall it | it in s'.iters ensures IterOk(s', it) {
      if it in s.iters { assert IterOk(s, it); }
    }
  }

  function Closed(t: Trx, e: Engine): Out
    requires Bound(t, e)
  {
    Out(t.(txn := None), if t.txn.Some? then Free(PlainRollback(e, t.txn.value), t.txn.value) else e, true)
  }

  lemma ClosedConfined(t: Trx, e: Engine)
    requires Bound(t, e)
    ensures Confined(t, e, Closed(t, e), None)
  {
  }

  lemma CloseInv(s: State, c: nat)
    requires Inv(s) && Enabled(s, Close(c))
    ensures Inv(Apply(s, Close(c))) && Safe(s.e, Apply(s, Close(c)).e)
  {
    var t, s' := s.conns[c].t, Apply(s, Close(c));
    assert ConnOk(s.e, s.conns[c]);
    if t.txn.Some? { RollbackFree(s.e, s.e, t.txn.value); }
    var out := Closed(t, s.e);
    ClosedConfined(t, s.e);
    forall d | d in s'.conns ensures ConnOk(s'.e, s'.conns[d]) {
      assert ConnOk(s.e, s.conns[d]);
      OthersKeepConn(t, s.e, out, None, s.conns[d]);
    }
    forall it | it in s'.iters ensures IterOk(s', it) { CloseIter(s, c, it); }
    NamesStay(s.e, s'.e, Mine(t, s.e), None);
    ListStays(s.e, s.list, t, out, None);
  }

  lemma CloseIter(s: State, c: nat, it: Iter)
    requires Inv(s) && Enabled(s, Close(c)) && it in s.iters && it.c != c
    ensures IterOk(Apply(s, Close(c)), it)
  {
    assert ConnOk(s.e, s.conns[c]) && IterOk(s, it) && ConnOk(s.e, s.conns[it.c]);
  }

  lemma PowerLossInv(s: State)
    requires Inv(s)
    ensures var s' := State(Crash(s.e), map[], {}, NoList(), false); Inv(s') && Safe(s.e, s'.e)
  {
    KeepsCrash(s.e);
  }

  lemma FoundAll(e: Engine, order: seq<nat>)
    requires Good(e) && Names(e) && Lists(e, order)
    ensures var l := Recovery.Opened(Found(e, order));
            && Recovery.Ok(l)
            && (forall x :: x in l.entries <==> x.txn in e.log && e.log[x.txn].xid == x.xid)
  {
    var found := Found(e, order);
    Recovery.OpenedOk(found);
    Recovery.CollectedDistinct(found);
    forall x: Recovery.Entry ensures (x.xid, x.txn) in found <==> x.txn in e.log && e.log[x.txn].xid == x.xid {
      if x.txn in e.log && e.log[x.txn].xid == x.xid {
        var i :| 0 <= i < |order| && order[i] == x.txn;
        assert found[i] == (x.xid, x.txn);
      }
    }
  }

  lemma ReopenInv(s: State, order: seq<nat>)
    requires Inv(s) && Enabled(s, Reopen(order))
    ensures Inv(Apply(s, Reopen(order))) && Safe(s.e, Apply(s, Reopen(order)).e)
  {
    FoundAll(s.e, order);
  }

  lemma RecoverInv(s: State, len: nat)
    requires Inv(s) && Enabled(s, Recover(len))
    ensures Inv(Apply(s, Recover(len))) && Safe(s.e, Apply(s, Recover(len)).e)
  {
    Recovery.RecoverOk(s.list, len);
    forall it | it in s.iters ensures IterOk(Apply(s, Recover(len)), it) { assert IterOk(s, it); }
  }

  // A recovered batch ends: no connection holds it.
  lemma EndRecordSafe(e: Engine, id: nat, commit: bool, ok: bool)
    requires Good(e) && id in e.log && Agrees(e, id, commit) && forall p :: p in e.live ==> e.live[p].id != id
    ensures Safe(e, EndRecord(e, id, commit, ok))
  {
    var e1 := Decide(e, id, commit);
    KeepsDecide(e, id, commit);
    assert e1.(live := e1.live) == e1;
    if ok && commit {
      KeepsCommitRecord(e1, id, e1.live);
      SafeOn(e, e1, CommitRecord(e1, id));
    } else if ok {
      KeepsRollbackRecord(e1, id, e1.live);
      SafeOn(e, e1, RollbackRecord(e1, id));
    }
  }

  lemma EndRecordConn(e: Engine, id: nat, commit: bool, ok: bool, k: Conn)
    requires id in e.log && ConnOk(e, k) && forall p :: p in e.live ==> e.live[p].id != id
    ensures ConnOk(EndRecord(e, id, commit, ok), k)
  {
  }

  lemma ResolveList(s: State, x: Xid.Id, commit: bool, ok: bool)
    requires Inv(s) && Enabled(s, Resolve(x, commit, ok))
    ensures ListOk(Apply(s, Resolve(x, commit, ok))) && Names(Apply(s, Resolve(x, commit, ok)).e)
  {
    var i := Recovery.Target(s.list.entries, x);
    if i < |s.list.entries| {
      Recovery.ResolveOk(s.list, x, ok);
      Recovery.EraseMembers(s.list.entries, i);
    }
  }

  lemma ResolveInv(s: State, x: Xid.Id, commit: bool, ok: bool)
    requires Inv(s) && Enabled(s, Resolve(x, commit, ok))
    ensures Inv(Apply(s, Resolve(x, commit, ok))) && Safe(s.e, Apply(s, Resolve(x, commit, ok)).e)
  {
    var s' := Apply(s, Resolve(x, commit, ok));
    var i := Recovery.Target(s.list.entries, x);
    if i < |s.list.entries| {
      assert s.list.entries[i] in s.list.entries;
      EndRecordSafe(s.e, s.list.entries[i].txn, commit, ok);
      ResolveList(s, x, commit, ok);
      forall c | c in s'.conns ensures ConnOk(s'.e, s'.conns[c]) {
        assert ConnOk(s.e, s.conns[c]);
        EndRecordConn(s.e, s.list.entries[i].txn, commit, ok, s.conns[c]);
      }
      forall it | it in s'.iters ensures IterOk(s', it) { assert IterOk(s, it); }
    }
  }

  /** Every step from a state that satisfies the invariant keeps it, and takes nothing
      back: what was applied stays, decisions stand, a discarded batch stays discarded. */
  lemma StepInv(s: State, st: Step)
    requires Inv(s) && Enabled(s, st)
    ensures Inv(Apply(s, st)) && Safe(s.e, Apply(s, st).e)
  {
    if IsHook(st) {
      HookInv(s, st);
    } else {
      match st
      case Connect(c, p) => ConnectInv(s, c, p);
      case Cache(c) => CacheInv(s, c);
      case Close(c) => CloseInv(s, c);
      case PowerLoss => PowerLossInv(s);
      case Reopen(order) => ReopenInv(s, order);
      case Recover(len) => RecoverInv(s, len);
      case Resolve(x, commit, ok) => ResolveInv(s, x, commit, ok);
    }
  }

  // A step of the system that is not a hook call on connection `c` leaves it alone.
  ghost predicate Elsewhere(s: State, st: Step, c: nat) {
    c in s.conns && !(IsHook(st) && st.c == c) && !(st.Close? && st.c == c) && !st.PowerLoss?
  }

  ghost predicate SameHandle(e: Engine, e': Engine, t: Trx) {
    t.txn.Some? ==> t.txn.value in e.live && t.txn.value in e'.live && e'.live[t.txn.value] == e.live[t.txn.value]
  }

  lemma ElsewhereSame(s: State, st: Step, c: nat)
    requires Inv(s) && Enabled(s, st) && Elsewhere(s, st, c)
    ensures var s' := Apply(s, st); c in s'.conns && s'.conns[c] == s.conns[c] && SameHandle(s.e, s'.e, s.conns[c].t)
  {
    assert ConnOk(s.e, s.conns[c]);
    if IsHook(st) {
      assert ConnOk(s.e, s.conns[st.c]);
      HookConfined(s.e, s.conns[st.c], st);
    } else if st.Close? {
      assert ConnOk(s.e, s.conns[st.c]);
      ClosedConfined(s.conns[st.c].t, s.e);
    }
  }

  // ----- Runs -----

  ghost predicate Legal(s: State, run: seq<Step>)
    requires Inv(s)
    decreases |run|
  {
    run == [] || (Enabled(s, run[0]) && (StepInv(s, run[0]); Legal(Apply(s, run[0]), run[1..])))
  }

  ghost function Final(s: State, run: seq<Step>): (s': State)
    requires Inv(s) && Legal(s, run)
    ensures Inv(s')
    decreases |run|
  {
    if run == [] then s
    else
      StepInv(s, run[0]);
      Final(Apply(s, run[0]), run[1..])
  }

  lemma {:induction false} RunGrows(s: State, run: seq<Step>)
    requires Inv(s) && Legal(s, run)
    ensures Grows(s.e, Final(s, run).e)
    decreases |run|
  {
    if run != [] {
      StepInv(s, run[0]);
      RunGrows(Apply(s, run[0]), run[1..]);
      GrowsOn(s.e, Apply(s, run[0]).e, Final(s, run).e);
    }
  }

  ghost predicate FromInit(run: seq<Step>) {
    InitInv();
    Legal(Init(), run)
  }

  ghost function Reached(run: seq<Step>): (s: State)
    requires FromInit(run)
    ensures Inv(s)
  {
    InitInv();
    Final(Init(), run)
  }

  // ----- The guarantees -----

  // The batch a step makes visible: a commit of what the handle holds or has logged, a
  // vote about nothing, a mid-load commit, a flush, a commit by XID. No other step does.
  ghost function Adds(s: State, st: Step): seq<Commit>
    requires Inv(s) && Enabled(s, st)
  {
    if IsHook(st) then HookAdds(s.e, s.conns[st.c].t, st)
    else if st.Resolve? && st.commit && st.ok && Recovery.Target(s.list.entries, st.x) < |s.list.entries| then
      var i := Recovery.Target(s.list.entries, st.x);
      assert s.list.entries[i] in s.list.entries;
      [Commit(s.list.entries[i].txn, s.e.log[s.list.entries[i].txn].batch)]
    else []
  }

  ghost function HookAdds(e: Engine, t: Trx, st: Step): seq<Commit>
    requires IsHook(st)
  {
    var adds :=
      match st
      case Decided(_, ok) => ok && ((IsActive(t, e) && t.dirty) || IsPrepared(t, e))
      case Vote(_, x, ok) => ok && IsActive(t, e) && t.dirty && Open(t, e) == [] && Xid.LengthsValid(x.gtrid, x.bqual)
      case BulkBatch(_, ok, _, _, _) => ok && IsActive(t, e)
      case FlushForDdl(_, ok) => ok && IsActive(t, e) && t.dirty
      case _ => false;
    if adds && t.txn.Some? && t.txn.value in e.live then [Commit(e.live[t.txn.value].id, e.live[t.txn.value].batch)] else []
  }

  lemma HookApplies(e: Engine, k: Conn, st: Step)
    requires Good(e) && ConnOk(e, k) && IsHook(st) && HookEnabled(e, k, st)
    ensures Hook(e, k, st).e.applied == e.applied + HookAdds(e, k.t, st)
  {
    if k.t.txn.Some? { assert PhaseOk(e, e.live[k.t.txn.value]); }
    match st
    case Decided(_, ok) =>
    case Vote(_, x, ok) =>
    case BulkBatch(_, ok, resetOk, beginOk, p) => BulkGives(k.t, e, ok, resetOk, beginOk, p);
    case FlushForDdl(_, ok) => FlushGives(k.t, e, ok);
    case Undo(_, _, ok) => RollbackGives(k.t, e, ok);
    case FreeForBackup(_) => DropGives(k.t, e, Backup(k.t, e));
    case Truncate(_) => DropGives(k.t, e, DeleteAll(k.t, e));
    case Start(_, _, _, _) =>
    case Write(_, _, _, _) =>
  }

  /** Every step appends to what is visible exactly the batch it commits, whole; every
      other step, a crash and a disconnect included, appends nothing. */
  lemma StepApplies(s: State, st: Step)
    requires Inv(s) && Enabled(s, st)
    ensures Apply(s, st).e.applied == s.e.applied + Adds(s, st)
  {
    if IsHook(st) {
      assert ConnOk(s.e, s.conns[st.c]);
      HookApplies(s.e, s.conns[st.c], st);
    } else if st.Resolve? {
      ResolveEnds(s, st.x, st.commit, st.ok);
    }
  }

  // The record a step ends: phase two on the connection, or a resolution by XID.
  ghost function Ends(s: State, st: Step): set<nat>
    requires Inv(s) && Enabled(s, st)
  {
    if IsHook(st) then HookEnds(s.e, s.conns[st.c].t, st)
    else if st.Resolve? && st.ok && Recovery.Target(s.list.entries, st.x) < |s.list.entries| then
      {s.list.entries[Recovery.Target(s.list.entries, st.x)].txn}
    else {}
  }

  ghost function HookEnds(e: Engine, t: Trx, st: Step): set<nat> {
    if (st.Decided? || st.Undo?) && st.ok && IsPrepared(t, e) then {e.live[t.txn.value].id} else {}
  }

  // The record a vote writes.
  ghost function Logs(s: State, st: Step): map<nat, Record>
    requires Inv(s) && Enabled(s, st)
  {
    if IsHook(st) then HookWrites(s.e, s.conns[st.c].t, st) else map[]
  }

  ghost function HookWrites(e: Engine, t: Trx, st: Step): map<nat, Record> {
    if st.Vote? && st.ok && Xid.Held(st.x) && Xid.LengthsValid(st.x.gtrid, st.x.bqual) && IsActive(t, e) && t.dirty && Open(t, e) != []
    then map[e.live[t.txn.value].id := Record(Xid.Encode(st.x).value, Open(t, e))]
    else map[]
  }

  lemma NoChange(m: map<nat, Record>)
    ensures m - {} + map[] == m
  {
  }

  lemma OneMore(m: map<nat, Record>, id: nat, r: Record)
    ensures m - {} + map[id := r] == m[id := r]
  {
  }

  lemma OneLess(m: map<nat, Record>, id: nat)
    ensures m - {id} + map[] == m - {id}
  {
  }

  lemma VoteLogs(e: Engine, t: Trx, st: Step)
    requires st.Vote? && Bound(t, e) && Xid.Held(st.x)
    ensures PrepareHook(t, e, st.x, st.ok).e.log == e.log - {} + HookWrites(e, t, st)
  {
    NoChange(e.log);
    VoteGives(t, e, st.x, st.ok);
    if HookWrites(e, t, st) != map[] {
      OneMore(e.log, e.live[t.txn.value].id, Record(Xid.Encode(st.x).value, Open(t, e)));
    }
  }

  lemma PhaseTwoLogs(e: Engine, t: Trx, st: Step)
    requires Bound(t, e) && Logged(t, e) && (st.Decided? || st.Undo?)
    ensures (if st.Decided? then CommitHook(t, e, st.ok) else RollbackHook(t, e, st.ok)).e.log == e.log - HookEnds(e, t, st) + map[]
  {
    NoChange(e.log);
    if IsPrepared(t, e) { OneLess(e.log, e.live[t.txn.value].id); }
    if st.Undo? { RollbackGives(t, e, st.ok); }
  }

  lemma HookLogs(e: Engine, k: Conn, st: Step)
    requires ConnOk(e, k) && IsHook(st) && HookEnabled(e, k, st)
    ensures Hook(e, k, st).e.log == e.log - HookEnds(e, k.t, st) + HookWrites(e, k.t, st)
  {
    NoChange(e.log);
    match st
    case Decided(_, ok) => PhaseTwoLogs(e, k.t, st);
    case Undo(_, _, ok) => PhaseTwoLogs(e, k.t, st);
    case BulkBatch(_, ok, resetOk, beginOk, p) => BulkGives(k.t, e, ok, resetOk, beginOk, p);
    case FlushForDdl(_, ok) => FlushGives(k.t, e, ok);
    case FreeForBackup(_) => DropGives(k.t, e, Backup(k.t, e));
    case Truncate(_) => DropGives(k.t, e, DeleteAll(k.t, e));
    case Start(_, _, _, _) =>
    case Write(_, _, _, _) =>
    case Vote(_, _, _) => VoteLogs(e, k.t, st);
  }

  /** The log gains exactly the batch voted for and loses exactly the batch decided. */
  lemma StepLogs(s: State, st: Step)
    requires Inv(s) && Enabled(s, st)
    ensures Apply(s, st).e.log == s.e.log - Ends(s, st) + Logs(s, st)
  {
    if IsHook(st) {
      assert ConnOk(s.e, s.conns[st.c]);
      HookLogs(s.e, s.conns[st.c], st);
    } else {
      OtherLogs(s, st);
    }
  }

  lemma OtherLogs(s: State, st: Step)
    requires Inv(s) && Enabled(s, st) && !IsHook(st)
    ensures Apply(s, st).e.log == s.e.log - Ends(s, st) + map[]
  {
    if st.Resolve? { ResolveLogs(s, st); } else { NoChange(s.e.log); }
  }

  lemma ResolveLogs(s: State, st: Step)
    requires Inv(s) && Enabled(s, st) && st.Resolve?
    ensures Apply(s, st).e.log == s.e.log - Ends(s, st) + map[]
  {
    NoChange(s.e.log);
    ResolveEnds(s, st.x, st.commit, st.ok);
    var i := Recovery.Target(s.list.entries, st.x);
    if i < |s.list.entries| { OneLess(s.e.log, s.list.entries[i].txn); }
  }

  lemma EndRecordGives(e: Engine, id: nat, commit: bool, ok: bool)
    requires id in e.log
    ensures var e' := EndRecord(e, id, commit, ok);
            && e'.log == (if ok then e.log - {id} else e.log)
            && e'.applied == e.applied + (if commit && ok then [Commit(id, e.log[id].batch)] else [])
  {
  }

  /** A resolution by XID that succeeds ends the batch it names: committed, exactly its
      writes become visible; rolled back, nothing does. One that finds nothing or that
      the engine refuses changes neither the log nor what is visible. */
  lemma ResolveEnds(s: State, x: Xid.Id, commit: bool, ok: bool)
    requires Inv(s) && Enabled(s, Resolve(x, commit, ok))
    ensures var s', i := Apply(s, Resolve(x, commit, ok)), Recovery.Target(s.list.entries, x);
            if i == |s.list.entries| then s' == s
            else
              var id := s.list.entries[i].txn;
              && id in s.e.log && s'.e.log == (if ok then s.e.log - {id} else s.e.log)
              && s'.e.applied == s.e.applied + (if commit && ok then [Commit(id, s.e.log[id].batch)] else [])
              && (if ok then forall y :: y in s'.list.entries ==> y.txn != id else s'.list == s.list)
  {
    var i := Recovery.Target(s.list.entries, x);
    if i < |s.list.entries| {
      assert s.list.entries[i] in s.list.entries;
      EndRecordGives(s.e, s.list.entries[i].txn, commit, ok);
      ResolvedGone(s.list, x, ok);
    }
  }

  lemma ResolvedGone(l: Recovery.List, x: Xid.Id, ok: bool)
    requires Recovery.Ok(l) && Xid.Held(x) && Recovery.Target(l.entries, x) < |l.entries|
    ensures var l', id := Recovery.Do(l, Recovery.Resolve(x, ok)), l.entries[Recovery.Target(l.entries, x)].txn;
            if ok then forall y :: y in l'.entries ==> y.txn != id else l' == l
  {
    Recovery.EraseMembers(l.entries, Recovery.Target(l.entries, x));
  }

  /** So a batch committed by XID is visible in every later state of every run. */
  lemma ResolvedStays(s: State, x: Xid.Id, s1: State, run: seq<Step>, id: nat)
    requires Inv(s) && Enabled(s, Resolve(x, true, true)) && s1 == Apply(s, Resolve(x, true, true)) && Inv(s1) && Legal(s1, run)
    requires var i := Recovery.Target(s.list.entries, x); i < |s.list.entries| && id == s.list.entries[i].txn
    ensures Visible(Final(s1, run).e, id)
  {
    ResolveEnds(s, x, true, true);
    assert s1.e.applied[|s.e.applied|].id == id;
    RunGrows(s1, run);
    assert Final(s1, run).e.applied[|s.e.applied|] == s1.e.applied[|s.e.applied|];
  }

  /** A prepared batch becomes visible only after the server decided to commit it,
      with exactly the writes it voted for, and nothing becomes visible twice. */
  lemma VisibleOnlyOnceDecided(run: seq<Step>, k: nat)
    requires FromInit(run) && k < |Reached(run).e.applied|
    ensures var e := Reached(run).e;
            var id := e.applied[k].id;
            && (forall j :: 0 <= j < |e.applied| && e.applied[j].id == id ==> j == k)
            && (id in e.voted ==> id in e.decision && e.decision[id] && e.applied[k].batch == e.voted[id].batch)
  {
    var e := Reached(run).e;
    assert Good(e) && AppliedOk(e);
  }

  /** A prepared batch that was rolled back never becomes visible, whatever follows. */
  lemma RolledBackNeverVisible(s: State, run: seq<Step>, id: nat)
    requires Inv(s) && Legal(s, run) && id in s.e.decision && !s.e.decision[id]
    ensures !Visible(s.e, id) && !Visible(Final(s, run).e, id)
  {
    RunGrows(s, run);
    assert AppliedOk(s.e) && AppliedOk(Final(s, run).e);
  }

  lemma DiscardedStays(s: State, run: seq<Step>, id: nat)
    requires Inv(s) && Legal(s, run) && Discarded(s.e, id)
    ensures Discarded(Final(s, run).e, id)
  {
    RunGrows(s, run);
  }

  /** A prepared batch the server has not decided is in the log, so after a crash and
      the next open it is in the in-doubt list, under a name the server can read, and
      the first long enough request hands it out. */
  lemma UndecidedReappears(s: State, order: seq<nat>, id: nat, len: nat, run: seq<Step>)
    requires Inv(s) && s.open && Lists(s.e, order)
    requires id in s.e.voted && id !in s.e.decision && len > |order|
    requires run == [PowerLoss] + [Reopen(order), Recover(len)]
    ensures id in s.e.log && Legal(s, run) && id in Final(s, run).list.handed
  {
    UndecidedLogged(s.e, id);
    PowerLossInv(s);
    var s1 := Apply(s, PowerLoss);
    LoggedReappears(s1, order, id, len);
    RunCons(s, PowerLoss, s1, [Reopen(order), Recover(len)]);
  }

  lemma UndecidedLogged(e: Engine, id: nat)
    requires Good(e) && id in e.voted && id !in e.decision
    ensures id in e.log
  {
    assert DecisionsOk(e) && AppliedOk(e);
  }

  lemma ReopenThenRecover(s: State, order: seq<nat>, len: nat)
    requires Inv(s) && !s.open && Lists(s.e, order)
    ensures Legal(s, [Reopen(order), Recover(len)])
    ensures Recovery.Opened(Found(s.e, order)).cursor == 0
    ensures Final(s, [Reopen(order), Recover(len)]).list == Recovery.Do(Recovery.Opened(Found(s.e, order)), Recovery.Recover(len))
  {
    ReopenInv(s, order);
    RunTwo(s, Reopen(order), Apply(s, Reopen(order)), Recover(len));
  }

  lemma LoggedReappears(s: State, order: seq<nat>, id: nat, len: nat)
    requires Inv(s) && !s.open && Lists(s.e, order) && id in s.e.log && len > |order|
    ensures Legal(s, [Reopen(order), Recover(len)]) && id in Final(s, [Reopen(order), Recover(len)]).list.handed
  {
    OpenedHandsOut(s.e, order, id, len);
    ReopenThenRecover(s, order, len);
  }

  lemma RunTwo(s: State, a: Step, s1: State, b: Step)
    requires Inv(s) && Enabled(s, a) && s1 == Apply(s, a) && Inv(s1) && Enabled(s1, b)
    ensures Legal(s, [a, b]) && Final(s, [a, b]) == Apply(s1, b)
  {
    StepInv(s1, b);
    assert [b][1..] == [] && [a, b][1..] == [b];
    assert Legal(s1, [b]) && Final(s1, [b]) == Apply(s1, b);
  }

  lemma OpenedHandsOut(e: Engine, order: seq<nat>, id: nat, len: nat)
    requires Good(e) && Names(e) && Lists(e, order) && id in e.log && len > |order|
    ensures var l := Recovery.Opened(Found(e, order)); Recovery.Ok(l) && id in Recovery.Do(l, Recovery.Recover(len)).handed
  {
    FoundAll(e, order);
    var l := Recovery.Opened(Found(e, order));
    var x := Recovery.Entry(e.log[id].xid, id);
    assert x in l.entries && Recovery.Decodable(x);
    HandedFew(l, len, |order|);
    Recovery.ShortCountExhausts(l, len);
  }

  lemma HandedFew(l: Recovery.List, len: nat, n: nat)
    requires Recovery.Ok(l) && |l.entries| <= n < len
    ensures |Recovery.Do(l, Recovery.Recover(len)).handed| < |l.handed| + len
  {
    var to := Recovery.Stop(l.entries, l.cursor, len);
    TxnsFew(l.entries, l.cursor, to);
  }

  lemma {:induction false} TxnsFew(es: seq<Recovery.Entry>, a: nat, b: nat)
    requires a <= b <= |es|
    ensures |Recovery.Txns(es, a, b)| <= b - a
    decreases b
  {
    if a < b { TxnsFew(es, a, b - 1); }
  }

  lemma RunCons(s: State, st: Step, s': State, run: seq<Step>)
    requires Inv(s) && Enabled(s, st) && s' == Apply(s, st) && Inv(s') && Legal(s', run)
    ensures Legal(s, [st] + run) && Final(s, [st] + run) == Final(s', run)
  {
    assert ([st] + run)[1..] == run;
  }

  // The vote of a transaction that buffered nothing.
  ghost predicate EmptyVote(s: State, st: Step) {
    && st.Vote? && st.ok && Xid.Held(st.x) && Xid.LengthsValid(st.x.gtrid, st.x.bqual) && st.c in s.conns
    && var t := s.conns[st.c].t;
    && t.txn.Some? && t.dirty && t.txn.value in s.e.live
    && s.e.live[t.txn.value].phase == Active && s.e.live[t.txn.value].batch == []
  }

  lemma EmptyVoteApplies(s: State, st: Step)
    requires Inv(s) && Enabled(s, st) && EmptyVote(s, st)
    ensures var id := s.e.live[s.conns[st.c].t.txn.value].id;
            var e := Apply(s, st).e;
            e.applied == s.e.applied + [Commit(id, [])] && e.log == s.e.log && e.voted == s.e.voted && id !in s.e.voted
  {
    assert ConnOk(s.e, s.conns[st.c]);
    assert PhaseOk(s.e, s.e.live[s.conns[st.c].t.txn.value]);
  }

  /** A vote that found an empty batch has ended the transaction for good: in no run from
      there on, crash and recovery included, is it logged, decided about, listed as in
      doubt, or applied again. */
  lemma EmptyVoteEnds(s: State, st: Step, s1: State, run: seq<Step>, id: nat)
    requires Inv(s) && Enabled(s, st) && EmptyVote(s, st) && id == s.e.live[s.conns[st.c].t.txn.value].id
    requires s1 == Apply(s, st) && Inv(s1) && Legal(s1, run)
    ensures var s' := Final(s1, run);
            && id !in s'.e.voted && id !in s'.e.log && id !in s'.e.decision
            && (forall x :: x in s'.list.entries ==> x.txn != id)
            && |s.e.applied| < |s'.e.applied| && s'.e.applied[|s.e.applied|] == Commit(id, [])
            && (forall k :: 0 <= k < |s'.e.applied| ==> (s'.e.applied[k].id == id <==> k == |s.e.applied|))
  {
    EmptyVoteApplies(s, st);
    assert s1.e.applied[|s.e.applied|] == Commit(id, []);
    RunGrows(s1, run);
    EndedForGood(s1.e, Final(s1, run), |s.e.applied|);
  }

  lemma EndedForGood(e: Engine, s': State, k: nat)
    requires Good(e) && Inv(s') && Grows(e, s'.e) && k < |e.applied| && e.applied[k].id !in e.voted
    ensures var id := e.applied[k].id;
            && id !in s'.e.voted && id !in s'.e.log && id !in s'.e.decision
            && (forall x :: x in s'.list.entries ==> x.txn != id)
            && k < |s'.e.applied| && s'.e.applied[k] == e.applied[k]
            && (forall j :: 0 <= j < |s'.e.applied| ==> (s'.e.applied[j].id == id <==> j == k))
  {
    assert Visible(e, e.applied[k].id);
    assert AppliedOk(s'.e) && Log(s'.e) && DecisionsOk(s'.e) && ListOk(s');
  }

  // ----- A commit decision can be overruled in one way only -----

  // A rollback on a connection whose commit was decided but has not gone through.
  ghost predicate Overrules(s: State, st: Step) {
    st.Undo? && st.c in s.conns && HookOverrules(s.e, s.conns[st.c], st)
  }

  predicate HookOverrules(e: Engine, k: Conn, st: Step) {
    && st.Undo? && st.ok && IsPrepared(k.t, e)
    && Mine(k.t, e) in e.decision && e.decision[Mine(k.t, e)]
  }

  lemma HookOverruled(e: Engine, k: Conn, st: Step)
    requires ConnOk(e, k) && IsHook(st) && HookEnabled(e, k, st)
    ensures Hook(e, k, st).e.overruled == if HookOverrules(e, k, st) then e.overruled + {Mine(k.t, e)} else e.overruled
  {
  }

  lemma OthersOverruleNothing(s: State, st: Step)
    requires Inv(s) && Enabled(s, st) && !IsHook(st)
    ensures Apply(s, st).e.overruled == s.e.overruled
  {
    if st.Resolve? {
      var i := Recovery.Target(s.list.entries, st.x);
      if i < |s.list.entries| {
        assert s.list.entries[i] in s.list.entries;
        AgreedOverrulesNothing(s.e, s.list.entries[i].txn, st.commit, st.ok);
      }
    }
  }

  lemma AgreedOverrulesNothing(e: Engine, id: nat, commit: bool, ok: bool)
    requires id in e.log && Agrees(e, id, commit)
    ensures EndRecord(e, id, commit, ok).overruled == e.overruled
  {
  }

  lemma FreshOverrule(e: Engine, id: nat)
    requires Good(e) && id in e.log
    ensures id !in e.overruled
  {
    assert DecisionsOk(e);
  }

  lemma OnlyUndoOverrules(s: State, st: Step)
    requires Inv(s) && Enabled(s, st)
    ensures s.e.overruled <= Apply(s, st).e.overruled
    ensures Apply(s, st).e.overruled != s.e.overruled <==> Overrules(s, st)
  {
    if IsHook(st) {
      var k := s.conns[st.c];
      assert ConnOk(s.e, k);
      HookOverruled(s.e, k, st);
      if HookOverrules(s.e, k, st) {
        FreshOverrule(s.e, Mine(k.t, s.e));
        assert Mine(k.t, s.e) in Apply(s, st).e.overruled;
      }
    } else {
      OthersOverruleNothing(s, st);
    }
  }

  ghost predicate NoOverrule(s: State, run: seq<Step>)
    requires Inv(s) && Legal(s, run)
    decreases |run|
  {
    run == [] || (!Overrules(s, run[0]) && (StepInv(s, run[0]); NoOverrule(Apply(s, run[0]), run[1..])))
  }

  lemma {:induction false} OverruledMeans(s: State, run: seq<Step>)
    requires Inv(s) && Legal(s, run)
    ensures s.e.overruled <= Final(s, run).e.overruled
    ensures Final(s, run).e.overruled == s.e.overruled <==> NoOverrule(s, run)
    decreases |run|
  {
    if run != [] {
      StepInv(s, run[0]);
      OnlyUndoOverrules(s, run[0]);
      OverruledMeans(Apply(s, run[0]), run[1..]);
    }
  }

  ghost predicate NeverOverrules(run: seq<Step>)
    requires FromInit(run)
  {
    InitInv();
    NoOverrule(Init(), run)
  }

  /** Every commit decision of a run is carried out or still in the log, if and only if
      no connection was rolled back after its commit had been decided. */
  lemma CommitDecisionsKept(run: seq<Step>)
    requires FromInit(run)
    ensures NeverOverrules(run) <==>
              forall id :: id in Reached(run).e.decision && Reached(run).e.decision[id] ==>
                Visible(Reached(run).e, id) || id in Reached(run).e.log
  {
    InitInv();
    var e := Reached(run).e;
    OverruledMeans(Init(), run);
    assert Good(e) && DecisionsOk(e);
    if e.overruled != {} {
      var id :| id in e.overruled;
      assert id in e.decision && e.decision[id] && Discarded(e, id);
    }
  }

  // A vote, a commit that fails in the engine, a rollback: from any state in which a
  // connection has written something.
  lemma VotedThenOverruled(s: State, c: nat, x: Xid.Id, p: nat)
    requires Inv(s) && s.open && c in s.conns && s.conns[c].turn == Running && s.conns[c].t.txn == Some(p) && s.conns[c].t.dirty
    requires p in s.e.live && s.e.live[p].phase == Active && s.e.live[p].batch != []
    requires NewName(s.e, x) && Xid.LengthsValid(x.gtrid, x.bqual)
    ensures var run := [Vote(c, x, true)] + [Decided(c, false), Undo(c, true, true)];
            Legal(s, run) && s.e.live[p].id in Final(s, run).e.overruled
  {
    var s1 := Apply(s, Vote(c, x, true));
    StepInv(s, Vote(c, x, true));
    assert ConnOk(s.e, s.conns[c]) && PhaseOk(s.e, s.e.live[p]) && DecisionsOk(s.e);
    DecidedThenOverruled(s1, c, p);
    RunCons(s, Vote(c, x, true), s1, [Decided(c, false), Undo(c, true, true)]);
  }

  lemma DecidedThenOverruled(s: State, c: nat, p: nat)
    requires Inv(s) && s.open && c in s.conns && s.conns[c].turn == Voting && s.conns[c].t.txn == Some(p)
    requires p in s.e.live && s.e.live[p].phase == Prepared && s.e.live[p].id !in s.e.decision
    ensures var run := [Decided(c, false), Undo(c, true, true)];
            Legal(s, run) && s.e.live[p].id in Final(s, run).e.overruled
  {
    var s1 := Apply(s, Decided(c, false));
    StepInv(s, Decided(c, false));
    assert ConnOk(s.e, s.conns[c]) && ConnOk(s1.e, s1.conns[c]);
    RunTwo(s, Decided(c, false), s1, Undo(c, true, true));
  }

  /** The run in which a commit decision is lost: connect, write, vote, a commit the
      engine fails to record, and the rollback that follows. */
  lemma OverruledRun(x: Xid.Id, voted: seq<Step>, run: seq<Step>)
    requires x == Xid.Id(0, 0, 0, Zeros(Xid.DATA_SIZE))
    requires voted == [Vote(0, x, true)] + [Decided(0, false), Undo(0, true, true)]
    requires run == [Reopen([])] + ([Connect(0, 0)] + ([Write(0, [1], None, true)] + voted))
    ensures FromInit(run) && !NeverOverrules(run)
  {
    InitInv();
    var s0 := Init();
    var s1 := s0.(list := Recovery.Opened([]), open := true);
    FirstOpen(s1);
    WrittenState(s1, voted, x);
    RunCons(s0, Reopen([]), s1, [Connect(0, 0)] + ([Write(0, [1], None, true)] + voted));
    OverruledMeans(s0, run);
  }

  lemma FirstOpen(s1: State)
    requires s1 == Init().(list := Recovery.Opened([]), open := true)
    ensures Inv(Init()) && Enabled(Init(), Reopen([])) && s1 == Apply(Init(), Reopen([])) && Inv(s1)
  {
    InitInv();
    assert Found(Init().e, []) == [];
    ReopenInv(Init(), []);
  }

  lemma WrittenState(s1: State, voted: seq<Step>, x: Xid.Id)
    requires Inv(s1) && s1.open && s1.conns == map[] && s1.e == Init().e && x == Xid.Id(0, 0, 0, Zeros(Xid.DATA_SIZE))
    requires voted == [Vote(0, x, true)] + [Decided(0, false), Undo(0, true, true)]
    ensures var run := [Connect(0, 0)] + ([Write(0, [1], None, true)] + voted);
            Legal(s1, run) && Final(s1, run).e.overruled != {}
  {
    var s2 := Apply(s1, Connect(0, 0));
    StepInv(s1, Connect(0, 0));
    var s3 := Apply(s2, Write(0, [1], None, true));
    StepInv(s2, Write(0, [1], None, true));
    VotedThenOverruled(s3, 0, x, 0);
    RunCons(s2, Write(0, [1], None, true), s3, voted);
    RunCons(s1, Connect(0, 0), s2, [Write(0, [1], None, true)] + voted);
  }

  // ----- Kept iterators -----

  /** Whenever a statement finds its cached iterator under the current handle and
      generation, the iterator belongs to the transaction now running in that handle,
      and that transaction has not ended. */
  lemma KeptIteratorIsCurrent(run: seq<Step>, it: Iter)
    requires FromInit(run) && it in Reached(run).iters
    ensures var s := Reached(run);
            it.c in s.conns &&
            var k := s.conns[it.c];
            k.turn == Running && k.t.txn == Some(it.p) && k.t.gen == it.gen ==>
              it.p in s.e.live && s.e.live[it.p].id == it.id &&
              (s.e.live[it.p].phase == Active || s.e.live[it.p].phase == Prepared)
  {
    var s := Reached(run);
    assert IterOk(s, it) && ConnOk(s.e, s.conns[it.c]);
  }
}
