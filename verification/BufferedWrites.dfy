/** Writes buffered by one statement of a transaction and the start of the next: the
    flag that asks for a fresh snapshot must be down while writes are buffered. */
module BufferedWrites {
  import opened ByteOrder
  import opened EngineContract
  import opened TrxHooks
  import opened TwoPhase
  import TwoPhaseRuns

  // ----- Where it goes wrong -----

  // What is buffered after: a statement that writes, then the start of the next one.
  function AfterSecondStart(t: Trx, e: Engine, p: nat, key: Bytes, value: Option<Bytes>): Out
    requires t.txn.None? && p !in e.live
  {
    var first := GetOrCreate(t, e, true, true, p);
    var write := WriteHook(first.t, first.e, key, value, true);
    GetOrCreate(write.t, write.e, true, true, p)
  }

  /** On a connection without a handle, the first statement's write is still buffered
      after the second statement starts if and only if needs_reset was down before. */
  lemma WriteSurvivesExactly(t: Trx, e: Engine, p: nat, key: Bytes, value: Option<Bytes>)
    requires t.txn.None? && p !in e.live
    ensures var out := AfterSecondStart(t, e, p, key, value);
            && out.ok && out.t.dirty && out.t.txn == Some(p) && p in out.e.live
            && (out.e.live[p].batch == [(key, value)] <==> !t.needsReset)
            && (out.e.live[p].batch == [] <==> t.needsReset)
  {
  }

  /** A finished transaction, a backup command, then a transaction of two statements:
      its commit reports success and applies nothing. */
  lemma BackupLosesWrite(t: Trx, e: Engine, p: nat, key: Bytes, value: Option<Bytes>)
    requires Bound(t, e) && t.txn.Some? && t.needsReset && Spare(t, e, p)
    ensures var idle := Backup(t, e);
            var out := AfterSecondStart(idle.t, idle.e, p, key, value);
            && Bound(out.t, out.e) && Logged(out.t, out.e)
            && var done := CommitHook(out.t, out.e, true);
            done.ok && exists id :: done.e.applied == e.applied + [Commit(id, [])]
  {
    var idle := Backup(t, e);
    WriteSurvivesExactly(idle.t, idle.e, p, key, value);
    var out := AfterSecondStart(idle.t, idle.e, p, key, value);
    var done := CommitHook(out.t, out.e, true);
    assert done.e.applied == e.applied + [Commit(out.e.live[p].id, [])];
  }

  // ----- Where it does not -----

  predicate CalmConn(e: Engine, k: Conn) {
    k.t.needsReset ==>
      && k.t.txn.Some? && k.turn != Running && !k.t.dirty
      && k.t.txn.value in e.live && e.live[k.t.txn.value].phase != Active
  }

  ghost predicate Calm(s: State) {
    forall c :: c in s.conns ==> CalmConn(s.e, s.conns[c])
  }

  // The three ways to lose the handle and keep the flag.
  predicate Strands(e: Engine, k: Conn, st: Step) {
    && k.t.txn.Some? && k.t.needsReset
    && (st.FreeForBackup? || st.Truncate? || (st.Start? && !st.beginOk && (!st.resetOk || IsPrepared(k.t, e))))
  }

  lemma HookCalm(e: Engine, k: Conn, st: Step)
    requires ConnOk(e, k) && IsHook(st) && HookEnabled(e, k, st) && CalmConn(e, k)
    ensures var out := Hook(e, k, st);
            && (CalmConn(out.e, Conn(out.t, NextTurn(st, out.ok))) <==> !Strands(e, k, st))
            && (Strands(e, k, st) ==> out.t.txn.None? && out.t.needsReset)
  {
    if st.Decided? { CommitCalm(k, e, st.ok); }
  }

  lemma CommitCalm(k: Conn, e: Engine, ok: bool)
    requires ConnOk(e, k) && CalmConn(e, k)
    ensures var out := CommitHook(k.t, e, ok); CalmConn(out.e, Conn(out.t, Idle))
  {
  }

  ghost predicate StepStrands(s: State, st: Step) {
    IsHook(st) && st.c in s.conns && Strands(s.e, s.conns[st.c], st)
  }

  lemma StepCalm(s: State, st: Step)
    requires Inv(s) && Enabled(s, st) && Calm(s) && !StepStrands(s, st)
    ensures Calm(Apply(s, st))
  {
    var s' := Apply(s, st);
    forall c | c in s'.conns ensures CalmConn(s'.e, s'.conns[c]) {
      if TwoPhaseRuns.Elsewhere(s, st, c) {
        TwoPhaseRuns.ElsewhereSame(s, st, c);
        assert CalmConn(s.e, s.conns[c]);
      } else if IsHook(st) {
        assert ConnOk(s.e, s.conns[c]) && CalmConn(s.e, s.conns[c]);
        HookCalm(s.e, s.conns[c], st);
      }
    }
  }

  ghost predicate NeverStrands(s: State, run: seq<Step>)
    requires Inv(s) && TwoPhaseRuns.Legal(s, run)
    decreases |run|
  {
    run == [] ||
    (!StepStrands(s, run[0]) && (TwoPhaseRuns.StepInv(s, run[0]); NeverStrands(Apply(s, run[0]), run[1..])))
  }

  lemma {:induction false} RunCalm(s: State, run: seq<Step>)
    requires Inv(s) && TwoPhaseRuns.Legal(s, run) && NeverStrands(s, run) && Calm(s)
    ensures Calm(TwoPhaseRuns.Final(s, run))
    decreases |run|
  {
    if run != [] {
      TwoPhaseRuns.StepInv(s, run[0]);
      StepCalm(s, run[0]);
      RunCalm(Apply(s, run[0]), run[1..]);
    }
  }

  /** In a run that never strands the flag, no statement start drops or changes what an
      open transaction has buffered, whatever the engine answers. */
  lemma WritesKept(run: seq<Step>, st: Step)
    requires TwoPhaseRuns.FromInit(run) && (InitInv(); NeverStrands(Init(), run))
    requires st.Start? && Enabled(TwoPhaseRuns.Reached(run), st)
    ensures var s := TwoPhaseRuns.Reached(run);
            var t := s.conns[st.c].t;
            t.txn.Some? && t.txn.value in s.e.live && s.e.live[t.txn.value].phase == Active ==> Apply(s, st).e == s.e
  {
    InitInv();
    RunCalm(Init(), run);
    var s := TwoPhaseRuns.Reached(run);
    assert CalmConn(s.e, s.conns[st.c]);
  }
}
