/** What a commit applies, against the history of the connection: the writes the engine
    accepted since the transaction began, and the events that let go of them. */
module WriteHistory {
  import opened ByteOrder
  import opened EngineContract
  import opened TrxHooks
  import opened TwoPhase
  import opened TwoPhaseRuns
  import Xid

  // The accepted writes of the transaction, where the current statement's begin, and how
  // many of them the connection has let go of before the commit.
  datatype Hist = Hist(said: Batch, mark: nat, gone: nat)

  const FRESH := Hist([], 0, 0)

  // The calls after which the handle no longer holds the transaction's writes, although
  // the server has not ended the transaction.
  predicate LetsGo(e: Engine, k: Conn, st: Step) {
    || (st.Start? && k.t.txn.Some? && k.t.needsReset)
    || (st.BulkBatch? && !IsPrepared(k.t, e))
    || st.FreeForBackup? || st.Truncate? || st.FlushForDdl?
  }

  // A statement's rollback should take back the statement's own writes.
  ghost function Tell(e: Engine, k: Conn, h: Hist, st: Step): Hist
    requires ConnOk(e, k) && IsHook(st) && HookEnabled(e, k, st) && h.mark <= |h.said|
  {
    if st.Write? then
      if st.ok && IsActive(k.t, e) then h.(said := h.said + [(st.key, st.value)]) else h
    else if st.Vote? then if Hook(e, k, st).ok then h else FRESH
    else if st.Decided? then if IsPrepared(k.t, e) && !st.ok then h else FRESH
    else if st.Undo? then if st.whole then FRESH else Hist(h.said[..h.mark], h.mark, h.mark)
    else
      var gone := if LetsGo(e, k, st) then |h.said| else h.gone;
      if st.Start? then Hist(h.said, |h.said|, gone) else h.(gone := gone)
  }

  // What is pending is what was said and not let go of.
  predicate Kept(e: Engine, k: Conn, h: Hist) {
    && h.mark <= |h.said| && h.gone <= |h.said|
    && Pending(k.t, e) == h.said[h.gone..]
    && (IsActive(k.t, e) && !k.t.dirty ==> e.live[k.t.txn.value].batch == [])
    && (IsPrepared(k.t, e) && !k.t.dirty ==> k.t.needsReset && k.turn != Running)
  }

  lemma WriteKept(e: Engine, k: Conn, h: Hist, st: Step)
    requires ConnOk(e, k) && st.Write? && HookEnabled(e, k, st) && Kept(e, k, h)
    ensures var out := Hook(e, k, st); Kept(out.e, Conn(out.t, NextTurn(st, out.ok)), Tell(e, k, h, st))
  {
  }

  lemma StartKept(e: Engine, k: Conn, h: Hist, st: Step)
    requires ConnOk(e, k) && st.Start? && HookEnabled(e, k, st) && Kept(e, k, h)
    ensures var out := Hook(e, k, st); Kept(out.e, Conn(out.t, NextTurn(st, out.ok)), Tell(e, k, h, st))
  {
    StartGives(k.t, e, st.resetOk, st.beginOk, st.p);
  }

  lemma BulkKept(e: Engine, k: Conn, h: Hist, st: Step)
    requires ConnOk(e, k) && st.BulkBatch? && HookEnabled(e, k, st) && Kept(e, k, h)
    ensures var out := Hook(e, k, st); Kept(out.e, Conn(out.t, NextTurn(st, out.ok)), Tell(e, k, h, st))
  {
  }

  lemma UndoKept(e: Engine, k: Conn, h: Hist, st: Step)
    requires ConnOk(e, k) && st.Undo? && HookEnabled(e, k, st) && Kept(e, k, h)
    ensures var out := Hook(e, k, st); Kept(out.e, Conn(out.t, NextTurn(st, out.ok)), Tell(e, k, h, st))
  {
    RollbackGives(k.t, e, st.ok);
  }

  lemma VoteKept(e: Engine, k: Conn, h: Hist, st: Step)
    requires ConnOk(e, k) && st.Vote? && HookEnabled(e, k, st) && Kept(e, k, h)
    ensures var out := Hook(e, k, st); Kept(out.e, Conn(out.t, NextTurn(st, out.ok)), Tell(e, k, h, st))
  {
  }

  lemma DecidedKept(e: Engine, k: Conn, h: Hist, st: Step)
    requires ConnOk(e, k) && st.Decided? && HookEnabled(e, k, st) && Kept(e, k, h)
    ensures var out := Hook(e, k, st); Kept(out.e, Conn(out.t, NextTurn(st, out.ok)), Tell(e, k, h, st))
  {
  }

  lemma HookKept(e: Engine, k: Conn, h: Hist, st: Step)
    requires ConnOk(e, k) && IsHook(st) && HookEnabled(e, k, st) && Kept(e, k, h)
    ensures var out := Hook(e, k, st); Kept(out.e, Conn(out.t, NextTurn(st, out.ok)), Tell(e, k, h, st))
  {
    if st.Write? {
      WriteKept(e, k, h, st);
    } else if st.Vote? {
      VoteKept(e, k, h, st);
    } else if st.Decided? {
      DecidedKept(e, k, h, st);
    } else if st.Start? {
      StartKept(e, k, h, st);
    } else if st.BulkBatch? {
      BulkKept(e, k, h, st);
    } else if st.Undo? {
      UndoKept(e, k, h, st);
    }
  }

  // ----- Over a run -----

  ghost function TellStep(s: State, h: Hist, st: Step, c: nat): Hist
    requires Inv(s) && Enabled(s, st) && h.mark <= |h.said|
  {
    if st.Connect? && st.c == c then FRESH
    else if IsHook(st) && st.c == c then
      assert ConnOk(s.e, s.conns[c]);
      Tell(s.e, s.conns[c], h, st)
    else h
  }

  ghost predicate OnRecord(s: State, h: Hist, c: nat) {
    h.mark <= |h.said| && (c in s.conns ==> Kept(s.e, s.conns[c], h))
  }

  lemma StepOnRecord(s: State, h: Hist, st: Step, c: nat)
    requires Inv(s) && Enabled(s, st) && OnRecord(s, h, c)
    ensures OnRecord(Apply(s, st), TellStep(s, h, st, c), c)
  {
    if Elsewhere(s, st, c) {
      ElsewhereKept(s, h, st, c);
    } else if IsHook(st) && st.c == c {
      OwnKept(s, h, st, c);
    }
  }

  lemma ElsewhereKept(s: State, h: Hist, st: Step, c: nat)
    requires Inv(s) && Enabled(s, st) && Elsewhere(s, st, c) && Kept(s.e, s.conns[c], h)
    ensures var s' := Apply(s, st); c in s'.conns && Kept(s'.e, s'.conns[c], h)
  {
    ElsewhereSame(s, st, c);
  }

  lemma OwnKept(s: State, h: Hist, st: Step, c: nat)
    requires Inv(s) && Enabled(s, st) && IsHook(st) && st.c == c && Kept(s.e, s.conns[c], h)
    ensures var s' := Apply(s, st); c in s'.conns && Kept(s'.e, s'.conns[c], TellStep(s, h, st, c))
  {
    assert ConnOk(s.e, s.conns[c]);
    HookKept(s.e, s.conns[c], h, st);
  }

  ghost function Told(s: State, h: Hist, run: seq<Step>, c: nat): (h': Hist)
    requires Inv(s) && Legal(s, run) && OnRecord(s, h, c)
    ensures OnRecord(Final(s, run), h', c)
    decreases |run|
  {
    if run == [] then h
    else
      StepInv(s, run[0]);
      StepOnRecord(s, h, run[0], c);
      Told(Apply(s, run[0]), TellStep(s, h, run[0], c), run[1..], c)
  }

  ghost function History(run: seq<Step>, c: nat): (h: Hist)
    requires FromInit(run)
    ensures OnRecord(Reached(run), h, c)
  {
    InitInv();
    Told(Init(), FRESH, run, c)
  }

  // ----- What lets go of a write -----

  // Of the transaction's accepted writes this call lets go of some: of all of them, or,
  // rolling one statement back, of those before the statement.
  predicate Tears(e: Engine, k: Conn, h: Hist, st: Step) {
    (LetsGo(e, k, st) && h.said != []) || (st.Undo? && !st.whole && h.mark > 0)
  }

  // After this call no write of the transaction is left to count: it has ended, or its
  // first statement is rolled back.
  ghost predicate Clears(e: Engine, k: Conn, h: Hist, st: Step)
    requires ConnOk(e, k) && IsHook(st) && HookEnabled(e, k, st)
  {
    || (st.Vote? && !Hook(e, k, st).ok)
    || (st.Decided? && !(IsPrepared(k.t, e) && !st.ok))
    || (st.Undo? && (st.whole || h.mark == 0))
  }

  // One more step of a run.
  lemma {:induction false} Snoc(s: State, h: Hist, run: seq<Step>, st: Step, c: nat)
    requires Inv(s) && Legal(s, run + [st]) && OnRecord(s, h, c)
    ensures Legal(s, run) && Enabled(Final(s, run), st)
    ensures Final(s, run + [st]) == Apply(Final(s, run), st)
    ensures Told(s, h, run + [st], c) == TellStep(Final(s, run), Told(s, h, run, c), st, c)
    decreases |run|
  {
    var all := run + [st];
    if run == [] {
      assert all == [st] && all[1..] == [];
    } else {
      assert all[0] == run[0] && all[1..] == run[1..] + [st];
      StepInv(s, run[0]);
      StepOnRecord(s, h, run[0], c);
      Snoc(Apply(s, run[0]), TellStep(s, h, run[0], c), run[1..], st, c);
    }
  }

  lemma SnocFromInit(run: seq<Step>, st: Step, c: nat)
    requires FromInit(run + [st])
    ensures FromInit(run) && Enabled(Reached(run), st)
    ensures History(run + [st], c) == TellStep(Reached(run), History(run, c), st, c)
  {
    InitInv();
    Snoc(Init(), FRESH, run, st, c);
  }

  ghost predicate TearsAt(run: seq<Step>, st: Step, c: nat) {
    && FromInit(run) && Enabled(Reached(run), st) && IsHook(st) && st.c == c
    && Tears(Reached(run).e, Reached(run).conns[c], History(run, c), st)
  }

  ghost predicate ClearsAt(run: seq<Step>, st: Step, c: nat) {
    && FromInit(run) && Enabled(Reached(run), st)
    && ((st.Connect? && st.c == c) ||
        (IsHook(st) && st.c == c && ConnOk(Reached(run).e, Reached(run).conns[c]) &&
         Clears(Reached(run).e, Reached(run).conns[c], History(run, c), st)))
  }

  // Step `k` of the run let go of a write, and none after it cleared the account.
  ghost predicate TornBy(run: seq<Step>, c: nat, k: nat) {
    k < |run| && TearsAt(run[..k], run[k], c) && forall j :: k < j < |run| ==> !ClearsAt(run[..j], run[j], c)
  }

  lemma StepGone(s: State, h: Hist, st: Step, c: nat)
    requires Inv(s) && Enabled(s, st) && OnRecord(s, h, c) && h.gone <= |h.said|
    requires IsHook(st) && st.c == c && ConnOk(s.e, s.conns[c])
    ensures var k := s.conns[c];
            if Clears(s.e, k, h, st) then TellStep(s, h, st, c).gone == 0
            else TellStep(s, h, st, c).gone > 0 <==> Tears(s.e, k, h, st) || h.gone > 0
    ensures TellStep(s, h, st, c).gone <= |TellStep(s, h, st, c).said|
    ensures !(Clears(s.e, s.conns[c], h, st) && Tears(s.e, s.conns[c], h, st))
  {
  }

  lemma {:induction false} GoneBound(run: seq<Step>, c: nat)
    requires FromInit(run)
    ensures History(run, c).gone <= |History(run, c).said|
    decreases |run|
  {
    if run != [] {
      var n := |run| - 1;
      assert run == run[..n] + [run[n]];
      SnocFromInit(run[..n], run[n], c);
      GoneBound(run[..n], c);
      GoneStep(run[..n], run[n], c);
    }
  }

  // How the count moves with one more step.
  lemma GoneStep(run: seq<Step>, st: Step, c: nat)
    requires FromInit(run + [st]) && FromInit(run) && Enabled(Reached(run), st)
    requires History(run + [st], c) == TellStep(Reached(run), History(run, c), st, c)
    requires History(run, c).gone <= |History(run, c).said|
    ensures History(run + [st], c).gone <= |History(run + [st], c).said|
    ensures if ClearsAt(run, st, c) then History(run + [st], c).gone == 0 && !TearsAt(run, st, c)
            else History(run + [st], c).gone > 0 <==> TearsAt(run, st, c) || History(run, c).gone > 0
  {
    var s := Reached(run);
    if IsHook(st) && st.c == c {
      assert ConnOk(s.e, s.conns[c]);
      StepGone(s, History(run, c), st, c);
    }
  }

  /** Writes of the open transaction are gone from its commit if and only if some call let
      go of them after they were accepted, and the account was not cleared since. */
  lemma {:induction false} GoneExactly(run: seq<Step>, c: nat)
    requires FromInit(run)
    ensures History(run, c).gone > 0 <==> exists k :: TornBy(run, c, k)
    decreases |run|
  {
    if run == [] {
      assert forall k :: !TornBy(run, c, k);
    } else {
      var n := |run| - 1;
      var prev, st := run[..n], run[n];
      assert run == prev + [st];
      SnocFromInit(prev, st, c);
      GoneBound(prev, c);
      GoneStep(prev, st, c);
      GoneExactly(prev, c);
      TornSnoc(prev, st, c);
    }
  }

  lemma TornSnoc(prev: seq<Step>, st: Step, c: nat)
    ensures (exists k :: TornBy(prev + [st], c, k)) <==>
              TearsAt(prev, st, c) || (!ClearsAt(prev, st, c) && exists k :: TornBy(prev, c, k))
  {
    var run, n := prev + [st], |prev|;
    forall k: nat ensures TornBy(run, c, k) <==>
        (k == n && TearsAt(prev, st, c)) || (k < n && TornBy(prev, c, k) && !ClearsAt(prev, st, c))
    {
      TornSnocAt(prev, st, c, k);
    }
    if TearsAt(prev, st, c) { assert TornBy(run, c, n); }
  }

  lemma TornSnocAt(prev: seq<Step>, st: Step, c: nat, k: nat)
    ensures TornBy(prev + [st], c, k) <==>
              (k == |prev| && TearsAt(prev, st, c)) || (k < |prev| && TornBy(prev, c, k) && !ClearsAt(prev, st, c))
  {
    var run, n := prev + [st], |prev|;
    assert run[..n] == prev && run[n] == st;
    assert forall j :: 0 <= j < n ==> run[..j] == prev[..j] && run[j] == prev[j];
  }

  // ----- What a commit applies -----

  /** After any run, a commit that succeeds applies, as one batch, the writes accepted
      since the transaction began that were not let go of: all of them if and only if no
      call let go of one. Without a handle that holds any it applies nothing; and a
      prepared transaction whose rollback was asked for and failed, its logged batch. */
  lemma CommitAppliesWhatIsLeft(run: seq<Step>, c: nat)
    requires FromInit(run) && Enabled(Reached(run), Decided(c, true))
    ensures var s := Reached(run);
            var t, h := s.conns[c].t, History(run, c);
            && h.gone <= |h.said|
            && Apply(s, Decided(c, true)).e.applied ==
                 s.e.applied +
                 (if Holds(t, s.e) then [Commit(Mine(t, s.e), h.said[h.gone..])]
                  else if IsPrepared(t, s.e) && Mine(t, s.e) in s.e.log then [Commit(Mine(t, s.e), s.e.log[Mine(t, s.e)].batch)]
                  else [])
            && (!Holds(t, s.e) ==> h.gone == |h.said|)
            && (h.said[h.gone..] == h.said <==> !exists k :: TornBy(run, c, k))
  {
    var s, h := Reached(run), History(run, c);
    WholeExactly(run, c);
    assert OnRecord(s, h, c);
    CommitAt(s, h, c);
  }

  lemma CommitAt(s: State, h: Hist, c: nat)
    requires Inv(s) && Enabled(s, Decided(c, true)) && Kept(s.e, s.conns[c], h)
    ensures var t := s.conns[c].t;
            && Apply(s, Decided(c, true)).e.applied ==
                 s.e.applied +
                 (if Holds(t, s.e) then [Commit(Mine(t, s.e), h.said[h.gone..])]
                  else if IsPrepared(t, s.e) && Mine(t, s.e) in s.e.log then [Commit(Mine(t, s.e), s.e.log[Mine(t, s.e)].batch)]
                  else [])
            && (!Holds(t, s.e) ==> h.gone == |h.said|)
  {
    assert ConnOk(s.e, s.conns[c]);
    CommitOfKept(s.e, s.conns[c], h);
  }

  lemma WholeExactly(run: seq<Step>, c: nat)
    requires FromInit(run)
    ensures var h := History(run, c);
            h.gone <= |h.said| && (h.said[h.gone..] == h.said <==> !exists k :: TornBy(run, c, k))
  {
    GoneBound(run, c);
    GoneExactly(run, c);
  }

  lemma CommitOfKept(e: Engine, k: Conn, h: Hist)
    requires Good(e) && ConnOk(e, k) && Kept(e, k, h)
    ensures CommitHook(k.t, e, true).e.applied ==
              e.applied +
              (if Holds(k.t, e) then [Commit(Mine(k.t, e), h.said[h.gone..])]
               else if IsPrepared(k.t, e) && Mine(k.t, e) in e.log then [Commit(Mine(k.t, e), e.log[Mine(k.t, e)].batch)]
               else [])
  {
    if IsPrepared(k.t, e) { assert PhaseOk(e, e.live[k.t.txn.value]); }
    if k.t.dirty || !IsPrepared(k.t, e) { CommitGives(k.t, e, true); }
  }

  /** And a vote that succeeds logs exactly those writes, under the server's name. */
  lemma VoteLogsWhatIsLeft(run: seq<Step>, c: nat, x: Xid.Id)
    requires FromInit(run) && Enabled(Reached(run), Vote(c, x, true)) && Xid.LengthsValid(x.gtrid, x.bqual)
    requires IsActive(Reached(run).conns[c].t, Reached(run).e)
    ensures var s := Reached(run);
            var t, h := s.conns[c].t, History(run, c);
            && h.gone <= |h.said|
            && Apply(s, Vote(c, x, true)).e.log ==
                 (if h.gone < |h.said| then s.e.log[Mine(t, s.e) := Record(Xid.Encode(x).value, h.said[h.gone..])] else s.e.log)
  {
    var s := Reached(run);
    assert ConnOk(s.e, s.conns[c]) && OnRecord(s, History(run, c), c);
    VoteGives(s.conns[c].t, s.e, x, true);
  }
}
