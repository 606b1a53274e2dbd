/** Two-phase commit across crashes: connections running the hooks in any order the
    server allows, a crash at any point, and recovery at the next open. */
module TwoPhase {
  import opened ByteOrder
  import opened EngineContract
  import opened TrxHooks
  import Xid
  import Recovery

  // Where a connection stands for the server: between statements, in one, between
  // the two phases, or in a statement that has failed and must be rolled back.
  datatype Turn = Idle | Running | Voting | Failed

  datatype Conn = Conn(t: Trx, turn: Turn)

  // A cached engine iterator: the connection and the (handle, generation) pair it was
  // made under, and the life of the handle it belongs to.
  datatype Iter = Iter(c: nat, p: nat, gen: nat, id: nat)

  datatype State = State(e: Engine, conns: map<nat, Conn>, iters: set<Iter>, list: Recovery.List, open: bool)

  // A rollback of one statement inside a transaction (`whole` is false) is the same
  // hook call and rolls back everything.
  datatype Step =
    | Connect(c: nat, p: nat)
    | Start(c: nat, resetOk: bool, beginOk: bool, p: nat)
    | Write(c: nat, key: Bytes, value: Option<Bytes>, ok: bool)
    | Cache(c: nat)
    | Vote(c: nat, x: Xid.Id, ok: bool)
    | Decided(c: nat, ok: bool)
    | Undo(c: nat, whole: bool, ok: bool)
    | BulkBatch(c: nat, ok: bool, resetOk: bool, beginOk: bool, p: nat)
    | FreeForBackup(c: nat)
    | Truncate(c: nat)
    | FlushForDdl(c: nat, ok: bool)
    | Close(c: nat)
    | PowerLoss
    | Reopen(order: seq<nat>)
    | Recover(len: nat)
    | Resolve(x: Xid.Id, commit: bool, ok: bool)

  // ----- What each step needs and does -----

  // The steps that run a hook on one connection.
  predicate IsHook(st: Step) {
    st.Start? || st.Write? || st.Vote? || st.Decided? || st.Undo? || st.BulkBatch? || st.FreeForBackup? ||
    st.Truncate? || st.FlushForDdl?
  }

  // The server never hands the engine an identifier that is still in the log.
  ghost predicate NewName(e: Engine, x: Xid.Id) {
    Xid.Held(x) && forall id :: id in e.log ==> Some(e.log[id].xid) != Xid.Encode(x)
  }

  // Once the server has decided, it asks for the same again.
  predicate Agrees(e: Engine, id: nat, commit: bool) {
    id in e.decision ==> e.decision[id] == commit
  }

  ghost predicate HookEnabled(e: Engine, k: Conn, st: Step)
    requires IsHook(st)
  {
    match st
    case Start(_, _, _, p) => (k.turn == Idle || k.turn == Running) && Spare(k.t, e, p)
    case Write(_, _, _, _) => k.turn == Running
    case Vote(_, x, _) => (k.turn == Idle || k.turn == Running) && NewName(e, x)
    case Decided(_, _) => k.turn != Failed && (IsPrepared(k.t, e) ==> Agrees(e, e.live[k.t.txn.value].id, true))
    case Undo(_, _, _) => true
    case BulkBatch(_, _, _, _, p) => k.turn == Running && Spare(k.t, e, p)
    case FreeForBackup(_) => k.turn == Idle || k.turn == Running
    case Truncate(_) => k.turn == Idle || k.turn == Running
    case FlushForDdl(_, _) => k.turn == Idle || k.turn == Running
  }

  ghost predicate Enabled(s: State, st: Step) {
    if IsHook(st) then s.open && st.c in s.conns && HookEnabled(s.e, s.conns[st.c], st)
    else
      match st
      case Connect(c, p) => s.open && c !in s.conns && p !in s.e.live
      case Cache(c) => s.open && c in s.conns && s.conns[c].turn == Running
      case Close(c) => s.open && c in s.conns
      case PowerLoss => s.open
      case Reopen(order) => !s.open && Lists(s.e, order)
      case Recover(_) => s.open
      case Resolve(x, commit, _) =>
        s.open && Xid.Held(x) &&
        var i := Recovery.Target(s.list.entries, x);
        i < |s.list.entries| ==> Agrees(s.e, s.list.entries[i].txn, commit)
  }

  // The engine lists every logged batch once, in an order of its own.
  ghost predicate Lists(e: Engine, order: seq<nat>) {
    && (forall id :: id in order <==> id in e.log)
    && (forall i, j :: 0 <= i < j < |order| ==> order[i] != order[j])
  }

  function WriteHook(t: Trx, e: Engine, key: Bytes, value: Option<Bytes>, ok: bool): Out
    requires Bound(t, e) && t.txn.Some?
  {
    Out(t.(dirty := true), if ok then Put(e, t.txn.value, key, value) else e, ok)
  }

  ghost function Hook(e: Engine, k: Conn, st: Step): Out
    requires IsHook(st) && HookEnabled(e, k, st)
    requires Bound(k.t, e) && Logged(k.t, e) && (k.turn == Running ==> k.t.txn.Some?)
  {
    match st
    case Start(_, resetOk, beginOk, p) => GetOrCreate(k.t, e, resetOk, beginOk, p)
    case Write(_, key, value, ok) => WriteHook(k.t, e, key, value, ok)
    case Vote(_, x, ok) => PrepareHook(k.t, e, x, ok)
    case Decided(_, ok) => CommitHook(k.t, e, ok)
    case Undo(_, _, ok) => RollbackHook(k.t, e, ok)
    case BulkBatch(_, ok, resetOk, beginOk, p) => Bulk(k.t, e, ok, resetOk, beginOk, p)
    case FreeForBackup(_) => Backup(k.t, e)
    case Truncate(_) => DeleteAll(k.t, e)
    case FlushForDdl(_, ok) => Flush(k.t, e, ok)
  }

  function NextTurn(st: Step, ok: bool): Turn
    requires IsHook(st)
  {
    match st
    case Start(_, _, _, _) => if ok then Running else Idle
    case Write(_, _, _, _) => Running
    case Vote(_, _, _) => if ok then Voting else Idle
    case BulkBatch(_, _, _, _, _) => if ok then Running else Failed
    case _ => Idle
  }

  function NoList(): Recovery.List { Recovery.List([], 0, [], [], {}) }

  ghost function Apply(s: State, st: Step): State
    requires Inv(s) && Enabled(s, st)
  {
    if IsHook(st) then
      var k := s.conns[st.c];
      assert ConnOk(s.e, k);
      var out := Hook(s.e, k, st);
      s.(e := out.e, conns := s.conns[st.c := Conn(out.t, NextTurn(st, out.ok))])
    else
      match st
      case Connect(c, p) =>
        s.(e := Begin(s.e, p), conns := s.conns[c := Conn(Trx(Some(p), false, false, 1), Running)])
      case Cache(c) =>
        var k := s.conns[c];
        assert ConnOk(s.e, k);
        s.(iters := s.iters + {Iter(c, k.t.txn.value, k.t.gen, s.e.live[k.t.txn.value].id)})
      case Close(c) =>
        var t := s.conns[c].t;
        assert ConnOk(s.e, s.conns[c]);
        s.(e := if t.txn.Some? then Free(PlainRollback(s.e, t.txn.value), t.txn.value) else s.e,
           conns := s.conns - {c}, iters := set it | it in s.iters && it.c != c)
      case PowerLoss => State(Crash(s.e), map[], {}, NoList(), false)
      case Reopen(order) => s.(list := Recovery.Opened(Found(s.e, order)), open := true)
      case Recover(len) => s.(list := Recovery.Do(s.list, Recovery.Recover(len)))
      case Resolve(x, commit, ok) =>
        var i := Recovery.Target(s.list.entries, x);
        if i == |s.list.entries| then s
        else
          var id := s.list.entries[i].txn;
          assert s.list.entries[i] in s.list.entries;
          s.(e := EndRecord(s.e, id, commit, ok), list := Recovery.Do(s.list, Recovery.Resolve(x, ok)))
  }

  // The server's decision about a recovered batch; the engine may fail to record it.
  function EndRecord(e: Engine, id: nat, commit: bool, ok: bool): (e': Engine)
    requires id in e.log
    ensures e'.live == e.live
  {
    var e1 := Decide(e, id, commit);
    if !ok then e1 else if commit then CommitRecord(e1, id) else RollbackRecord(e1, id)
  }

  ghost function Found(e: Engine, order: seq<nat>): seq<(Bytes, nat)>
    requires Lists(e, order)
  {
    seq(|order|, i requires 0 <= i < |order| => assert order[i] in order; (e.log[order[i]].xid, order[i]))
  }

  // ----- The invariant -----

  ghost predicate ConnOk(e: Engine, k: Conn) {
    && Bound(k.t, e) && Logged(k.t, e)
    && (k.turn == Running ==> k.t.txn.Some?)
    && (k.t.txn.Some? && (k.turn == Running || (k.turn == Idle && !k.t.needsReset)) ==>
          e.live[k.t.txn.value].phase == Active || e.live[k.t.txn.value].phase == Prepared)
  }

  ghost predicate Apart(conns: map<nat, Conn>) {
    forall c, d :: c in conns && d in conns && c != d && conns[c].t.txn.Some? ==> conns[c].t.txn != conns[d].t.txn
  }

  // Every logged name can be read back, and no two batches share one.
  ghost predicate Names(e: Engine) {
    && (forall id :: id in e.log ==> Xid.Decode(e.log[id].xid).Some?)
    && (forall i, j :: i in e.log && j in e.log && i != j ==> e.log[i].xid != e.log[j].xid)
  }

  // The in-doubt entries are logged batches that no connection holds.
  ghost predicate ListOk(s: State) {
    && Recovery.Ok(s.list)
    && (forall x :: x in s.list.entries ==> x.txn in s.e.log && s.e.log[x.txn].xid == x.xid)
    && (forall x, p :: x in s.list.entries && p in s.e.live ==> s.e.live[p].id != x.txn)
  }

  ghost predicate IterOk(s: State, it: Iter) {
    && it.c in s.conns && it.gen <= s.conns[it.c].t.gen
    && (it.gen == s.conns[it.c].t.gen && s.conns[it.c].t.txn == Some(it.p) ==>
          it.p in s.e.live && s.e.live[it.p].id == it.id)
  }

  ghost predicate Inv(s: State) {
    && Good(s.e) && Names(s.e)
    && (forall c :: c in s.conns ==> ConnOk(s.e, s.conns[c])) && Apart(s.conns)
    && (forall it :: it in s.iters ==> IterOk(s, it))
    && ListOk(s)
    && (!s.open ==> s.conns == map[] && s.e.live == map[] && s.list == NoList())
  }

  ghost function Init(): State {
    State(Engine(map[], map[], [], 0, map[], map[], {}), map[], {}, NoList(), false)
  }

  lemma InitInv()
    ensures Inv(Init())
  {
  }

  // ----- What a hook keeps of the engine -----

  ghost predicate Safe(e: Engine, e': Engine) { Good(e') && Grows(e, e') }

  lemma SafeOn(e: Engine, e1: Engine, e2: Engine)
    requires Safe(e, e1) && Safe(e1, e2)
    ensures Safe(e, e2)
  {
    GrowsOn(e, e1, e2);
  }

  lemma StartSafe(t: Trx, e: Engine, resetOk: bool, beginOk: bool, p: nat)
    requires Good(e) && Bound(t, e) && Spare(t, e, p)
    ensures Safe(e, GetOrCreate(t, e, resetOk, beginOk, p).e)
  {
    if t.txn.None? {
      KeepsBegin(e, p);
    } else if t.needsReset && resetOk && !IsPrepared(t, e) {
      KeepsReset(e, t.txn.value);
    } else if t.needsReset {
      ReplaceSafe(e, t.txn.value, p);
    }
  }

  lemma ReplaceSafe(e: Engine, was: nat, p: nat)
    requires Good(e) && (p !in e.live || p == was)
    ensures Safe(e, Free(e, was)) && Safe(e, Begin(Free(e, was), p))
  {
    KeepsFree(e, was);
    KeepsBegin(Free(e, was), p);
    SafeOn(e, Free(e, was), Begin(Free(e, was), p));
  }

  lemma RollbackFree(e: Engine, e1: Engine, p: nat)
    requires Safe(e, e1) && p in e1.live
    ensures Safe(e, PlainRollback(e1, p)) && Safe(e, Free(PlainRollback(e1, p), p))
  {
    var e2 := PlainRollback(e1, p);
    KeepsRollback(e1, p);
    KeepsFree(e2, p);
    SafeOn(e, e1, e2);
    SafeOn(e, e2, Free(e2, p));
  }

  lemma VoteSafe(t: Trx, e: Engine, x: Xid.Id, ok: bool)
    requires Good(e) && Bound(t, e) && Xid.Held(x)
    ensures Safe(e, PrepareHook(t, e, x, ok).e)
  {
    if t.txn.Some? && t.dirty {
      var p := t.txn.value;
      if Xid.Encode(x).None? {
        KeepsRollback(e, p);
      } else {
        var xid := Xid.Encode(x).value;
        KeepsPrepare(e, p, xid, ok);
        RollbackFree(e, Prepare(e, p, xid, ok), p);
      }
    }
  }

  lemma PhaseTwoSafe(e: Engine, p: nat, commit: bool)
    requires Good(e) && p in e.live && e.live[p].phase == Prepared && e.live[p].id in e.log
    requires commit ==> Agrees(e, e.live[p].id, true)
    ensures var e1 := Decide(e, e.live[p].id, commit);
            Safe(e, e1) && Safe(e, if commit then CommitPrepared(e1, p) else RollbackPrepared(e1, p))
  {
    var id := e.live[p].id;
    var e1 := Decide(e, id, commit);
    KeepsDecide(e, id, commit);
    EndSafe(e1, p, commit);
    SafeOn(e, e1, if commit then CommitPrepared(e1, p) else RollbackPrepared(e1, p));
  }

  lemma EndSafe(e: Engine, p: nat, commit: bool)
    requires Good(e) && p in e.live && e.live[p].phase == Prepared && e.live[p].id in e.log && e.live[p].id in e.decision
    requires commit ==> e.decision[e.live[p].id]
    ensures Safe(e, if commit then CommitPrepared(e, p) else RollbackPrepared(e, p))
  {
    var t := e.live[p];
    if commit {
      KeepsCommitRecord(e, t.id, e.live[p := t.(phase := Committed)]);
    } else {
      KeepsRollbackRecord(e, t.id, e.live[p := t.(phase := Aborted)]);
    }
  }

  lemma CommitSafe(t: Trx, e: Engine, ok: bool)
    requires Good(e) && Bound(t, e) && Logged(t, e)
    requires IsPrepared(t, e) ==> Agrees(e, e.live[t.txn.value].id, true)
    ensures Safe(e, CommitHook(t, e, ok).e)
  {
    if t.txn.Some? {
      var p := t.txn.value;
      if e.live[p].phase == Prepared {
        PhaseTwoSafe(e, p, true);
      } else if e.live[p].phase == Active {
        KeepsCommit(e, p, ok);
        RollbackFree(e, if t.dirty then PlainCommit(e, p, ok) else e, p);
      }
    }
  }

  lemma UndoSafe(t: Trx, e: Engine, ok: bool)
    requires Good(e) && Bound(t, e) && Logged(t, e)
    ensures Safe(e, RollbackHook(t, e, ok).e)
  {
    if t.txn.Some? {
      if IsPrepared(t, e) { PhaseTwoSafe(e, t.txn.value, false); } else { KeepsRollback(e, t.txn.value); }
    }
  }

  lemma FlushSafe(t: Trx, e: Engine, ok: bool)
    requires Good(e) && Bound(t, e)
    ensures Safe(e, Flush(t, e, ok).e)
  {
    if t.txn.Some? {
      var p := t.txn.value;
      if t.dirty {
        var e1 := PlainCommit(e, p, ok);
        KeepsCommit(e, p, ok);
        RollbackFree(e, e1, p);
        KeepsFree(e1, p);
        SafeOn(e, e1, Free(e1, p));
      } else {
        RollbackFree(e, e, p);
      }
    }
  }

  lemma BulkSafe(t: Trx, e: Engine, ok: bool, resetOk: bool, beginOk: bool, p: nat)
    requires Good(e) && Bound(t, e) && Spare(t, e, p)
    ensures Safe(e, Bulk(t, e, ok, resetOk, beginOk, p).e)
  {
    if t.txn.Some? {
      var was := t.txn.value;
      var e1 := PlainCommit(e, was, ok);
      KeepsCommit(e, was, ok);
      if CommitWorks(e, was, ok) {
        if resetOk {
          KeepsReset(e1, was);
          SafeOn(e, e1, Reset(e1, was));
        } else {
          ReplaceSafe(e1, was, p);
          SafeOn(e, e1, Free(e1, was));
          SafeOn(e, e1, Begin(Free(e1, was), p));
        }
      }
    }
  }

  lemma HookSafe(e: Engine, k: Conn, st: Step)
    requires Good(e) && ConnOk(e, k) && IsHook(st) && HookEnabled(e, k, st)
    ensures Safe(e, Hook(e, k, st).e)
  {
    match st
    case Start(_, resetOk, beginOk, p) => StartSafe(k.t, e, resetOk, beginOk, p);
    case Write(_, key, value, ok) => KeepsPut(e, k.t.txn.value, key, value);
    case Vote(_, x, ok) => VoteSafe(k.t, e, x, ok);
    case Decided(_, ok) => CommitSafe(k.t, e, ok);
    case Undo(_, _, ok) => UndoSafe(k.t, e, ok);
    case BulkBatch(_, ok, resetOk, beginOk, p) => BulkSafe(k.t, e, ok, resetOk, beginOk, p);
    case FreeForBackup(_) => if k.t.txn.Some? { RollbackFree(e, e, k.t.txn.value); }
    case Truncate(_) => if k.t.txn.Some? { RollbackFree(e, e, k.t.txn.value); }
    case FlushForDdl(_, ok) => FlushSafe(k.t, e, ok);
  }

  // ----- What a hook leaves alone -----

  // The life a context's handle is in; without one, a life that has not begun.
  function Mine(t: Trx, e: Engine): nat {
    if t.txn.Some? && t.txn.value in e.live then e.live[t.txn.value].id else e.next
  }

  // Every other handle stays as it is and keeps its address to itself.
  ghost predicate OthersStay(t: Trx, e: Engine, t': Trx, e': Engine) {
    && (forall q :: q in e.live && t.txn != Some(q) ==> q in e'.live && e'.live[q] == e.live[q] && t'.txn != Some(q))
    && (forall q :: q in e'.live && (q !in e.live || t.txn == Some(q)) ==> t'.txn == Some(q))
    && Bound(t', e')
  }

  // A handle's life stays or is new, and if the (handle, generation) pair stays, so does the life.
  ghost predicate LivesOk(t: Trx, e: Engine, t': Trx, e': Engine) {
    && e.next <= e'.next && t.gen <= t'.gen
    && (t'.txn.Some? && Bound(t', e') ==> Mine(t', e') == Mine(t, e) || Mine(t', e') >= e.next)
    && (t.gen == t'.gen && t'.txn.Some? ==> t'.txn == t.txn && Mine(t', e') == Mine(t, e))
  }

  // Only this life's record comes or goes, and it comes only under `xid`.
  ghost predicate LogStays(e: Engine, e': Engine, mine: nat, xid: Option<Bytes>) {
    && (forall id :: id in e.log && id != mine ==> id in e'.log && e'.log[id] == e.log[id])
    && (forall id :: id in e'.log ==> (id in e.log && e'.log[id] == e.log[id]) || (id == mine && Some(e'.log[id].xid) == xid))
  }

  function NameOf(st: Step): Option<Bytes> {
    if st.Vote? && Xid.Held(st.x) then Xid.Encode(st.x) else None
  }

  ghost predicate Confined(t: Trx, e: Engine, out: Out, xid: Option<Bytes>) {
    OthersStay(t, e, out.t, out.e) && LivesOk(t, e, out.t, out.e) && LogStays(e, out.e, Mine(t, e), xid)
  }

  lemma StartConfined(t: Trx, e: Engine, resetOk: bool, beginOk: bool, p: nat)
    requires Bound(t, e) && Spare(t, e, p)
    ensures Confined(t, e, GetOrCreate(t, e, resetOk, beginOk, p), None)
  {
  }

  lemma VoteConfined(t: Trx, e: Engine, x: Xid.Id, ok: bool)
    requires Bound(t, e) && Xid.Held(x)
    ensures Confined(t, e, PrepareHook(t, e, x, ok), Xid.Encode(x))
  {
  }

  lemma PhaseTwoConfined(t: Trx, e: Engine, ok: bool)
    requires Bound(t, e) && Logged(t, e) && IsPrepared(t, e)
    ensures Confined(t, e, CommitHook(t, e, ok), None)
  {
  }

  lemma CommitConfined(t: Trx, e: Engine, ok: bool)
    requires Bound(t, e) && Logged(t, e)
    ensures Confined(t, e, CommitHook(t, e, ok), None)
  {
    if IsPrepared(t, e) { PhaseTwoConfined(t, e, ok); }
  }

  lemma UndoConfined(t: Trx, e: Engine, ok: bool)
    requires Bound(t, e) && Logged(t, e)
    ensures Confined(t, e, RollbackHook(t, e, ok), None)
  {
  }

  lemma BulkConfined(t: Trx, e: Engine, ok: bool, resetOk: bool, beginOk: bool, p: nat)
    requires Bound(t, e) && Spare(t, e, p)
    ensures Confined(t, e, Bulk(t, e, ok, resetOk, beginOk, p), None)
  {
  }

  lemma FlushConfined(t: Trx, e: Engine, ok: bool)
    requires Bound(t, e)
    ensures Confined(t, e, Flush(t, e, ok), None)
  {
  }

  lemma BackupConfined(t: Trx, e: Engine)
    requires Bound(t, e)
    ensures Confined(t, e, Backup(t, e), None) && Confined(t, e, DeleteAll(t, e), None)
  {
  }

  lemma HookConfined(e: Engine, k: Conn, st: Step)
    requires ConnOk(e, k) && IsHook(st) && HookEnabled(e, k, st)
    ensures Confined(k.t, e, Hook(e, k, st), NameOf(st))
  {
    match st
    case Start(_, resetOk, beginOk, p) => StartConfined(k.t, e, resetOk, beginOk, p);
    case Write(_, key, value, ok) =>
    case Vote(_, x, ok) => VoteConfined(k.t, e, x, ok);
    case Decided(_, ok) => CommitConfined(k.t, e, ok);
    case Undo(_, _, ok) => UndoConfined(k.t, e, ok);
    case BulkBatch(_, ok, resetOk, beginOk, p) => BulkConfined(k.t, e, ok, resetOk, beginOk, p);
    case FreeForBackup(_) => BackupConfined(k.t, e);
    case Truncate(_) => BackupConfined(k.t, e);
    case FlushForDdl(_, ok) => FlushConfined(k.t, e, ok);
  }

  lemma CommitTurn(t: Trx, e: Engine, ok: bool)
    requires Bound(t, e) && Logged(t, e)
    ensures ConnOk(CommitHook(t, e, ok).e, Conn(CommitHook(t, e, ok).t, Idle))
  {
  }

  lemma BulkTurn(t: Trx, e: Engine, ok: bool, resetOk: bool, beginOk: bool, p: nat)
    requires Bound(t, e) && Logged(t, e) && Spare(t, e, p) && t.txn.Some?
    ensures var out := Bulk(t, e, ok, resetOk, beginOk, p); ConnOk(out.e, Conn(out.t, if out.ok then Running else Failed))
  {
  }

  lemma StartTurn(t: Trx, e: Engine, resetOk: bool, beginOk: bool, p: nat)
    requires ConnOk(e, Conn(t, Idle)) && Spare(t, e, p)
    ensures var out := GetOrCreate(t, e, resetOk, beginOk, p); ConnOk(out.e, Conn(out.t, if out.ok then Running else Idle))
  {
  }

  lemma VoteTurn(t: Trx, e: Engine, x: Xid.Id, ok: bool)
    requires ConnOk(e, Conn(t, Idle)) && Xid.Held(x)
    ensures var out := PrepareHook(t, e, x, ok); ConnOk(out.e, Conn(out.t, if out.ok then Voting else Idle))
  {
  }

  lemma HookTurn(e: Engine, k: Conn, st: Step)
    requires Good(e) && ConnOk(e, k) && IsHook(st) && HookEnabled(e, k, st)
    ensures var out := Hook(e, k, st); ConnOk(out.e, Conn(out.t, NextTurn(st, out.ok)))
  {
    match st
    case Start(_, resetOk, beginOk, p) => StartTurn(k.t, e, resetOk, beginOk, p);
    case Vote(_, x, ok) => VoteTurn(k.t, e, x, ok);
    case Decided(_, ok) => CommitTurn(k.t, e, ok);
    case BulkBatch(_, ok, resetOk, beginOk, p) => BulkTurn(k.t, e, ok, resetOk, beginOk, p);
    case _ =>
  }

  // ----- Every step keeps the invariant -----

  // A connection's context moved on from `t` to `t'`, confined to its own handle.
  lemma NamesStay(e: Engine, e': Engine, mine: nat, xid: Option<Bytes>)
    requires Names(e) && LogStays(e, e', mine, xid)
    requires xid.Some? ==> Xid.Decode(xid.value).Some? && forall id :: id in e.log ==> e.log[id].xid != xid.value
    ensures Names(e')
  {
  }

  lemma OthersKeepConn(t: Trx, e: Engine, out: Out, xid: Option<Bytes>, k: Conn)
    requires Good(e) && Confined(t, e, out, xid) && ConnOk(e, k) && (k.t.txn.Some? ==> k.t.txn != t.txn)
    ensures ConnOk(out.e, k)
  {
    if IsPrepared(k.t, e) && t.txn.Some? && t.txn.value in e.live {
      assert Mine(t, e) != e.live[k.t.txn.value].id;
    }
  }

  // The in-doubt entries are untouched by a connection.
  lemma ListStays(e: Engine, list: Recovery.List, t: Trx, out: Out, xid: Option<Bytes>)
    requires Good(e) && Confined(t, e, out, xid)
    requires forall x :: x in list.entries ==> x.txn in e.log && e.log[x.txn].xid == x.xid
    requires forall x, p :: x in list.entries && p in e.live ==> e.live[p].id != x.txn
    ensures forall x :: x in list.entries ==> x.txn in out.e.log && out.e.log[x.txn].xid == x.xid
    ensures forall x, p :: x in list.entries && p in out.e.live ==> out.e.live[p].id != x.txn
  {
    forall x | x in list.entries ensures x.txn in out.e.log && out.e.log[x.txn].xid == x.xid {
      assert x.txn != Mine(t, e);
    }
    forall x, p | x in list.entries && p in out.e.live ensures out.e.live[p].id != x.txn {
      if out.t.txn == Some(p) { assert Mine(out.t, out.e) == Mine(t, e) || Mine(out.t, out.e) >= e.next; }
    }
  }

  lemma HookItersOk(s: State, st: Step, it: Iter)
    requires Inv(s) && IsHook(st) && Enabled(s, st) && it in s.iters
    ensures IterOk(Apply(s, st), it)
  {
    var k := s.conns[st.c];
    assert ConnOk(s.e, k) && IterOk(s, it) && ConnOk(s.e, s.conns[it.c]);
    HookConfined(s.e, k, st);
  }

  lemma HookNames(s: State, st: Step)
    requires Inv(s) && IsHook(st) && Enabled(s, st)
    ensures Names(Apply(s, st).e)
  {
    var k := s.conns[st.c];
    assert ConnOk(s.e, k);
    HookConfined(s.e, k, st);
    if NameOf(st).Some? { Xid.DecodeEncode(st.x); }
    NamesStay(s.e, Apply(s, st).e, Mine(k.t, s.e), NameOf(st));
  }

  lemma HookConns(s: State, st: Step, c: nat)
    requires Inv(s) && IsHook(st) && Enabled(s, st) && c in s.conns
    ensures ConnOk(Apply(s, st).e, Apply(s, st).conns[c])
  {
    var k := s.conns[st.c];
    assert ConnOk(s.e, k) && ConnOk(s.e, s.conns[c]);
    if c == st.c {
      HookTurn(s.e, k, st);
    } else {
      HookConfined(s.e, k, st);
      OthersKeepConn(k.t, s.e, Hook(s.e, k, st), NameOf(st), s.conns[c]);
    }
  }

  lemma ApartStays(conns: map<nat, Conn>, e: Engine, c: nat, k': Conn, e': Engine)
    requires c in conns && Apart(conns) && (forall d :: d in conns ==> Bound(conns[d].t, e))
    requires OthersStay(conns[c].t, e, k'.t, e')
    ensures Apart(conns[c := k'])
  {
  }

  lemma HookApart(s: State, st: Step)
    requires Inv(s) && IsHook(st) && Enabled(s, st)
    ensures Apart(Apply(s, st).conns)
  {
    assert forall d :: d in s.conns ==> ConnOk(s.e, s.conns[d]);
    HookConfined(s.e, s.conns[st.c], st);
    ApartStays(s.conns, s.e, st.c, Apply(s, st).conns[st.c], Apply(s, st).e);
  }

  lemma HookInv(s: State, st: Step)
    requires Inv(s) && IsHook(st) && Enabled(s, st)
    ensures Inv(Apply(s, st)) && Safe(s.e, Apply(s, st).e)
  {
    var s' := Apply(s, st);
    var k := s.conns[st.c];
    assert ConnOk(s.e, k);
    HookSafe(s.e, k, st);
    HookNames(s, st);
    HookApart(s, st);
    forall c | c in s'.conns ensures ConnOk(s'.e, s'.conns[c]) { HookConns(s, st, c); }
    forall it | it in s'.iters ensures IterOk(s', it) { HookItersOk(s, st, it); }
    HookConfined(s.e, k, st);
    ListStays(s.e, s.list, k.t, Hook(s.e, k, st), NameOf(st));
  }
}
