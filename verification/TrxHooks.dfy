/** The per-connection transaction context (tidesdb_trx_t) and the hooks that move
    it: begin or reset, prepare, commit, rollback, and the paths that replace the
    engine handle behind the server's back. */
module TrxHooks {
  import opened ByteOrder
  import opened EngineContract
  import Xid

  datatype Trx = Trx(txn: Option<nat>, dirty: bool, needsReset: bool, gen: nat)

  // A hook's result: the context, the engine, and whether it returned zero.
  datatype Out = Out(t: Trx, e: Engine, ok: bool)

  predicate Bound(t: Trx, e: Engine) {
    t.txn.Some? ==> t.txn.value in e.live
  }

  // An address the engine's allocator may hand out once this handle is freed.
  predicate Spare(t: Trx, e: Engine, p: nat) {
    p !in e.live || t.txn == Some(p)
  }

  predicate IsPrepared(t: Trx, e: Engine) {
    t.txn.Some? && t.txn.value in e.live && e.live[t.txn.value].phase == Prepared
  }

  // A prepared handle stands for a logged batch.
  predicate Logged(t: Trx, e: Engine) {
    IsPrepared(t, e) ==> e.live[t.txn.value].id in e.log
  }

  // ----- Specification of the hooks -----

  function Finished(t: Trx): Trx { t.(needsReset := true, dirty := false, gen := t.gen + 1) }

  function Dropped(t: Trx): Trx { t.(txn := None, dirty := false, gen := t.gen + 1) }

  function GetOrCreate(t: Trx, e: Engine, resetOk: bool, beginOk: bool, p: nat): Out
    requires Bound(t, e) && Spare(t, e, p)
  {
    if t.txn.None? then
      if beginOk then Out(t.(txn := Some(p), dirty := false, gen := t.gen + 1), Begin(e, p), true) else Out(t, e, false)
    else if !t.needsReset then Out(t, e, true)
    else if resetOk && !IsPrepared(t, e) then Out(t.(needsReset := false, gen := t.gen + 1), Reset(e, t.txn.value), true)
    else
      var e1 := Free(e, t.txn.value);
      if beginOk then Out(t.(txn := Some(p), needsReset := false, gen := t.gen + 1), Begin(e1, p), true)
      else Out(t.(txn := None), e1, false)
  }

  function PrepareHook(t: Trx, e: Engine, x: Xid.Id, ok: bool): Out
    requires Bound(t, e) && Xid.Held(x)
  {
    if t.txn.None? || !t.dirty then Out(t, e, true)
    else
      var p := t.txn.value;
      if Xid.Encode(x).None? then Out(Finished(t), PlainRollback(e, p), false)
      else
        var e1 := Prepare(e, p, Xid.Encode(x).value, ok);
        if CommitWorks(e, p, ok) then Out(t, e1, true)
        else Out(Dropped(t), Free(PlainRollback(e1, p), p), false)
  }

  function CommitHook(t: Trx, e: Engine, ok: bool): Out
    requires Bound(t, e) && Logged(t, e)
  {
    if t.txn.None? then Out(t, e, true)
    else
      var p := t.txn.value;
      match e.live[p].phase
      case Committed => Out(Finished(t), e, true)
      case Aborted => Out(Finished(t), e, true)
      case Prepared =>
        var e1 := Decide(e, e.live[p].id, true);
        if ok then Out(Finished(t), CommitPrepared(e1, p), true) else Out(t, e1, false)
      case Active =>
        if !t.dirty then Out(Finished(t), PlainRollback(e, p), true)
        else if ok then Out(Finished(t), PlainCommit(e, p, true), true)
        else Out(Dropped(t), Free(PlainRollback(PlainCommit(e, p, false), p), p), false)
  }

  function RollbackHook(t: Trx, e: Engine, ok: bool): Out
    requires Bound(t, e) && Logged(t, e)
  {
    if t.txn.None? then Out(t, e, true)
    else
      var p := t.txn.value;
      match e.live[p].phase
      case Committed => Out(Finished(t), e, true)
      case Aborted => Out(Finished(t), e, true)
      case Prepared =>
        var e1 := Decide(e, e.live[p].id, false);
        Out(Finished(t), if ok then RollbackPrepared(e1, p) else e1, true)
      case Active => Out(Finished(t), PlainRollback(e, p), true)
  }

  // The backup command lets go of its own connection's handle.
  function Backup(t: Trx, e: Engine): Out
    requires Bound(t, e)
  {
    if t.txn.None? then Out(t, e, true)
    else Out(Dropped(t), Free(PlainRollback(e, t.txn.value), t.txn.value), true)
  }

  // TRUNCATE discards the connection's transaction; the generation stays.
  function DeleteAll(t: Trx, e: Engine): Out
    requires Bound(t, e)
  {
    if t.txn.None? then Out(t, e, true)
    else Out(t.(txn := None, dirty := false), Free(PlainRollback(e, t.txn.value), t.txn.value), true)
  }

  // Before a column family is dropped or renamed.
  function Flush(t: Trx, e: Engine, ok: bool): Out
    requires Bound(t, e)
  {
    if t.txn.None? then Out(t, e, true)
    else
      var p := t.txn.value;
      var e1 := if !t.dirty then PlainRollback(e, p)
                else if CommitWorks(e, p, ok) then PlainCommit(e, p, ok)
                else PlainRollback(PlainCommit(e, p, ok), p);
      Out(Dropped(t).(needsReset := false), Free(e1, p), true)
  }

  // The commit in the middle of a bulk load.
  function Bulk(t: Trx, e: Engine, ok: bool, resetOk: bool, beginOk: bool, p: nat): Out
    requires Bound(t, e) && Spare(t, e, p)
  {
    if t.txn.None? then Out(t, e, true)
    else
      var was := t.txn.value;
      var e1 := PlainCommit(e, was, ok);
      if !CommitWorks(e, was, ok) then Out(t, e1, false)
      else if resetOk then Out(t.(gen := t.gen + 1), Reset(e1, was), true)
      else if beginOk then Out(t.(txn := Some(p), gen := t.gen + 1), Begin(Free(e1, was), p), true)
      else Out(t.(txn := None), Free(e1, was), false)
  }

  // ----- What a hook gives its caller -----

  predicate IsActive(t: Trx, e: Engine) {
    t.txn.Some? && t.txn.value in e.live && e.live[t.txn.value].phase == Active
  }

  // A commit of this connection would apply what its handle holds.
  predicate Holds(t: Trx, e: Engine) {
    t.dirty && (IsActive(t, e) || IsPrepared(t, e))
  }

  function Pending(t: Trx, e: Engine): Batch {
    if Holds(t, e) then e.live[t.txn.value].batch else []
  }

  /** A start that succeeds leaves an open handle. What was pending is gone exactly when
      there was a handle and the flag asked for a new one. */
  lemma StartGives(t: Trx, e: Engine, resetOk: bool, beginOk: bool, p: nat)
    requires Bound(t, e) && Spare(t, e, p)
    ensures var out := GetOrCreate(t, e, resetOk, beginOk, p);
            && (out.ok <==> (t.txn.Some? && (!t.needsReset || (resetOk && !IsPrepared(t, e)))) || beginOk)
            && (if out.ok then out.t.txn.Some? else out.t.txn.None?)
            && Pending(out.t, out.e) == (if t.txn.Some? && t.needsReset then [] else Pending(t, e))
  {
  }

  /** A vote that succeeds keeps what is pending and logs it under the server's name,
      unless there is nothing; one that fails leaves nothing pending and nothing logged. */
  lemma VoteGives(t: Trx, e: Engine, x: Xid.Id, ok: bool)
    requires Bound(t, e) && Xid.Held(x)
    ensures var out := PrepareHook(t, e, x, ok);
            && Pending(out.t, out.e) == (if out.ok then Pending(t, e) else [])
            && (IsActive(t, e) && t.dirty ==> (out.ok <==> ok && Xid.LengthsValid(x.gtrid, x.bqual)))
            && out.e.log ==
                 (if out.ok && IsActive(t, e) && Pending(t, e) != []
                  then e.log[e.live[t.txn.value].id := Record(Xid.Encode(x).value, Pending(t, e))] else e.log)
  {
  }

  /** A commit that succeeds applies what is pending, whole and as one batch; one that
      fails applies nothing and loses only what was not logged. */
  lemma CommitGives(t: Trx, e: Engine, ok: bool)
    requires Bound(t, e) && Logged(t, e) && (IsPrepared(t, e) ==> t.dirty && e.log[e.live[t.txn.value].id].batch == e.live[t.txn.value].batch)
    ensures var out := CommitHook(t, e, ok);
            && (out.ok <==> !Holds(t, e) || ok)
            && out.e.applied == e.applied + (if Holds(t, e) && ok then [Commit(e.live[t.txn.value].id, Pending(t, e))] else [])
            && Pending(out.t, out.e) == (if IsPrepared(t, e) && !ok then Pending(t, e) else [])
            && out.e.log == (if IsPrepared(t, e) && ok then e.log - {e.live[t.txn.value].id} else e.log)
  {
  }

  /** A rollback reports success, applies nothing and leaves nothing pending; a logged
      batch goes if the engine can take it back. */
  lemma RollbackGives(t: Trx, e: Engine, ok: bool)
    requires Bound(t, e) && Logged(t, e)
    ensures var out := RollbackHook(t, e, ok);
            && out.ok && out.e.applied == e.applied && Pending(out.t, out.e) == []
            && out.e.log == (if IsPrepared(t, e) && ok then e.log - {e.live[t.txn.value].id} else e.log)
  {
  }

  // What a plain commit of the handle would apply.
  function Open(t: Trx, e: Engine): Batch {
    if IsActive(t, e) then e.live[t.txn.value].batch else []
  }

  /** A mid-load commit that succeeds applies what the handle holds as one batch and
      leaves nothing open; one that fails applies nothing. It is refused when prepared. */
  lemma BulkGives(t: Trx, e: Engine, ok: bool, resetOk: bool, beginOk: bool, p: nat)
    requires Bound(t, e) && Spare(t, e, p)
    ensures var out := Bulk(t, e, ok, resetOk, beginOk, p);
            && out.e.applied == e.applied + (if IsActive(t, e) && ok then [Commit(e.live[t.txn.value].id, Open(t, e))] else [])
            && Open(out.t, out.e) == [] && out.e.log == e.log
            && (out.ok <==> t.txn.None? || (IsActive(t, e) && ok && (resetOk || beginOk)))
  {
  }

  /** A flush before DDL applies what a connection that wrote has open, if the commit
      succeeds, and always lets go of the handle. */
  lemma FlushGives(t: Trx, e: Engine, ok: bool)
    requires Bound(t, e)
    ensures var out := Flush(t, e, ok);
            && out.e.applied == e.applied + (if IsActive(t, e) && t.dirty && ok then [Commit(e.live[t.txn.value].id, Open(t, e))] else [])
            && out.t.txn.None? && out.e.log == e.log && (t.txn.Some? ==> t.txn.value !in out.e.live)
  {
  }

  /** The backup command and TRUNCATE let go of the handle and apply nothing. */
  lemma DropGives(t: Trx, e: Engine, out: Out)
    requires Bound(t, e) && (out == Backup(t, e) || out == DeleteAll(t, e))
    ensures out.e.applied == e.applied && out.e.log == e.log && out.t.txn.None? && (t.txn.Some? ==> t.txn.value !in out.e.live)
  {
  }

  // ----- The hooks as the plugin runs them -----

  class Context {
    var txn: Option<nat>
    var dirty: bool
    var needsReset: bool
    var gen: nat

    function Value(): Trx reads this { Trx(txn, dirty, needsReset, gen) }

    constructor (p: nat)
      ensures Value() == Trx(Some(p), false, false, 1)
    {
      txn, dirty, needsReset, gen := Some(p), false, false, 1;
    }

    method Start(e: Engine, resetOk: bool, beginOk: bool, p: nat) returns (e': Engine, ok: bool)
      requires Bound(Value(), e) && Spare(Value(), e, p)
      modifies this
      ensures Out(Value(), e', ok) == GetOrCreate(old(Value()), e, resetOk, beginOk, p)
    {
      e', ok := e, true;
      if txn.None? {
        if !beginOk { return e, false; }
        e' := Begin(e, p);
        txn, dirty, gen := Some(p), false, gen + 1;
      } else if needsReset {
        if resetOk && e.live[txn.value].phase != Prepared {
          e' := Reset(e, txn.value);
        } else {
          e' := Free(e, txn.value);
          txn := None;
          if !beginOk { return e', false; }
          e' := Begin(e', p);
          txn := Some(p);
        }
        needsReset, gen := false, gen + 1;
      }
    }

    method Vote(e: Engine, x: Xid.Id, prepares: bool) returns (e': Engine, ok: bool)
      requires Bound(Value(), e) && Xid.Held(x)
      modifies this
      ensures Out(Value(), e', ok) == PrepareHook(old(Value()), e, x, prepares)
    {
      e', ok := e, true;
      if txn.None? { return; }
      if !dirty { return; }
      var buf := new byte[Xid.HEADER_SIZE + Xid.DATA_SIZE];
      var n := Xid.Serialize(x, buf);
      var p := txn.value;
      if n == 0 {
        e' := PlainRollback(e, p);
        gen, needsReset, dirty := gen + 1, true, false;
        return e', false;
      }
      e' := Prepare(e, p, buf[..n], prepares);
      if !CommitWorks(e, p, prepares) {
        e' := Free(PlainRollback(e', p), p);
        txn, gen, dirty := None, gen + 1, false;
        ok := false;
      }
    }

    method Commit(e: Engine, ends: bool) returns (e': Engine, ok: bool)
      requires Bound(Value(), e) && Logged(Value(), e)
      modifies this
      ensures Out(Value(), e', ok) == CommitHook(old(Value()), e, ends)
    {
      e', ok := e, true;
      if txn.None? { return; }
      var p := txn.value;
      var state := e.live[p].phase;
      if state == Committed || state == Aborted {
        gen, needsReset, dirty := gen + 1, true, false;
        return;
      }
      if state == Prepared {
        e' := Decide(e, e.live[p].id, true);
        if !ends { return e', false; }
        e' := CommitPrepared(e', p);
        gen, needsReset, dirty := gen + 1, true, false;
        return;
      }
      if dirty {
        e' := PlainCommit(e, p, ends);
        if !ends {
          e' := Free(PlainRollback(e', p), p);
          txn, gen, dirty := None, gen + 1, false;
          return e', false;
        }
      } else {
        e' := PlainRollback(e, p);
      }
      gen, needsReset, dirty := gen + 1, true, false;
    }

    method Rollback(e: Engine, ends: bool) returns (e': Engine, ok: bool)
      requires Bound(Value(), e) && Logged(Value(), e)
      modifies this
      ensures Out(Value(), e', ok) == RollbackHook(old(Value()), e, ends)
    {
      e', ok := e, true;
      if txn.None? { return; }
      var p := txn.value;
      var state := e.live[p].phase;
      if state == Committed || state == Aborted {
      } else if state == Prepared {
        e' := Decide(e, e.live[p].id, false);
        if ends { e' := RollbackPrepared(e', p); }
      } else {
        e' := PlainRollback(e, p);
      }
      gen, needsReset, dirty := gen + 1, true, false;
    }

    method BulkCommit(e: Engine, commits: bool, resetOk: bool, beginOk: bool, p: nat) returns (e': Engine, ok: bool)
      requires Bound(Value(), e) && Spare(Value(), e, p)
      modifies this
      ensures Out(Value(), e', ok) == Bulk(old(Value()), e, commits, resetOk, beginOk, p)
    {
      e', ok := e, true;
      if txn.None? { return; }
      e' := PlainCommit(e, txn.value, commits);
      if !CommitWorks(e, txn.value, commits) { return e', false; }
      if resetOk {
        e' := Reset(e', txn.value);
      } else {
        e' := Free(e', txn.value);
        txn := None;
        if !beginOk { return e', false; }
        e' := Begin(e', p);
        txn := Some(p);
      }
      gen := gen + 1;
    }

    method FreeForBackup(e: Engine) returns (e': Engine)
      requires Bound(Value(), e)
      modifies this
      ensures Out(Value(), e', true) == Backup(old(Value()), e)
    {
      e' := e;
      if txn.Some? {
        e' := Free(PlainRollback(e, txn.value), txn.value);
        txn, dirty, gen := None, false, gen + 1;
      }
    }

    method DeleteAllRows(e: Engine) returns (e': Engine)
      requires Bound(Value(), e)
      modifies this
      ensures Out(Value(), e', true) == DeleteAll(old(Value()), e)
    {
      e' := e;
      if txn.Some? {
        e' := Free(PlainRollback(e, txn.value), txn.value);
        txn, dirty := None, false;
      }
    }

    method FlushBeforeDdl(e: Engine, commits: bool) returns (e': Engine)
      requires Bound(Value(), e)
      modifies this
      ensures Out(Value(), e', true) == Flush(old(Value()), e, commits)
    {
      e' := e;
      if txn.None? { return; }
      var p := txn.value;
      if dirty {
        e' := PlainCommit(e, p, commits);
        if !CommitWorks(e, p, commits) { e' := PlainRollback(e', p); }
      } else {
        e' := PlainRollback(e, p);
      }
      e' := Free(e', p);
      txn, gen, dirty, needsReset := None, gen + 1, false, false;
    }
  }
}
