/** The key/value engine as the plugin sees it: transaction handles, the durable log
    of prepared batches, and the batches made visible. The engine's own code is not
    modelled; this is the contract the plugin's comments state for it. */
module EngineContract {
  import opened ByteOrder

  type Batch = seq<(Bytes, Option<Bytes>)>

  datatype Phase = Active | Prepared | Committed | Aborted

  // The life a handle is in: reset starts a new one in the same handle.
  datatype Txn = Txn(id: nat, phase: Phase, batch: Batch)

  datatype Record = Record(xid: Bytes, batch: Batch)

  datatype Commit = Commit(id: nat, batch: Batch)

  // `voted`, `decision` and `overruled` are history: which batches were ever durably
  // prepared, what the server first decided about each, and which commit decisions
  // were followed by a rollback.
  datatype Engine = Engine(
    live: map<nat, Txn>, log: map<nat, Record>, applied: seq<Commit>, next: nat,
    voted: map<nat, Record>, decision: map<nat, bool>, overruled: set<nat>)

  // ----- Calls -----

  function Begin(e: Engine, p: nat): Engine
    requires p !in e.live
  {
    e.(live := e.live[p := Txn(e.next, Active, [])], next := e.next + 1)
  }

  function Free(e: Engine, p: nat): Engine {
    e.(live := e.live - {p})
  }

  // Refused while the batch is prepared.
  function Reset(e: Engine, p: nat): Engine
    requires p in e.live && e.live[p].phase != Prepared
  {
    e.(live := e.live[p := Txn(e.next, Active, [])], next := e.next + 1)
  }

  function Put(e: Engine, p: nat, key: Bytes, value: Option<Bytes>): Engine
    requires p in e.live
  {
    var t := e.live[p];
    if t.phase == Active then e.(live := e.live[p := t.(batch := t.batch + [(key, value)])]) else e
  }

  predicate CommitWorks(e: Engine, p: nat, ok: bool)
    requires p in e.live
  {
    e.live[p].phase == Active && ok
  }

  // A commit that fails has aborted the transaction; a finished or prepared one is refused.
  function PlainCommit(e: Engine, p: nat, ok: bool): Engine
    requires p in e.live
  {
    var t := e.live[p];
    if t.phase != Active then e
    else if !ok then e.(live := e.live[p := t.(phase := Aborted)])
    else e.(live := e.live[p := t.(phase := Committed)], applied := e.applied + [Commit(t.id, t.batch)])
  }

  // Refused unless active.
  function PlainRollback(e: Engine, p: nat): Engine
    requires p in e.live
  {
    var t := e.live[p];
    if t.phase == Active then e.(live := e.live[p := t.(phase := Aborted)]) else e
  }

  // An empty batch has nothing to vote about and is committed on the spot.
  function Prepare(e: Engine, p: nat, xid: Bytes, ok: bool): Engine
    requires p in e.live
  {
    var t := e.live[p];
    if t.phase != Active then e
    else if !ok then e.(live := e.live[p := t.(phase := Aborted)])
    else if t.batch == [] then
      e.(live := e.live[p := t.(phase := Committed)], applied := e.applied + [Commit(t.id, [])])
    else
      e.(live := e.live[p := t.(phase := Prepared)], log := e.log[t.id := Record(xid, t.batch)],
         voted := e.voted[t.id := Record(xid, t.batch)])
  }

  function Decide(e: Engine, id: nat, commit: bool): Engine {
    if id in e.decision then e else e.(decision := e.decision[id := commit])
  }

  // Ends a logged batch whose handle is not one of `live`: the recovered handles.
  function CommitRecord(e: Engine, id: nat): Engine
    requires id in e.log
  {
    e.(log := e.log - {id}, applied := e.applied + [Commit(id, e.log[id].batch)])
  }

  function RollbackRecord(e: Engine, id: nat): Engine
    requires id in e.log
  {
    e.(log := e.log - {id},
       overruled := if id in e.decision && e.decision[id] then e.overruled + {id} else e.overruled)
  }

  function CommitPrepared(e: Engine, p: nat): Engine
    requires p in e.live && e.live[p].phase == Prepared && e.live[p].id in e.log
  {
    var t := e.live[p];
    CommitRecord(e.(live := e.live[p := t.(phase := Committed)]), t.id)
  }

  function RollbackPrepared(e: Engine, p: nat): Engine
    requires p in e.live && e.live[p].phase == Prepared && e.live[p].id in e.log
  {
    var t := e.live[p];
    RollbackRecord(e.(live := e.live[p := t.(phase := Aborted)]), t.id)
  }

  // What survives is the log and what was applied.
  function Crash(e: Engine): Engine { e.(live := map[]) }

  // ----- What every call keeps -----

  predicate Visible(e: Engine, id: nat) {
    exists k :: 0 <= k < |e.applied| && e.applied[k].id == id
  }

  // Prepared once, and neither undecided nor visible any more.
  predicate Discarded(e: Engine, id: nat) {
    id in e.voted && id !in e.log && !Visible(e, id)
  }

  ghost predicate Handles(e: Engine) {
    && (forall p :: p in e.live ==> e.live[p].id < e.next)
    && (forall p, q :: p in e.live && q in e.live && p != q ==> e.live[p].id != e.live[q].id)
  }

  ghost predicate Phases(e: Engine) {
    forall p :: p in e.live ==> PhaseOk(e, e.live[p])
  }

  ghost predicate PhaseOk(e: Engine, t: Txn) {
    match t.phase
    case Active => t.id !in e.voted && !Visible(e, t.id)
    case Prepared => t.id in e.log && e.log[t.id].batch == t.batch
    case Committed => t.id !in e.log && Visible(e, t.id)
    case Aborted => t.id !in e.log && !Visible(e, t.id)
  }

  ghost predicate Log(e: Engine) {
    && (forall id :: id in e.log ==> id in e.voted && e.voted[id] == e.log[id] && !Visible(e, id))
    && (forall id :: id in e.voted ==> id < e.next)
  }

  // No batch is applied twice, and a prepared one only whole and after a commit decision.
  ghost predicate AppliedOk(e: Engine) {
    && (forall k :: 0 <= k < |e.applied| ==> e.applied[k].id < e.next)
    && (forall j, k :: 0 <= j < k < |e.applied| ==> e.applied[j].id != e.applied[k].id)
    && (forall k :: 0 <= k < |e.applied| && e.applied[k].id in e.voted ==>
          && e.applied[k].id in e.decision && e.decision[e.applied[k].id]
          && e.applied[k].batch == e.voted[e.applied[k].id].batch)
  }

  // A discarded batch was decided against, or its commit decision was overruled.
  ghost predicate DecisionsOk(e: Engine) {
    && (forall id :: id in e.decision ==> id in e.voted)
    && (forall id :: id in e.overruled ==> id in e.decision && e.decision[id] && Discarded(e, id))
    && (forall id :: Discarded(e, id) ==> id in e.decision && (!e.decision[id] || id in e.overruled))
  }

  ghost predicate Good(e: Engine) {
    Handles(e) && Phases(e) && Log(e) && AppliedOk(e) && DecisionsOk(e)
  }

  // What can never be taken back.
  ghost predicate Grows(e: Engine, e': Engine) {
    && e.applied <= e'.applied
    && (forall id :: id in e.voted ==> id in e'.voted)
    && (forall id :: id in e.decision ==> id in e'.decision && e'.decision[id] == e.decision[id])
    && (forall id :: Discarded(e, id) ==> Discarded(e', id))
    && (forall id :: Visible(e, id) && id !in e.voted ==> id !in e'.voted)
  }

  lemma GrowsOn(e: Engine, e': Engine, e'': Engine)
    requires Grows(e, e') && Grows(e', e'')
    ensures Grows(e, e'')
  {
  }

  // ----- One lemma a call -----

  // Only handles change, each to a life that is new or has ended without effect.
  lemma HandleOnly(e: Engine, e': Engine)
    requires Good(e) && e' == e.(live := e'.live, next := e'.next) && e'.next >= e.next
    requires Handles(e') && forall p :: p in e'.live ==> PhaseOk(e, e'.live[p])
    ensures Good(e') && Grows(e, e')
  {
    assert forall id :: Visible(e', id) <==> Visible(e, id);
    assert forall id :: Discarded(e', id) <==> Discarded(e, id);
    assert forall p :: p in e'.live ==> PhaseOk(e', e'.live[p]);
  }

  lemma KeepsBegin(e: Engine, p: nat)
    requires Good(e) && p !in e.live
    ensures Good(Begin(e, p)) && Grows(e, Begin(e, p))
  {
    HandleOnly(e, Begin(e, p));
  }

  lemma KeepsReset(e: Engine, p: nat)
    requires Good(e) && p in e.live && e.live[p].phase != Prepared
    ensures Good(Reset(e, p)) && Grows(e, Reset(e, p))
  {
    HandleOnly(e, Reset(e, p));
  }

  lemma KeepsFree(e: Engine, p: nat)
    requires Good(e)
    ensures Good(Free(e, p)) && Grows(e, Free(e, p))
  {
    HandleOnly(e, Free(e, p));
  }

  lemma KeepsCrash(e: Engine)
    requires Good(e)
    ensures Good(Crash(e)) && Grows(e, Crash(e))
  {
    HandleOnly(e, Crash(e));
  }

  lemma KeepsPut(e: Engine, p: nat, key: Bytes, value: Option<Bytes>)
    requires Good(e) && p in e.live
    ensures Good(Put(e, p, key, value)) && Grows(e, Put(e, p, key, value))
  {
    assert PhaseOk(e, e.live[p]);
    HandleOnly(e, Put(e, p, key, value));
  }

  lemma KeepsAbort(e: Engine, p: nat)
    requires Good(e) && p in e.live && e.live[p].phase == Active
    ensures var e' := e.(live := e.live[p := e.live[p].(phase := Aborted)]); Good(e') && Grows(e, e')
  {
    assert PhaseOk(e, e.live[p]);
    assert forall id :: id in e.log ==> id in e.voted;
    HandleOnly(e, e.(live := e.live[p := e.live[p].(phase := Aborted)]));
  }

  lemma KeepsRollback(e: Engine, p: nat)
    requires Good(e) && p in e.live
    ensures Good(PlainRollback(e, p)) && Grows(e, PlainRollback(e, p))
  {
    if e.live[p].phase == Active { KeepsAbort(e, p); }
  }

  lemma VisibleMore(e: Engine, c: Commit, id: nat)
    ensures Visible(e.(applied := e.applied + [c]), id) <==> Visible(e, id) || id == c.id
  {
    var e' := e.(applied := e.applied + [c]);
    assert e'.applied[|e.applied|] == c;
    assert forall k :: 0 <= k < |e.applied| ==> e'.applied[k] == e.applied[k];
  }

  // A commit of a batch that is not visible, whose handle, if it has one, is `p`.
  lemma KeepsApply(e: Engine, p: nat, batch: Batch)
    requires Good(e) && p in e.live && e.live[p].phase == Active
    ensures var t := e.live[p];
            var e' := e.(live := e.live[p := t.(phase := Committed)], applied := e.applied + [Commit(t.id, batch)]);
            Good(e') && Grows(e, e')
  {
    var t := e.live[p];
    var e' := e.(live := e.live[p := t.(phase := Committed)], applied := e.applied + [Commit(t.id, batch)]);
    assert PhaseOk(e, t);
    forall id ensures Visible(e', id) <==> Visible(e, id) || id == t.id {
      VisibleMore(e, Commit(t.id, batch), id);
    }
    forall q | q in e'.live ensures PhaseOk(e', e'.live[q]) {
      if q != p { assert PhaseOk(e, e.live[q]); }
    }
    assert forall id :: Discarded(e', id) <==> Discarded(e, id);
  }

  lemma KeepsCommit(e: Engine, p: nat, ok: bool)
    requires Good(e) && p in e.live
    ensures Good(PlainCommit(e, p, ok)) && Grows(e, PlainCommit(e, p, ok))
  {
    if e.live[p].phase == Active {
      if ok { KeepsApply(e, p, e.live[p].batch); } else { KeepsAbort(e, p); }
    }
  }

  lemma KeepsVote(e: Engine, p: nat, xid: Bytes)
    requires Good(e) && p in e.live && e.live[p].phase == Active && e.live[p].batch != []
    ensures Good(Prepare(e, p, xid, true)) && Grows(e, Prepare(e, p, xid, true))
  {
    var t, e' := e.live[p], Prepare(e, p, xid, true);
    assert PhaseOk(e, t);
    assert forall id :: Visible(e', id) <==> Visible(e, id);
    assert forall id :: Discarded(e', id) <==> Discarded(e, id);
    forall q | q in e'.live ensures PhaseOk(e', e'.live[q]) {
      if q != p { assert PhaseOk(e, e.live[q]); }
    }
  }

  lemma KeepsPrepare(e: Engine, p: nat, xid: Bytes, ok: bool)
    requires Good(e) && p in e.live
    ensures Good(Prepare(e, p, xid, ok)) && Grows(e, Prepare(e, p, xid, ok))
  {
    if e.live[p].phase == Active {
      if !ok { KeepsAbort(e, p); }
      else if e.live[p].batch == [] { KeepsApply(e, p, []); }
      else { KeepsVote(e, p, xid); }
    }
  }

  lemma KeepsDecide(e: Engine, id: nat, commit: bool)
    requires Good(e) && id in e.log
    ensures Good(Decide(e, id, commit)) && Grows(e, Decide(e, id, commit))
  {
    if id !in e.decision {
      var e' := Decide(e, id, commit);
      SameVisible(e, e');
      assert Phases(e') by {
        forall p | p in e'.live ensures PhaseOk(e', e'.live[p]) { assert PhaseOk(e, e.live[p]); }
      }
    }
  }

  lemma SameVisible(e: Engine, e': Engine)
    requires e.applied == e'.applied
    ensures forall i :: Visible(e', i) <==> Visible(e, i)
    ensures e.voted == e'.voted && e.log == e'.log ==> forall i :: Discarded(e', i) <==> Discarded(e, i)
  {
  }

  // The handle of a logged batch, if a connection still holds it, ends with it.
  ghost predicate EndsWith(e: Engine, live': map<nat, Txn>, id: nat, phase: Phase) {
    && live'.Keys == e.live.Keys
    && forall p :: p in e.live ==>
         live'[p] == if e.live[p].id == id then e.live[p].(phase := phase) else e.live[p]
  }

  lemma AppliedGrows(e: Engine, c: Commit, e': Engine)
    requires AppliedOk(e) && !Visible(e, c.id) && c.id < e.next
    requires c.id in e.voted ==> c.id in e.decision && e.decision[c.id] && c.batch == e.voted[c.id].batch
    requires e'.applied == e.applied + [c] && e'.next == e.next && e'.voted == e.voted && e'.decision == e.decision
    ensures AppliedOk(e') && e.applied <= e'.applied
  {
    assert forall k :: 0 <= k < |e.applied| ==> e'.applied[k] == e.applied[k];
    assert e'.applied[|e.applied|] == c;
  }

  lemma KeepsCommitRecord(e: Engine, id: nat, live': map<nat, Txn>)
    requires Good(e) && id in e.log && id in e.decision && e.decision[id]
    requires EndsWith(e, live', id, Committed)
    ensures var e' := CommitRecord(e.(live := live'), id); Good(e') && Grows(e, e')
  {
    var e' := CommitRecord(e.(live := live'), id);
    AppliedGrows(e, Commit(id, e.log[id].batch), e');
    forall i ensures Visible(e', i) <==> Visible(e, i) || i == id {
      VisibleMore(e, Commit(id, e.log[id].batch), i);
    }
    assert Phases(e') by {
      forall q | q in e'.live ensures PhaseOk(e', e'.live[q]) { assert PhaseOk(e, e.live[q]); }
    }
    assert forall i :: Discarded(e', i) <==> Discarded(e, i);
  }

  lemma KeepsRollbackRecord(e: Engine, id: nat, live': map<nat, Txn>)
    requires Good(e) && id in e.log && id in e.decision
    requires EndsWith(e, live', id, Aborted)
    ensures var e' := RollbackRecord(e.(live := live'), id); Good(e') && Grows(e, e')
  {
    var e' := RollbackRecord(e.(live := live'), id);
    assert forall i :: Visible(e', i) <==> Visible(e, i);
    assert Phases(e') by {
      forall q | q in e'.live ensures PhaseOk(e', e'.live[q]) { assert PhaseOk(e, e.live[q]); }
    }
    assert forall i :: Discarded(e', i) <==> Discarded(e, i) || i == id;
  }
}
