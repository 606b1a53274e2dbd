/** Regular secondary indexes beside the data column family: every index holds one
    key per row, its index bytes followed by the row's primary key. */
module SecondaryIndex {
  import opened ByteOrder

  // Column values of a row.
  type Record = seq<Bytes>

  // `bytes` is make_comparable_key: fixed-length bytes of the indexed columns.
  datatype Index = Index(parts: set<nat>, unique: bool, len: nat, bytes: Record -> Bytes)

  type Data = map<Bytes, Record>

  predicate SameOn(r: Record, s: Record, parts: set<nat>) {
    |r| == |s| && forall p :: p in parts && p < |r| ==> r[p] == s[p]
  }

  ghost predicate Fixed(ix: Index) {
    forall r :: |ix.bytes(r)| == ix.len
  }

  ghost predicate ReadsParts(ix: Index) {
    forall r, s :: SameOn(r, s, ix.parts) ==> ix.bytes(r) == ix.bytes(s)
  }

  function KeyFor(ix: Index, pk: Bytes, r: Record): Bytes { ix.bytes(r) + pk }

  // ----- The image of the data -----

  ghost predicate Has(ix: Index, data: Data, k: Bytes) {
    |k| >= ix.len && k[ix.len..] in data && ix.bytes(data[k[ix.len..]]) == k[..ix.len]
  }

  // Exactly one key for every row.
  ghost predicate Mirrors(ix: Index, data: Data, keys: set<Bytes>) {
    forall k :: k in keys <==> Has(ix, data, k)
  }

  lemma KeyParts(ix: Index, pk: Bytes, r: Record)
    requires Fixed(ix)
    ensures var k := KeyFor(ix, pk, r); |k| >= ix.len && k[..ix.len] == ix.bytes(r) && k[ix.len..] == pk
  {
    assert |ix.bytes(r)| == ix.len;
  }

  /** The keys of an index in step with its data are those of the rows, no more. */
  lemma MirrorsIsImage(ix: Index, data: Data, keys: set<Bytes>)
    requires Fixed(ix) && Mirrors(ix, data, keys)
    ensures keys == set pk | pk in data :: KeyFor(ix, pk, data[pk])
  {
    var image := set pk | pk in data :: KeyFor(ix, pk, data[pk]);
    forall k ensures k in keys <==> k in image {
      if k in image {
        var pk :| pk in data && k == KeyFor(ix, pk, data[pk]);
        KeyParts(ix, pk, data[pk]);
      }
      if Has(ix, data, k) {
        var pk := k[ix.len..];
        assert k == KeyFor(ix, pk, data[pk]);
      }
    }
  }

  // Whether putting `r` at `pk` leaves no stale key behind: the place is free, or the
  // row it overwrites has the same index bytes.
  predicate NoStale(ix: Index, data: Data, pk: Bytes, r: Record) {
    pk !in data || ix.bytes(data[pk]) == ix.bytes(r)
  }

  lemma SameKey(ix: Index, pk: Bytes, r: Record, k: Bytes)
    requires Fixed(ix)
    ensures k == KeyFor(ix, pk, r) <==> |k| >= ix.len && k[..ix.len] == ix.bytes(r) && k[ix.len..] == pk
  {
    KeyParts(ix, pk, r);
    if |k| >= ix.len && k[..ix.len] == ix.bytes(r) && k[ix.len..] == pk {
      assert k == k[..ix.len] + k[ix.len..];
    }
  }

  lemma PutMirrors(ix: Index, data: Data, keys: set<Bytes>, pk: Bytes, r: Record)
    requires Fixed(ix) && Mirrors(ix, data, keys)
    ensures Mirrors(ix, data[pk := r], keys + {KeyFor(ix, pk, r)}) <==> NoStale(ix, data, pk, r)
  {
    var keys' := keys + {KeyFor(ix, pk, r)};
    if NoStale(ix, data, pk, r) {
      forall k ensures k in keys' <==> Has(ix, data[pk := r], k) {
        SameKey(ix, pk, r, k);
        assert k in keys <==> Has(ix, data, k);
      }
    } else {
      var stale := KeyFor(ix, pk, data[pk]);
      KeyParts(ix, pk, data[pk]);
      assert Has(ix, data, stale) && stale in keys';
      assert !Has(ix, data[pk := r], stale);
    }
  }

  lemma RemoveMirrors(ix: Index, data: Data, keys: set<Bytes>, pk: Bytes)
    requires Fixed(ix) && Mirrors(ix, data, keys) && pk in data
    ensures Mirrors(ix, data - {pk}, keys - {KeyFor(ix, pk, data[pk])})
  {
    var keys' := keys - {KeyFor(ix, pk, data[pk])};
    forall k ensures k in keys' <==> Has(ix, data - {pk}, k) {
      SameKey(ix, pk, data[pk], k);
      assert k in keys <==> Has(ix, data, k);
    }
  }

  // Overwriting a row in place, its old key taken out.
  lemma ReplaceMirrors(ix: Index, data: Data, keys: set<Bytes>, pk: Bytes, r: Record)
    requires Fixed(ix) && Mirrors(ix, data, keys) && pk in data
    ensures Mirrors(ix, data[pk := r], keys - {KeyFor(ix, pk, data[pk])} + {KeyFor(ix, pk, r)})
  {
    RemoveMirrors(ix, data, keys, pk);
    PutMirrors(ix, data - {pk}, keys - {KeyFor(ix, pk, data[pk])}, pk, r);
    assert (data - {pk})[pk := r] == data[pk := r];
  }

  // Keys left alone while a row changes: right exactly when its index bytes did not.
  lemma SkipMirrors(ix: Index, data: Data, keys: set<Bytes>, pk: Bytes, r: Record)
    requires Fixed(ix) && Mirrors(ix, data, keys) && pk in data
    ensures Mirrors(ix, data[pk := r], keys) <==> ix.bytes(data[pk]) == ix.bytes(r)
  {
    var mine := KeyFor(ix, pk, data[pk]);
    KeyParts(ix, pk, data[pk]);
    assert Has(ix, data, mine);
    PutMirrors(ix, data, keys, pk, r);
    if ix.bytes(data[pk]) == ix.bytes(r) {
      assert keys + {KeyFor(ix, pk, r)} == keys;
    }
  }

  /** A duplicate check finds a key with the new row's bytes exactly when some row has
      the same index bytes. */
  lemma PrefixMeansSameBytes(ix: Index, data: Data, keys: set<Bytes>, p: Bytes)
    requires Fixed(ix) && Mirrors(ix, data, keys) && |p| == ix.len
    ensures (exists k :: k in keys && HasPrefix(k, p)) <==> (exists pk :: pk in data && ix.bytes(data[pk]) == p)
  {
    if k :| k in keys && HasPrefix(k, p) {
      assert k[ix.len..] in data && ix.bytes(data[k[ix.len..]]) == p;
    }
    if pk :| pk in data && ix.bytes(data[pk]) == p {
      var k := KeyFor(ix, pk, data[pk]);
      KeyParts(ix, pk, data[pk]);
      assert Has(ix, data, k) && HasPrefix(k, p);
    }
  }

  // ----- All indexes of a table -----

  ghost predicate AllFixed(defs: seq<Index>) { forall i :: 0 <= i < |defs| ==> Fixed(defs[i]) }

  ghost predicate AllMirror(defs: seq<Index>, data: Data, keys: seq<set<Bytes>>) {
    |keys| == |defs| && forall i :: 0 <= i < |defs| ==> Mirrors(defs[i], data, keys[i])
  }

  predicate AllNoStale(defs: seq<Index>, data: Data, pk: Bytes, r: Record) {
    forall i :: 0 <= i < |defs| ==> NoStale(defs[i], data, pk, r)
  }

  predicate Touched(ix: Index, written: set<nat>) { ix.parts * written != {} }

  // The server's part: a column it does not mark keeps its value.
  predicate Marks(was: Record, r: Record, written: set<nat>) {
    |was| == |r| && forall c :: 0 <= c < |r| && c !in written ==> was[c] == r[c]
  }

  // When an update keeps every index in step: an index the code skips has the same
  // bytes, and a new primary key overwrites no row with other bytes.
  predicate UpdateSafe(defs: seq<Index>, data: Data, oldPk: Bytes, newPk: Bytes, r: Record, written: set<nat>)
    requires oldPk in data
  {
    forall i :: 0 <= i < |defs| ==>
      if oldPk == newPk then Touched(defs[i], written) || defs[i].bytes(data[oldPk]) == defs[i].bytes(r)
      else NoStale(defs[i], data, newPk, r)
  }

  // The keys of one index after the update's branch for it.
  function UpdatedKeys(ix: Index, data: Data, keys: set<Bytes>, oldPk: Bytes, newPk: Bytes, r: Record, written: set<nat>): set<Bytes>
    requires oldPk in data
  {
    var oldKey, newKey := KeyFor(ix, oldPk, data[oldPk]), KeyFor(ix, newPk, r);
    if (oldPk == newPk && !Touched(ix, written)) || oldKey == newKey then keys else keys - {oldKey} + {newKey}
  }

  function UpdatedData(data: Data, oldPk: Bytes, newPk: Bytes, r: Record): Data {
    if oldPk == newPk then data[newPk := r] else (data - {oldPk})[newPk := r]
  }

  lemma UpdateMirrors(ix: Index, data: Data, keys: set<Bytes>, oldPk: Bytes, newPk: Bytes, r: Record, written: set<nat>)
    requires Fixed(ix) && Mirrors(ix, data, keys) && oldPk in data
    ensures Mirrors(ix, UpdatedData(data, oldPk, newPk, r), UpdatedKeys(ix, data, keys, oldPk, newPk, r, written)) <==>
              if oldPk == newPk then Touched(ix, written) || ix.bytes(data[oldPk]) == ix.bytes(r) else NoStale(ix, data, newPk, r)
  {
    KeyParts(ix, oldPk, data[oldPk]);
    KeyParts(ix, newPk, r);
    if oldPk == newPk {
      if Touched(ix, written) && KeyFor(ix, oldPk, data[oldPk]) != KeyFor(ix, newPk, r) {
        ReplaceMirrors(ix, data, keys, oldPk, r);
      } else {
        SkipMirrors(ix, data, keys, oldPk, r);
      }
    } else {
      RemoveMirrors(ix, data, keys, oldPk);
      PutMirrors(ix, data - {oldPk}, keys - {KeyFor(ix, oldPk, data[oldPk])}, newPk, r);
    }
  }

  /** With every changed column marked and the new primary key its own or free, an
      update is safe. */
  lemma MarkedIsSafe(defs: seq<Index>, data: Data, oldPk: Bytes, newPk: Bytes, r: Record, written: set<nat>)
    requires oldPk in data && Marks(data[oldPk], r, written) && (newPk == oldPk || newPk !in data)
    requires forall i :: 0 <= i < |defs| ==> ReadsParts(defs[i])
    ensures UpdateSafe(defs, data, oldPk, newPk, r, written)
  {
    forall i | 0 <= i < |defs| && oldPk == newPk && !Touched(defs[i], written)
      ensures defs[i].bytes(data[oldPk]) == defs[i].bytes(r)
    {
      forall p | p in defs[i].parts && p < |r| ensures data[oldPk][p] == r[p] {
        assert p !in defs[i].parts * written;
      }
      assert ReadsParts(defs[i]) && SameOn(data[oldPk], r, defs[i].parts);
    }
  }

  // ----- Unique indexes -----

  // No two rows share the bytes of a unique index.
  ghost predicate AllUnique(defs: seq<Index>, data: Data) {
    forall i, p, q :: 0 <= i < |defs| && defs[i].unique && p in data && q in data && p != q ==>
      defs[i].bytes(data[p]) != defs[i].bytes(data[q])
  }

  // No row but those in `besides` has the new row's bytes in a unique index.
  ghost predicate Free(defs: seq<Index>, data: Data, besides: set<Bytes>, r: Record) {
    forall i, q :: 0 <= i < |defs| && defs[i].unique && q in data && q !in besides ==>
      defs[i].bytes(data[q]) != defs[i].bytes(r)
  }

  lemma PutUnique(defs: seq<Index>, data: Data, pk: Bytes, r: Record)
    requires AllUnique(defs, data)
    ensures AllUnique(defs, data[pk := r]) <==> Free(defs, data, {pk}, r)
  {
    var data' := data[pk := r];
    if AllUnique(defs, data') {
      forall i, q | 0 <= i < |defs| && defs[i].unique && q in data && q !in {pk}
        ensures defs[i].bytes(data[q]) != defs[i].bytes(r)
      {
        assert q in data' && pk in data' && data'[q] == data[q];
      }
    }
  }

  lemma RemoveUnique(defs: seq<Index>, data: Data, pk: Bytes)
    requires AllUnique(defs, data)
    ensures AllUnique(defs, data - {pk})
  {
  }

  /** An update keeps every unique index unique if and only if no other row that stays
      has the new bytes; update_row does not look. */
  lemma UpdateUnique(defs: seq<Index>, data: Data, oldPk: Bytes, newPk: Bytes, r: Record)
    requires AllUnique(defs, data) && oldPk in data
    ensures AllUnique(defs, UpdatedData(data, oldPk, newPk, r)) <==> Free(defs, data, {oldPk, newPk}, r)
  {
    if oldPk == newPk {
      PutUnique(defs, data, newPk, r);
      assert {oldPk, newPk} == {newPk};
    } else {
      var rest := data - {oldPk};
      RemoveUnique(defs, data, oldPk);
      PutUnique(defs, rest, newPk, r);
      assert Free(defs, data, {oldPk, newPk}, r) <==> Free(defs, rest, {newPk}, r) by {
        assert forall q :: q in rest && q !in {newPk} <==> q in data && q !in {oldPk, newPk};
      }
    }
  }

  // ----- Statements -----

  // A table's column families: the data and one key set per index.
  datatype Content = Content(data: Data, keys: seq<set<Bytes>>)

  // An insert says which checks it skips: `generated` when the key comes from the
  // counter, `replacing` for REPLACE, `skipUnique` the session variable.
  datatype Op =
    | Insert(r: Record, rowId: Bytes, generated: bool, replacing: bool, skipUnique: bool)
    | Change(oldPk: Bytes, r: Record, written: set<nat>)
    | Remove(pk: Bytes)

  datatype Outcome = Done | DupPrimary | DupKey(i: nat)

  // pk_from_record: the key columns' bytes, or the hidden row id.
  function PkFor(primary: Option<Index>, r: Record, rowId: Bytes): Bytes {
    if primary.Some? then primary.value.bytes(r) else rowId
  }

  function NewPk(primary: Option<Index>, oldPk: Bytes, r: Record, written: set<nat>): Bytes {
    if primary.Some? && Touched(primary.value, written) then primary.value.bytes(r) else oldPk
  }

  // What the seek of a duplicate check answers.
  predicate Hit(keys: set<Bytes>, prefix: Bytes) { exists k :: k in keys && HasPrefix(k, prefix) }

  predicate ChecksPrimary(primary: Option<Index>, defs: seq<Index>, generated: bool, replacing: bool, skipUnique: bool) {
    primary.Some? && !skipUnique && !generated && !(replacing && |defs| == 0)
  }

  predicate Blocked(defs: seq<Index>, primary: Option<Index>, s: Content, op: Op)
    requires op.Insert? && |s.keys| == |defs|
  {
    || (ChecksPrimary(primary, defs, op.generated, op.replacing, op.skipUnique) && PkFor(primary, op.r, op.rowId) in s.data)
    || (!op.skipUnique && exists i :: 0 <= i < |defs| && defs[i].unique && Hit(s.keys[i], defs[i].bytes(op.r)))
  }

  // The server updates and deletes rows it has just read.
  predicate Possible(s: Content, op: Op) {
    match op
    case Insert(_, _, _, _, _) => true
    case Change(oldPk, _, _) => oldPk in s.data
    case Remove(pk) => pk in s.data
  }

  function Do(defs: seq<Index>, primary: Option<Index>, s: Content, op: Op): (s': Content)
    requires |s.keys| == |defs| && Possible(s, op)
    ensures |s'.keys| == |defs|
  {
    match op
    case Insert(r, rowId, _, _, _) =>
      if Blocked(defs, primary, s, op) then s
      else
        var pk := PkFor(primary, r, rowId);
        Content(s.data[pk := r], seq(|defs|, i requires 0 <= i < |defs| => s.keys[i] + {KeyFor(defs[i], pk, r)}))
    case Change(oldPk, r, written) =>
      var newPk := NewPk(primary, oldPk, r, written);
      Content(UpdatedData(s.data, oldPk, newPk, r),
              seq(|defs|, i requires 0 <= i < |defs| => UpdatedKeys(defs[i], s.data, s.keys[i], oldPk, newPk, r, written)))
    case Remove(pk) =>
      Content(s.data - {pk}, seq(|defs|, i requires 0 <= i < |defs| => s.keys[i] - {KeyFor(defs[i], pk, s.data[pk])}))
  }

  // ----- What a statement does to the rows -----

  /** A plain insert, or a REPLACE on a table with indexes, under a primary key that a row
      has, is refused and changes nothing. */
  lemma TakenKeyRefused(defs: seq<Index>, primary: Option<Index>, s: Content, op: Op)
    requires |s.keys| == |defs| && op.Insert?
    requires primary.Some? && !op.skipUnique && !op.generated && (op.replacing ==> defs != [])
    requires primary.value.bytes(op.r) in s.data
    ensures Blocked(defs, primary, s, op) && Do(defs, primary, s, op) == s
  {
  }

  // Another row has the new row's bytes in a unique index.
  ghost predicate Collides(defs: seq<Index>, data: Data, r: Record) {
    exists i, q :: 0 <= i < |defs| && defs[i].unique && q in data && defs[i].bytes(data[q]) == defs[i].bytes(r)
  }

  /** From indexes in step an insert is refused exactly when its primary key is looked up
      and taken, or unique keys are checked and some row has its bytes. */
  lemma RefusedExactly(defs: seq<Index>, primary: Option<Index>, s: Content, op: Op)
    requires AllFixed(defs) && AllMirror(defs, s.data, s.keys) && op.Insert?
    ensures Blocked(defs, primary, s, op) <==>
              || (primary.Some? && !op.skipUnique && !op.generated && (op.replacing ==> defs != []) && primary.value.bytes(op.r) in s.data)
              || (!op.skipUnique && Collides(defs, s.data, op.r))
  {
    forall i | 0 <= i < |defs|
      ensures Hit(s.keys[i], defs[i].bytes(op.r)) <==> exists q :: q in s.data && defs[i].bytes(s.data[q]) == defs[i].bytes(op.r)
    {
      assert Fixed(defs[i]) && |defs[i].bytes(op.r)| == defs[i].len && Mirrors(defs[i], s.data, s.keys[i]);
      PrefixMeansSameBytes(defs[i], s.data, s.keys[i], defs[i].bytes(op.r));
    }
  }

  // Every row but those in `besides` is as it was.
  ghost predicate OthersKept(data: Data, data': Data, besides: set<Bytes>) {
    forall q :: q !in besides ==> (q in data' <==> q in data) && (q in data ==> data'[q] == data[q])
  }

  /** What each statement leaves of the rows: an insert that is not refused has its row
      under its key, an update has it under the new key and not under the old, a delete
      takes its row out, and no other row changes. */
  lemma RowsAfter(defs: seq<Index>, primary: Option<Index>, s: Content, op: Op)
    requires |s.keys| == |defs| && Possible(s, op)
    ensures var d := Do(defs, primary, s, op).data;
            match op
            case Insert(r, rowId, _, _, _) =>
              if Blocked(defs, primary, s, op) then d == s.data
              else
                var pk := if primary.Some? then primary.value.bytes(r) else rowId;
                pk in d && d[pk] == r && OthersKept(s.data, d, {pk})
            case Change(oldPk, r, written) =>
              var newPk := NewPk(primary, oldPk, r, written);
              newPk in d && d[newPk] == r && (oldPk in d <==> oldPk == newPk) && OthersKept(s.data, d, {oldPk, newPk})
            case Remove(pk) => pk !in d && OthersKept(s.data, d, {pk})
  {
  }

  // With a primary key, every row is filed under its own bytes.
  ghost predicate Filed(primary: Option<Index>, data: Data) {
    primary.Some? ==> forall pk :: pk in data ==> primary.value.bytes(data[pk]) == pk
  }

  /** Rows stay filed under their own primary key if and only if an update that skips the
      primary key leaves its bytes as they were. */
  lemma StatementFiled(defs: seq<Index>, primary: Option<Index>, s: Content, op: Op)
    requires |s.keys| == |defs| && Possible(s, op) && Filed(primary, s.data)
    ensures Filed(primary, Do(defs, primary, s, op).data) <==>
              (op.Change? && primary.Some? && !Touched(primary.value, op.written) ==> primary.value.bytes(op.r) == op.oldPk)
  {
    var d := Do(defs, primary, s, op).data;
    RowsAfter(defs, primary, s, op);
    if op.Change? && primary.Some? && !Touched(primary.value, op.written) && primary.value.bytes(op.r) != op.oldPk {
      assert op.oldPk in d && d[op.oldPk] == op.r;
    }
  }

  /** A marked update goes to the primary key of its new row. */
  lemma MarkedGoesHome(primary: Option<Index>, data: Data, oldPk: Bytes, r: Record, written: set<nat>)
    requires primary.Some? && ReadsParts(primary.value) && Filed(primary, data) && oldPk in data && Marks(data[oldPk], r, written)
    ensures NewPk(primary, oldPk, r, written) == primary.value.bytes(r)
  {
    if !Touched(primary.value, written) {
      forall p | p in primary.value.parts && p < |r| ensures data[oldPk][p] == r[p] {
        assert p !in primary.value.parts * written;
      }
      assert SameOn(data[oldPk], r, primary.value.parts);
    }
  }

  ghost predicate InStep(defs: seq<Index>, s: Content) { AllMirror(defs, s.data, s.keys) }

  // What keeps the indexes in step.
  predicate Safe(defs: seq<Index>, primary: Option<Index>, s: Content, op: Op)
    requires |s.keys| == |defs| && Possible(s, op)
  {
    match op
    case Insert(r, rowId, _, _, _) => Blocked(defs, primary, s, op) || AllNoStale(defs, s.data, PkFor(primary, r, rowId), r)
    case Change(oldPk, r, written) => UpdateSafe(defs, s.data, oldPk, NewPk(primary, oldPk, r, written), r, written)
    case Remove(_) => true
  }

  // What keeps unique indexes unique.
  ghost predicate Distinct(defs: seq<Index>, primary: Option<Index>, s: Content, op: Op)
    requires |s.keys| == |defs| && Possible(s, op)
  {
    match op
    case Insert(r, rowId, _, _, _) => Blocked(defs, primary, s, op) || Free(defs, s.data, {PkFor(primary, r, rowId)}, r)
    case Change(oldPk, r, written) => Free(defs, s.data, {oldPk, NewPk(primary, oldPk, r, written)}, r)
    case Remove(_) => true
  }

  lemma InsertInStep(defs: seq<Index>, primary: Option<Index>, s: Content, op: Op)
    requires AllFixed(defs) && InStep(defs, s) && op.Insert? && !Blocked(defs, primary, s, op)
    ensures InStep(defs, Do(defs, primary, s, op)) <==> AllNoStale(defs, s.data, PkFor(primary, op.r, op.rowId), op.r)
  {
    var pk, s' := PkFor(primary, op.r, op.rowId), Do(defs, primary, s, op);
    forall i | 0 <= i < |defs| ensures Mirrors(defs[i], s'.data, s'.keys[i]) <==> NoStale(defs[i], s.data, pk, op.r) {
      PutMirrors(defs[i], s.data, s.keys[i], pk, op.r);
    }
  }

  lemma ChangeInStep(defs: seq<Index>, primary: Option<Index>, s: Content, op: Op)
    requires AllFixed(defs) && InStep(defs, s) && op.Change? && Possible(s, op)
    ensures InStep(defs, Do(defs, primary, s, op)) <==> Safe(defs, primary, s, op)
  {
    var newPk, s' := NewPk(primary, op.oldPk, op.r, op.written), Do(defs, primary, s, op);
    forall i | 0 <= i < |defs|
      ensures Mirrors(defs[i], s'.data, s'.keys[i]) <==>
        if op.oldPk == newPk then Touched(defs[i], op.written) || defs[i].bytes(s.data[op.oldPk]) == defs[i].bytes(op.r)
        else NoStale(defs[i], s.data, newPk, op.r)
    {
      UpdateMirrors(defs[i], s.data, s.keys[i], op.oldPk, newPk, op.r, op.written);
    }
  }

  lemma RemoveInStep(defs: seq<Index>, primary: Option<Index>, s: Content, op: Op)
    requires AllFixed(defs) && InStep(defs, s) && op.Remove? && Possible(s, op)
    ensures InStep(defs, Do(defs, primary, s, op))
  {
    var s' := Do(defs, primary, s, op);
    forall i | 0 <= i < |defs| ensures Mirrors(defs[i], s'.data, s'.keys[i]) {
      RemoveMirrors(defs[i], s.data, s.keys[i], op.pk);
    }
  }

  /** From indexes in step, a statement leaves them in step if and only if it is safe,
      whether or not unique keys are unique. */
  lemma StatementInStep(defs: seq<Index>, primary: Option<Index>, s: Content, op: Op)
    requires AllFixed(defs) && InStep(defs, s) && Possible(s, op)
    ensures InStep(defs, Do(defs, primary, s, op)) <==> Safe(defs, primary, s, op)
  {
    match op
    case Insert(_, _, _, _, _) => if !Blocked(defs, primary, s, op) { InsertInStep(defs, primary, s, op); }
    case Change(_, _, _) => ChangeInStep(defs, primary, s, op);
    case Remove(_) => RemoveInStep(defs, primary, s, op);
  }

  /** From unique keys that are unique, a statement leaves them so if and only if its
      bytes are free, whether or not the indexes are in step. */
  lemma StatementUnique(defs: seq<Index>, primary: Option<Index>, s: Content, op: Op)
    requires |s.keys| == |defs| && AllUnique(defs, s.data) && Possible(s, op)
    ensures AllUnique(defs, Do(defs, primary, s, op).data) <==> Distinct(defs, primary, s, op)
  {
    match op
    case Insert(r, rowId, _, _, _) => if !Blocked(defs, primary, s, op) { PutUnique(defs, s.data, PkFor(primary, r, rowId), r); }
    case Change(oldPk, r, written) => UpdateUnique(defs, s.data, oldPk, NewPk(primary, oldPk, r, written), r);
    case Remove(pk) => RemoveUnique(defs, s.data, pk);
  }

  /** With its checks on, an insert is always safe and distinct. */
  lemma CheckedInsertFine(defs: seq<Index>, primary: Option<Index>, s: Content, op: Op)
    requires AllFixed(defs) && InStep(defs, s) && op.Insert? && !op.skipUnique
    requires |defs| == 0 || PkFor(primary, op.r, op.rowId) !in s.data || (primary.Some? && !op.generated)
    ensures Safe(defs, primary, s, op) && Distinct(defs, primary, s, op)
  {
    if !Blocked(defs, primary, s, op) {
      forall i, q | 0 <= i < |defs| && defs[i].unique && q in s.data ensures defs[i].bytes(s.data[q]) != defs[i].bytes(op.r) {
        assert Fixed(defs[i]) && |defs[i].bytes(op.r)| == defs[i].len && Mirrors(defs[i], s.data, s.keys[i]);
        PrefixMeansSameBytes(defs[i], s.data, s.keys[i], defs[i].bytes(op.r));
      }
    }
  }

  // ----- Any sequence of statements -----

  ghost predicate Legal(defs: seq<Index>, primary: Option<Index>, s: Content, ops: seq<Op>)
    requires |s.keys| == |defs|
    decreases |ops|
  {
    ops == [] || (Possible(s, ops[0]) && Legal(defs, primary, Do(defs, primary, s, ops[0]), ops[1..]))
  }

  ghost predicate InStepThroughout(defs: seq<Index>, primary: Option<Index>, s: Content, ops: seq<Op>)
    requires |s.keys| == |defs| && Legal(defs, primary, s, ops)
    decreases |ops|
  {
    InStep(defs, s) && (ops == [] || InStepThroughout(defs, primary, Do(defs, primary, s, ops[0]), ops[1..]))
  }

  ghost predicate SafeThroughout(defs: seq<Index>, primary: Option<Index>, s: Content, ops: seq<Op>)
    requires |s.keys| == |defs| && Legal(defs, primary, s, ops)
    decreases |ops|
  {
    ops == [] || (Safe(defs, primary, s, ops[0]) && SafeThroughout(defs, primary, Do(defs, primary, s, ops[0]), ops[1..]))
  }

  /** Over any sequence of inserts, updates and deletes every index equals the image of
      the data after every statement, if and only if every statement is safe. Nothing is
      asked of unique keys, which an update may break on the way. */
  lemma {:induction false} RunInStep(defs: seq<Index>, primary: Option<Index>, s: Content, ops: seq<Op>)
    requires AllFixed(defs) && InStep(defs, s) && Legal(defs, primary, s, ops)
    ensures InStepThroughout(defs, primary, s, ops) <==> SafeThroughout(defs, primary, s, ops)
    decreases |ops|
  {
    if ops != [] {
      StatementInStep(defs, primary, s, ops[0]);
      var s' := Do(defs, primary, s, ops[0]);
      if InStep(defs, s') { RunInStep(defs, primary, s', ops[1..]); }
    }
  }

  // In step and unique now and after every statement.
  ghost predicate GoodThroughout(defs: seq<Index>, primary: Option<Index>, s: Content, ops: seq<Op>)
    requires |s.keys| == |defs| && Legal(defs, primary, s, ops)
    decreases |ops|
  {
    InStep(defs, s) && AllUnique(defs, s.data) && (ops == [] || GoodThroughout(defs, primary, Do(defs, primary, s, ops[0]), ops[1..]))
  }

  ghost predicate FineThroughout(defs: seq<Index>, primary: Option<Index>, s: Content, ops: seq<Op>)
    requires |s.keys| == |defs| && Legal(defs, primary, s, ops)
    decreases |ops|
  {
    ops == [] ||
    (Safe(defs, primary, s, ops[0]) && Distinct(defs, primary, s, ops[0])
     && FineThroughout(defs, primary, Do(defs, primary, s, ops[0]), ops[1..]))
  }

  /** Over any sequence of inserts, updates and deletes, the indexes equal the image of
      the data and unique keys are unique after every statement, if and only if every
      statement is safe and its unique bytes are free. */
  lemma {:induction false} RunExact(defs: seq<Index>, primary: Option<Index>, s: Content, ops: seq<Op>)
    requires AllFixed(defs) && InStep(defs, s) && AllUnique(defs, s.data) && Legal(defs, primary, s, ops)
    ensures GoodThroughout(defs, primary, s, ops) <==> FineThroughout(defs, primary, s, ops)
    decreases |ops|
  {
    if ops != [] {
      StatementInStep(defs, primary, s, ops[0]);
      StatementUnique(defs, primary, s, ops[0]);
      var s' := Do(defs, primary, s, ops[0]);
      if InStep(defs, s') && AllUnique(defs, s'.data) { RunExact(defs, primary, s', ops[1..]); }
    }
  }

  // An insert with its checks on, or under a key no row has; an update that marks what
  // it changes and keeps its primary key or moves to a free one; any delete.
  predicate Ordinary(defs: seq<Index>, primary: Option<Index>, s: Content, op: Op)
    requires Possible(s, op)
  {
    match op
    case Insert(r, rowId, generated, replacing, skipUnique) =>
      && !skipUnique
      && (|defs| == 0 || PkFor(primary, r, rowId) !in s.data || (primary.Some? && !generated))
    case Change(oldPk, r, written) =>
      && Marks(s.data[oldPk], r, written)
      && (NewPk(primary, oldPk, r, written) == oldPk || NewPk(primary, oldPk, r, written) !in s.data)
    case Remove(_) => true
  }

  ghost predicate OrdinaryThroughout(defs: seq<Index>, primary: Option<Index>, s: Content, ops: seq<Op>)
    requires |s.keys| == |defs| && Legal(defs, primary, s, ops)
    decreases |ops|
  {
    ops == [] ||
    (Ordinary(defs, primary, s, ops[0]) && OrdinaryThroughout(defs, primary, Do(defs, primary, s, ops[0]), ops[1..]))
  }

  // No update writes unique bytes that another row keeps.
  ghost predicate UpdatesFree(defs: seq<Index>, primary: Option<Index>, s: Content, ops: seq<Op>)
    requires |s.keys| == |defs| && Legal(defs, primary, s, ops)
    decreases |ops|
  {
    ops == [] ||
    ((ops[0].Change? ==> Distinct(defs, primary, s, ops[0])) && UpdatesFree(defs, primary, Do(defs, primary, s, ops[0]), ops[1..]))
  }

  lemma OrdinaryIsSafe(defs: seq<Index>, primary: Option<Index>, s: Content, op: Op)
    requires AllFixed(defs) && (forall i :: 0 <= i < |defs| ==> ReadsParts(defs[i]))
    requires InStep(defs, s) && Possible(s, op) && Ordinary(defs, primary, s, op)
    ensures Safe(defs, primary, s, op) && (!op.Change? ==> Distinct(defs, primary, s, op))
  {
    match op
    case Insert(_, _, _, _, _) => CheckedInsertFine(defs, primary, s, op);
    case Change(oldPk, r, written) => MarkedIsSafe(defs, s.data, oldPk, NewPk(primary, oldPk, r, written), r, written);
    case Remove(_) =>
  }

  /** Over any sequence of ordinary statements every index equals the image of the data
      after every statement. */
  lemma {:induction false} OrdinaryRunInStep(defs: seq<Index>, primary: Option<Index>, s: Content, ops: seq<Op>)
    requires AllFixed(defs) && (forall i :: 0 <= i < |defs| ==> ReadsParts(defs[i]))
    requires InStep(defs, s) && Legal(defs, primary, s, ops) && OrdinaryThroughout(defs, primary, s, ops)
    ensures InStepThroughout(defs, primary, s, ops)
    decreases |ops|
  {
    if ops != [] {
      OrdinaryIsSafe(defs, primary, s, ops[0]);
      StatementInStep(defs, primary, s, ops[0]);
      OrdinaryRunInStep(defs, primary, Do(defs, primary, s, ops[0]), ops[1..]);
    }
  }

  /** And unique keys are unique as well after every one of them, if and only if no
      update writes unique bytes that another row keeps. */
  lemma {:induction false} OrdinaryRunUnique(defs: seq<Index>, primary: Option<Index>, s: Content, ops: seq<Op>)
    requires AllFixed(defs) && (forall i :: 0 <= i < |defs| ==> ReadsParts(defs[i]))
    requires InStep(defs, s) && AllUnique(defs, s.data) && Legal(defs, primary, s, ops) && OrdinaryThroughout(defs, primary, s, ops)
    ensures GoodThroughout(defs, primary, s, ops) <==> UpdatesFree(defs, primary, s, ops)
    decreases |ops|
  {
    if ops != [] {
      OrdinaryIsSafe(defs, primary, s, ops[0]);
      StatementInStep(defs, primary, s, ops[0]);
      StatementUnique(defs, primary, s, ops[0]);
      var s' := Do(defs, primary, s, ops[0]);
      if AllUnique(defs, s'.data) { OrdinaryRunUnique(defs, primary, s', ops[1..]); }
    }
  }

  // ----- Updates that break an index -----

  // One byte of a column, or zero.
  function Column(c: nat): Record -> Bytes {
    (r: Record) => if c < |r| && |r[c]| == 1 then r[c] else [0]
  }

  function Pair(pk: byte, v: byte): Record { [[pk], [v]] }

  // Rows (1, 5) and (2, 6), primary key on the first column, unique key on the second.
  function TwoRows(): Content {
    Content(map[[1] := Pair(1, 5), [2] := Pair(2, 6)], [{[5, 1], [6, 2]}])
  }

  function ByFirst(): Option<Index> { Some(Index({0}, true, 1, Column(0))) }

  function BySecond(): seq<Index> { [Index({1}, true, 1, Column(1))] }

  lemma TwoRowsKeys(k: Bytes)
    ensures Has(BySecond()[0], TwoRows().data, k) <==> k == [5, 1] || k == [6, 2]
  {
    var ix, data := BySecond()[0], TwoRows().data;
    assert ix.bytes(data[[1]]) == [5] && ix.bytes(data[[2]]) == [6];
    assert [5, 1][1..] == [1] && [5, 1][..1] == [5] && [6, 2][1..] == [2] && [6, 2][..1] == [6];
    if Has(ix, data, k) {
      assert k == k[..1] + k[1..];
      assert k[1..] == [1] || k[1..] == [2];
    }
  }

  lemma TwoRowsGood()
    ensures AllFixed(BySecond()) && InStep(BySecond(), TwoRows()) && AllUnique(BySecond(), TwoRows().data)
  {
    forall k ensures k in TwoRows().keys[0] <==> Has(BySecond()[0], TwoRows().data, k) { TwoRowsKeys(k); }
  }

  lemma SixIsTaken(op: Op)
    requires op == Change([1], Pair(1, 6), {1})
    ensures Possible(TwoRows(), op) && Marks(TwoRows().data[[1]], op.r, op.written)
    ensures Safe(BySecond(), ByFirst(), TwoRows(), op) && !Distinct(BySecond(), ByFirst(), TwoRows(), op)
  {
    var data := TwoRows().data;
    assert NewPk(ByFirst(), [1], op.r, op.written) == [1] by { assert {0} * {1} == {}; }
    assert Touched(BySecond()[0], op.written) by { assert 1 in {1} * {1}; }
    assert [2] in data && [2] !in {[1]} && BySecond()[0].bytes(data[[2]]) == [6];
  }

  /** Setting the second column of row 1 to 6 succeeds and leaves two rows with one
      unique key. */
  lemma UpdateBreaksUnique(op: Op, s': Content)
    requires op == Change([1], Pair(1, 6), {1})
    requires Possible(TwoRows(), op) && s' == Do(BySecond(), ByFirst(), TwoRows(), op)
    ensures Marks(TwoRows().data[[1]], op.r, op.written) && AllUnique(BySecond(), TwoRows().data)
    ensures InStep(BySecond(), s') && !AllUnique(BySecond(), s'.data)
  {
    TwoRowsGood();
    SixIsTaken(op);
    StatementInStep(BySecond(), ByFirst(), TwoRows(), op);
    StatementUnique(BySecond(), ByFirst(), TwoRows(), op);
  }

  lemma TwoIsTaken(op: Op)
    requires op == Change([1], Pair(2, 5), {0})
    ensures Possible(TwoRows(), op) && Marks(TwoRows().data[[1]], op.r, op.written)
    ensures !Safe(BySecond(), ByFirst(), TwoRows(), op)
  {
    assert NewPk(ByFirst(), [1], op.r, op.written) == [2] by { assert 0 in {0} * {0}; }
    assert !NoStale(BySecond()[0], TwoRows().data, [2], op.r);
  }

  /** Moving row 1 onto primary key 2 succeeds and leaves row 2's old key behind. */
  lemma UpdateLeavesStaleKey(op: Op, s': Content)
    requires op == Change([1], Pair(2, 5), {0})
    requires Possible(TwoRows(), op) && s' == Do(BySecond(), ByFirst(), TwoRows(), op)
    ensures Marks(TwoRows().data[[1]], op.r, op.written) && InStep(BySecond(), TwoRows())
    ensures !InStep(BySecond(), s')
  {
    TwoRowsGood();
    TwoIsTaken(op);
    StatementInStep(BySecond(), ByFirst(), TwoRows(), op);
  }

  // ----- The table as the plugin updates it -----

  class Table {
    const defs: seq<Index>
    const primary: Option<Index>
    var data: Data
    var keys: seq<set<Bytes>>

    function View(): Content reads this { Content(data, keys) }

    constructor (defs: seq<Index>, primary: Option<Index>)
      ensures this.defs == defs && this.primary == primary && |keys| == |defs|
      ensures InStep(defs, View()) && AllUnique(defs, data) && data == map[]
    {
      this.defs, this.primary, data := defs, primary, map[];
      keys := seq(|defs|, i => {});
    }

    // The two statement theorems for this table as it is.
    lemma Exactly(op: Op)
      requires |keys| == |defs| && Possible(View(), op)
      ensures AllFixed(defs) && InStep(defs, View()) ==>
                (InStep(defs, Do(defs, primary, View(), op)) <==> Safe(defs, primary, View(), op))
      ensures AllUnique(defs, data) ==>
                (AllUnique(defs, Do(defs, primary, View(), op).data) <==> Distinct(defs, primary, View(), op))
    {
      if AllFixed(defs) && InStep(defs, View()) { StatementInStep(defs, primary, View(), op); }
      if AllUnique(defs, data) { StatementUnique(defs, primary, View(), op); }
    }

    // The duplicate checks of an insert, on the column families as they are.
    method CheckDuplicates(op: Op) returns (out: Outcome)
      requires op.Insert? && |keys| == |defs|
      ensures out != Done <==> Blocked(defs, primary, View(), op)
      ensures out == DupPrimary <==>
                primary.Some? && !op.skipUnique && !op.generated && (op.replacing ==> defs != []) && primary.value.bytes(op.r) in data
      ensures out.DupKey? ==> out.i < |defs| && defs[out.i].unique && Hit(keys[out.i], defs[out.i].bytes(op.r))
    {
      if primary.Some? && !op.skipUnique && !op.generated && !(op.replacing && |defs| == 0) {
        if PkFor(primary, op.r, op.rowId) in data { return DupPrimary; }
      }
      if !op.skipUnique {
        for i := 0 to |defs|
          invariant forall j :: 0 <= j < i && defs[j].unique ==> !Hit(keys[j], defs[j].bytes(op.r))
        {
          if defs[i].unique && Hit(keys[i], defs[i].bytes(op.r)) { return DupKey(i); }
        }
      }
      out := Done;
    }

    // write_row: the checks, the row, one key per index.
    method WriteRow(op: Op) returns (out: Outcome)
      requires op.Insert? && |keys| == |defs|
      modifies this
      ensures View() == Do(defs, primary, old(View()), op) && |keys| == |defs|
      ensures out != Done <==> Blocked(defs, primary, old(View()), op)
      ensures out != Done ==> View() == old(View())
      ensures out == DupPrimary <==>
                primary.Some? && !op.skipUnique && !op.generated && (op.replacing ==> defs != []) && primary.value.bytes(op.r) in old(data)
      ensures AllFixed(defs) && old(InStep(defs, View())) ==> (InStep(defs, View()) <==> Safe(defs, primary, old(View()), op))
      ensures old(AllUnique(defs, data)) ==> (AllUnique(defs, data) <==> Distinct(defs, primary, old(View()), op))
    {
      Exactly(op);
      out := CheckDuplicates(op);
      if out != Done { return; }
      ghost var had := keys;
      var pk := PkFor(primary, op.r, op.rowId);
      data := data[pk := op.r];
      for i := 0 to |defs|
        invariant |keys| == |defs| && data == old(data)[pk := op.r]
        invariant forall j :: 0 <= j < |defs| ==> keys[j] == if j < i then had[j] + {KeyFor(defs[j], pk, op.r)} else had[j]
      {
        keys := keys[i := keys[i] + {KeyFor(defs[i], pk, op.r)}];
      }
      assert keys == Do(defs, primary, old(View()), op).keys;
    }

    // Each index of an update, unless it can be skipped.
    method UpdateIndexes(ghost all: Data, oldPk: Bytes, newPk: Bytes, was: Record, r: Record, written: set<nat>)
      requires |keys| == |defs| && oldPk in all && all[oldPk] == was
      modifies this`keys
      ensures |keys| == |defs|
      ensures forall j :: 0 <= j < |defs| ==> keys[j] == UpdatedKeys(defs[j], all, old(keys)[j], oldPk, newPk, r, written)
    {
      for i := 0 to |defs|
        invariant |keys| == |defs|
        invariant forall j :: 0 <= j < |defs| ==>
          keys[j] == if j < i then UpdatedKeys(defs[j], all, old(keys)[j], oldPk, newPk, r, written) else old(keys)[j]
      {
        if newPk == oldPk && !Touched(defs[i], written) { continue; }
        var oldKey, newKey := KeyFor(defs[i], oldPk, was), KeyFor(defs[i], newPk, r);
        if oldKey == newKey { continue; }
        keys := keys[i := keys[i] - {oldKey} + {newKey}];
      }
    }

    // update_row: the row under its new key, then its index keys.
    method UpdateRow(op: Op) returns (newPk: Bytes)
      requires op.Change? && op.oldPk in data && |keys| == |defs|
      modifies this
      ensures View() == Do(defs, primary, old(View()), op) && |keys| == |defs|
      ensures newPk == NewPk(primary, op.oldPk, op.r, op.written)
      ensures AllFixed(defs) && old(InStep(defs, View())) ==> (InStep(defs, View()) <==> Safe(defs, primary, old(View()), op))
      ensures old(AllUnique(defs, data)) ==> (AllUnique(defs, data) <==> Distinct(defs, primary, old(View()), op))
    {
      Exactly(op);
      newPk := op.oldPk;
      if primary.Some? && Touched(primary.value, op.written) { newPk := primary.value.bytes(op.r); }
      ghost var all := data;
      var was := data[op.oldPk];
      if newPk != op.oldPk { data := data - {op.oldPk}; }
      data := data[newPk := op.r];
      UpdateIndexes(all, op.oldPk, newPk, was, op.r, op.written);
      assert keys == Do(defs, primary, old(View()), op).keys;
    }

    method DeleteRow(op: Op)
      requires op.Remove? && op.pk in data && |keys| == |defs|
      modifies this
      ensures View() == Do(defs, primary, old(View()), op) && |keys| == |defs|
      ensures AllFixed(defs) && old(InStep(defs, View())) ==> InStep(defs, View())
      ensures old(AllUnique(defs, data)) ==> AllUnique(defs, data)
    {
      Exactly(op);
      ghost var had := keys;
      var pk, r := op.pk, data[op.pk];
      data := data - {pk};
      for i := 0 to |defs|
        invariant |keys| == |defs| && data == old(data) - {pk}
        invariant forall j :: 0 <= j < |defs| ==> keys[j] == if j < i then had[j] - {KeyFor(defs[j], pk, r)} else had[j]
      {
        keys := keys[i := keys[i] - {KeyFor(defs[i], pk, r)}];
      }
      assert keys == Do(defs, primary, old(View()), op).keys;
    }
  }
}
