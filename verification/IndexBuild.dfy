/** The in-place build of added indexes: one scan of the data column family, committed
    in batches, with the iterator thrown away and re-seeked after every batch. */
module IndexBuild {
  import opened ByteOrder
  import opened SecondaryIndex
  import FullText

  const TIDESDB_INDEX_BUILD_BATCH := 100

  // An entry of the data column family: its key and, for a row, what it decodes to.
  type Row = Item<Record>

  // What the engine and the user do while the build runs, by batch number: whether a
  // put, a batch commit, the reset or new begin after it, the new iterator, its seek and
  // the last commit succeed, and a KILL.
  datatype Env = Env(
    putOk: (nat, nat) -> bool, commitOk: nat -> bool, resetOk: nat -> bool, beginOk: nat -> bool, iterOk: nat -> bool,
    seekOk: nat -> bool, killed: nat -> bool, finalOk: bool)

  // No kill and no failed restart after the first `n` batches.
  ghost predicate Unbroken(env: Env, n: nat) {
    forall b :: 0 <= b < n ==> !env.killed(b) && Restarts(env, b)
  }

  // After batch `b` there is a transaction and an iterator to go on with.
  predicate Restarts(env: Env, b: nat) { (env.resetOk(b) || env.beginOk(b)) && env.iterOk(b) }

  datatype Result = Built | Duplicate(a: nat) | Killed | Failed

  predicate IsData(e: Row) { IsDataKey(e.key) }

  function PkOf(e: Row): Bytes
    requires IsData(e)
  {
    e.key[1..]
  }

  ghost predicate Table(es: seq<Row>) { SortedKeys(KeysOf(es)) }

  // How many rows are among the first `i` entries.
  function Rows(es: seq<Row>, i: nat): (n: nat)
    requires i <= |es|
    ensures n <= i
  {
    if i == 0 then 0 else Rows(es, i - 1) + if IsData(es[i - 1]) then 1 else 0
  }

  predicate BatchEnds(n: nat) { n > 0 && n % TIDESDB_INDEX_BUILD_BATCH == 0 }

  function Batch(n: nat): nat { n / TIDESDB_INDEX_BUILD_BATCH }

  // The scan after its first `i` entries: committed keys and the open batch's.
  datatype Sim = Sim(done: set<Bytes>, open: set<Bytes>)

  function Scan(es: seq<Row>, ix: Index, a: nat, env: Env, i: nat): Sim
    requires i <= |es|
  {
    if i == 0 then Sim({}, {})
    else
      var s, e := Scan(es, ix, a, env, i - 1), es[i - 1];
      if !IsData(e) then s
      else
        var open := if env.putOk(i - 1, a) then s.open + {KeyFor(ix, PkOf(e), e.value)} else s.open;
        var n := Rows(es, i);
        if !BatchEnds(n) then Sim(s.done, open)
        else if env.commitOk(Batch(n) - 1) then Sim(s.done + open, {})
        else Sim(s.done, {})
  }

  // ----- What the scan leaves -----

  ghost predicate Shared(es: seq<Row>, ix: Index, i: nat, j: nat)
    requires i < |es| && j < |es|
  {
    i != j && IsData(es[i]) && IsData(es[j]) && ix.bytes(es[i].value) == ix.bytes(es[j].value)
  }

  // Row `j`'s key is in the index after the first `i` entries and a last commit.
  predicate Kept(es: seq<Row>, a: nat, env: Env, i: nat, j: nat)
    requires j < i <= |es|
  {
    env.putOk(j, a) && (Batch(Rows(es, j)) < Batch(Rows(es, i)) ==> env.commitOk(Batch(Rows(es, j))))
  }

  lemma PksDiffer(es: seq<Row>, i: nat, j: nat)
    requires Table(es) && i < |es| && j < |es| && i != j && IsData(es[i]) && IsData(es[j])
    ensures PkOf(es[i]) != PkOf(es[j])
  {
    LessIrreflexive(es[i].key);
    if i < j { Ordered(KeysOf(es), |es|, i, j); } else { Ordered(KeysOf(es), |es|, j, i); }
    assert es[i].key == [KEY_NS_DATA] + PkOf(es[i]) && es[j].key == [KEY_NS_DATA] + PkOf(es[j]);
  }

  // Everything in either set is the key of a row scanned.
  lemma {:induction false} ScanOnlyRows(es: seq<Row>, ix: Index, a: nat, env: Env, i: nat, k: Bytes)
    requires i <= |es|
    requires var s := Scan(es, ix, a, env, i); k in s.done || k in s.open
    ensures exists j :: 0 <= j < i && IsData(es[j]) && k == KeyFor(ix, PkOf(es[j]), es[j].value)
  {
    var s := Scan(es, ix, a, env, i - 1);
    if k in s.done || k in s.open {
      ScanOnlyRows(es, ix, a, env, i - 1, k);
    } else {
      assert k == KeyFor(ix, PkOf(es[i - 1]), es[i - 1].value);
    }
  }

  lemma KeysDiffer(es: seq<Row>, ix: Index, i: nat, j: nat)
    requires Table(es) && Fixed(ix) && i < |es| && j < |es| && i != j && IsData(es[i]) && IsData(es[j])
    ensures KeyFor(ix, PkOf(es[i]), es[i].value) != KeyFor(ix, PkOf(es[j]), es[j].value)
  {
    PksDiffer(es, i, j);
    KeyParts(ix, PkOf(es[i]), es[i].value);
    KeyParts(ix, PkOf(es[j]), es[j].value);
  }

  lemma BatchStep(n: nat)
    ensures Batch(n + 1) == if BatchEnds(n + 1) then Batch(n) + 1 else Batch(n)
  {
  }

  lemma NotYet(es: seq<Row>, ix: Index, a: nat, env: Env, i: nat)
    requires Table(es) && Fixed(ix) && i < |es| && IsData(es[i])
    ensures var k := KeyFor(ix, PkOf(es[i]), es[i].value);
            k !in Scan(es, ix, a, env, i).done && k !in Scan(es, ix, a, env, i).open
  {
    var k := KeyFor(ix, PkOf(es[i]), es[i].value);
    var s := Scan(es, ix, a, env, i);
    if k in s.done || k in s.open {
      ScanOnlyRows(es, ix, a, env, i, k);
      var j :| 0 <= j < i && IsData(es[j]) && k == KeyFor(ix, PkOf(es[j]), es[j].value);
      KeysDiffer(es, ix, j, i);
      assert false;
    }
  }

  // Where row `j`'s key is after the first `i` entries.
  lemma {:induction false} ScanHolds(es: seq<Row>, ix: Index, a: nat, env: Env, i: nat, j: nat)
    requires Table(es) && Fixed(ix) && j < i <= |es| && IsData(es[j])
    ensures var k, s := KeyFor(ix, PkOf(es[j]), es[j].value), Scan(es, ix, a, env, i);
            var b, c := Batch(Rows(es, j)), Batch(Rows(es, i));
            && b <= c
            && (k in s.open <==> env.putOk(j, a) && b == c)
            && (k in s.done <==> env.putOk(j, a) && b < c && env.commitOk(b))
    decreases i
  {
    BatchStep(Rows(es, i - 1));
    if j == i - 1 {
      NotYet(es, ix, a, env, j);
    } else {
      ScanHolds(es, ix, a, env, i - 1, j);
      if IsData(es[i - 1]) { KeysDiffer(es, ix, j, i - 1); }
    }
  }

  // ----- The table as a map -----

  function DataOf(es: seq<Row>, i: nat): Data
    requires i <= |es|
  {
    if i == 0 then map[]
    else if IsData(es[i - 1]) then DataOf(es, i - 1)[PkOf(es[i - 1]) := es[i - 1].value]
    else DataOf(es, i - 1)
  }

  lemma {:induction false} DataOfRow(es: seq<Row>, i: nat, j: nat)
    requires Table(es) && j < i <= |es| && IsData(es[j])
    ensures PkOf(es[j]) in DataOf(es, i) && DataOf(es, i)[PkOf(es[j])] == es[j].value
    decreases i
  {
    if j < i - 1 {
      DataOfRow(es, i - 1, j);
      if IsData(es[i - 1]) { PksDiffer(es, j, i - 1); }
    }
  }

  lemma {:induction false} DataOfOnly(es: seq<Row>, i: nat, pk: Bytes)
    requires i <= |es| && pk in DataOf(es, i)
    ensures exists j :: 0 <= j < i && IsData(es[j]) && PkOf(es[j]) == pk
  {
    if IsData(es[i - 1]) && PkOf(es[i - 1]) == pk {
    } else {
      DataOfOnly(es, i - 1, pk);
    }
  }

  ghost predicate AllKept(es: seq<Row>, a: nat, env: Env, i: nat)
    requires i <= |es|
  {
    forall j :: 0 <= j < |es| && IsData(es[j]) ==> j < i && Kept(es, a, env, i, j)
  }

  lemma BuiltHolds(es: seq<Row>, ix: Index, a: nat, env: Env, i: nat, j: nat)
    requires Table(es) && Fixed(ix) && i <= |es| && j < |es| && IsData(es[j])
    ensures var s := Scan(es, ix, a, env, i);
            KeyFor(ix, PkOf(es[j]), es[j].value) in s.done + s.open <==> j < i && Kept(es, a, env, i, j)
  {
    var k, s := KeyFor(ix, PkOf(es[j]), es[j].value), Scan(es, ix, a, env, i);
    if j < i {
      ScanHolds(es, ix, a, env, i, j);
    } else if k in s.done || k in s.open {
      ScanOnlyRows(es, ix, a, env, i, k);
      var h :| 0 <= h < i && IsData(es[h]) && k == KeyFor(ix, PkOf(es[h]), es[h].value);
      KeysDiffer(es, ix, h, j);
      assert false;
    }
  }

  /** After a scan of the first `i` entries and a last commit, the new index is in step
      with the table if and only if the scan reached every row, every put succeeded and
      so did the commit of every full batch. */
  lemma BuiltIsImage(es: seq<Row>, ix: Index, a: nat, env: Env, i: nat)
    requires Table(es) && Fixed(ix) && i <= |es|
    ensures var s := Scan(es, ix, a, env, i); Mirrors(ix, DataOf(es, |es|), s.done + s.open) <==> AllKept(es, a, env, i)
  {
    var s := Scan(es, ix, a, env, i);
    var keys, data := s.done + s.open, DataOf(es, |es|);
    forall j | 0 <= j < |es| && IsData(es[j])
      ensures Has(ix, data, KeyFor(ix, PkOf(es[j]), es[j].value))
      ensures KeyFor(ix, PkOf(es[j]), es[j].value) in keys <==> j < i && Kept(es, a, env, i, j)
    {
      DataOfRow(es, |es|, j);
      KeyParts(ix, PkOf(es[j]), es[j].value);
      BuiltHolds(es, ix, a, env, i, j);
    }
    if AllKept(es, a, env, i) {
      forall k ensures k in keys <==> Has(ix, data, k) {
        if k in keys {
          ScanOnlyRows(es, ix, a, env, i, k);
        } else if Has(ix, data, k) {
          DataOfOnly(es, |es|, k[ix.len..]);
          var j :| 0 <= j < |es| && IsData(es[j]) && PkOf(es[j]) == k[ix.len..];
          DataOfRow(es, |es|, j);
          SameKey(ix, PkOf(es[j]), es[j].value, k);
          assert false;
        }
      }
    }
  }

  lemma {:induction false} FirstRow(es: seq<Row>, i: nat) returns (j: nat)
    requires i <= |es| && Rows(es, i) > 0
    ensures j < i && IsData(es[j]) && Rows(es, j) == 0
  {
    if Rows(es, i - 1) > 0 { j := FirstRow(es, i - 1); } else { j := i - 1; }
  }

  /** A batch commit that fails is only logged: whatever else succeeds, the build then
      reports success with rows missing from the index. */
  lemma LostBatch(es: seq<Row>, a: nat, env: Env)
    requires Rows(es, |es|) >= TIDESDB_INDEX_BUILD_BATCH && !env.commitOk(0)
    ensures !AllKept(es, a, env, |es|)
  {
    var j := FirstRow(es, |es|);
    assert !Kept(es, a, env, |es|, j);
  }

  /** When every put and every batch commit succeeds, a scan that reaches the end keeps
      every row. */
  lemma NothingLost(es: seq<Row>, a: nat, env: Env)
    requires (forall j :: env.putOk(j, a)) && forall b :: env.commitOk(b)
    ensures AllKept(es, a, env, |es|)
  {
  }

  // ----- The build -----

  lemma SeekFinds(es: seq<Row>, i: nat)
    requires Table(es) && i < |es|
    ensures Seek(KeysOf(es), es[i].key) == i
  {
    LessIrreflexive(es[i].key);
    var r := Seek(KeysOf(es), es[i].key);
    assert KeysOf(es)[i] == es[i].key;
    if r < i { Ordered(KeysOf(es), |es|, r, i); }
  }

  // The bytes a unique index has seen in the first `i` entries.
  ghost predicate Seen(es: seq<Row>, ix: Index, i: nat, seen: set<Bytes>)
    requires i <= |es|
  {
    && (forall j :: 0 <= j < i && IsData(es[j]) ==> ix.bytes(es[j].value) in seen)
    && (forall b :: b in seen ==> exists j :: 0 <= j < i && IsData(es[j]) && ix.bytes(es[j].value) == b)
    && (forall j, h :: 0 <= j < h < i ==> !Shared(es, ix, j, h))
  }

  lemma SeenNext(es: seq<Row>, ix: Index, i: nat, seen: set<Bytes>)
    requires i < |es| && IsData(es[i]) && Seen(es, ix, i, seen) && ix.bytes(es[i].value) !in seen
    ensures Seen(es, ix, i + 1, seen + {ix.bytes(es[i].value)})
  {
    var seen' := seen + {ix.bytes(es[i].value)};
    forall b | b in seen' ensures exists j :: 0 <= j < i + 1 && IsData(es[j]) && ix.bytes(es[j].value) == b {
      if b in seen { var j :| 0 <= j < i && IsData(es[j]) && ix.bytes(es[j].value) == b; }
    }
  }

  // One row for every added index: the unique check, then the put.
  method AddRow(e: Row, i: nat, defs: seq<Index>, env: Env, pending: seq<set<Bytes>>, seen: seq<set<Bytes>>)
    returns (dup: Option<nat>, pending': seq<set<Bytes>>, seen': seq<set<Bytes>>)
    requires IsData(e) && |pending| == |seen| == |defs|
    ensures dup.Some? ==> dup.value < |defs| && defs[dup.value].unique && defs[dup.value].bytes(e.value) in seen[dup.value]
    ensures dup.None? ==> Put(e, i, defs, env, pending, pending') && Noted(e, defs, seen, seen')
  {
    pending', seen' := pending, seen;
    for a := 0 to |defs|
      invariant |pending'| == |seen'| == |defs|
      invariant forall c :: a <= c < |defs| ==> pending'[c] == pending[c] && seen'[c] == seen[c]
      invariant forall c :: 0 <= c < a && defs[c].unique ==>
        defs[c].bytes(e.value) !in seen[c] && seen'[c] == seen[c] + {defs[c].bytes(e.value)}
      invariant forall c :: 0 <= c < a ==>
        pending'[c] == if env.putOk(i, c) then pending[c] + {KeyFor(defs[c], PkOf(e), e.value)} else pending[c]
    {
      var bytes := defs[a].bytes(e.value);
      if defs[a].unique {
        if bytes in seen'[a] { return Some(a), pending', seen'; }
        seen' := seen'[a := seen'[a] + {bytes}];
      }
      if env.putOk(i, a) { pending' := pending'[a := pending'[a] + {bytes + PkOf(e)}]; }
    }
    dup := None;
  }

  function Merged(cfs: seq<set<Bytes>>, pending: seq<set<Bytes>>): (r: seq<set<Bytes>>)
    requires |cfs| == |pending|
    ensures |r| == |cfs| && forall a :: 0 <= a < |cfs| ==> r[a] == cfs[a] + pending[a]
  {
    seq(|cfs|, a requires 0 <= a < |cfs| => cfs[a] + pending[a])
  }

  function Empty(n: nat): (r: seq<set<Bytes>>)
    ensures |r| == n && forall a :: 0 <= a < n ==> r[a] == {}
  {
    seq(n, a => {})
  }

  // The committed and open keys of every index after `i` entries.
  ghost predicate AtKeys(es: seq<Row>, defs: seq<Index>, env: Env, i: nat, cfs: seq<set<Bytes>>, pending: seq<set<Bytes>>)
    requires i <= |es|
  {
    && |cfs| == |pending| == |defs|
    && forall a :: 0 <= a < |defs| ==> Scan(es, defs[a], a, env, i) == Sim(cfs[a], pending[a])
  }

  ghost predicate AtSeen(es: seq<Row>, defs: seq<Index>, i: nat, seen: seq<set<Bytes>>)
    requires i <= |es|
  {
    |seen| == |defs| && forall a :: 0 <= a < |defs| && defs[a].unique ==> Seen(es, defs[a], i, seen[a])
  }

  lemma SkipKeys(es: seq<Row>, defs: seq<Index>, env: Env, i: nat, cfs: seq<set<Bytes>>, pending: seq<set<Bytes>>)
    requires i < |es| && AtKeys(es, defs, env, i, cfs, pending) && !IsData(es[i])
    ensures AtKeys(es, defs, env, i + 1, cfs, pending)
  {
  }

  lemma SkipSeen(es: seq<Row>, defs: seq<Index>, i: nat, seen: seq<set<Bytes>>)
    requires i < |es| && AtSeen(es, defs, i, seen) && !IsData(es[i])
    ensures AtSeen(es, defs, i + 1, seen)
  {
    forall a | 0 <= a < |defs| && defs[a].unique ensures Seen(es, defs[a], i + 1, seen[a]) {
      SeenSkips(es, defs[a], i, seen[a]);
    }
  }

  lemma SeenSkips(es: seq<Row>, ix: Index, i: nat, seen: set<Bytes>)
    requires i < |es| && Seen(es, ix, i, seen) && !IsData(es[i])
    ensures Seen(es, ix, i + 1, seen)
  {
  }

  // A row has been put into the open batches.
  ghost predicate Put(e: Row, i: nat, defs: seq<Index>, env: Env, pending: seq<set<Bytes>>, pending': seq<set<Bytes>>)
    requires IsData(e)
  {
    && |pending| == |pending'| == |defs|
    && forall a :: 0 <= a < |defs| ==>
         pending'[a] == if env.putOk(i, a) then pending[a] + {KeyFor(defs[a], PkOf(e), e.value)} else pending[a]
  }

  // Its bytes were new to every unique index and are seen now.
  ghost predicate Noted(e: Row, defs: seq<Index>, seen: seq<set<Bytes>>, seen': seq<set<Bytes>>) {
    && |seen| == |seen'| == |defs|
    && forall a :: 0 <= a < |defs| && defs[a].unique ==>
         defs[a].bytes(e.value) !in seen[a] && seen'[a] == seen[a] + {defs[a].bytes(e.value)}
  }

  lemma RowSeen(es: seq<Row>, defs: seq<Index>, i: nat, seen: seq<set<Bytes>>, seen': seq<set<Bytes>>)
    requires i < |es| && IsData(es[i]) && AtSeen(es, defs, i, seen) && Noted(es[i], defs, seen, seen')
    ensures AtSeen(es, defs, i + 1, seen')
  {
    forall a | 0 <= a < |defs| && defs[a].unique ensures Seen(es, defs[a], i + 1, seen'[a]) {
      SeenNext(es, defs[a], i, seen[a]);
    }
  }

  lemma RowInBatch(es: seq<Row>, defs: seq<Index>, env: Env, i: nat, cfs: seq<set<Bytes>>, pending: seq<set<Bytes>>, pending': seq<set<Bytes>>)
    requires i < |es| && IsData(es[i]) && AtKeys(es, defs, env, i, cfs, pending) && Put(es[i], i, defs, env, pending, pending')
    requires !BatchEnds(Rows(es, i + 1))
    ensures AtKeys(es, defs, env, i + 1, cfs, pending')
  {
  }

  lemma RowEndsBatch(es: seq<Row>, defs: seq<Index>, env: Env, i: nat, cfs: seq<set<Bytes>>, pending: seq<set<Bytes>>, pending': seq<set<Bytes>>)
    requires i < |es| && IsData(es[i]) && AtKeys(es, defs, env, i, cfs, pending) && Put(es[i], i, defs, env, pending, pending')
    requires BatchEnds(Rows(es, i + 1))
    ensures AtKeys(es, defs, env, i + 1, if env.commitOk(Batch(Rows(es, i + 1)) - 1) then Merged(cfs, pending') else cfs, Empty(|defs|))
  {
  }

  function WordsOf(es: seq<Row>, words: Record -> nat, i: nat): nat
    requires i <= |es|
  {
    if i == 0 then 0 else WordsOf(es, words, i - 1) + if IsData(es[i - 1]) then words(es[i - 1].value) else 0
  }

  // The documents of the first `i` entries under an added full-text index.
  function DocsOf(es: seq<Row>, tokens: Record -> FullText.Tokens, i: nat): FullText.Docs
    requires i <= |es|
  {
    if i == 0 then map[]
    else if IsData(es[i - 1]) then DocsOf(es, tokens, i - 1)[PkOf(es[i - 1]) := tokens(es[i - 1].value)]
    else DocsOf(es, tokens, i - 1)
  }

  lemma {:induction false} DocsOfOnly(es: seq<Row>, tokens: Record -> FullText.Tokens, i: nat, pk: Bytes)
    requires i <= |es| && pk in DocsOf(es, tokens, i)
    ensures exists j :: 0 <= j < i && IsData(es[j]) && PkOf(es[j]) == pk
  {
    if IsData(es[i - 1]) && PkOf(es[i - 1]) == pk {
    } else {
      DocsOfOnly(es, tokens, i - 1, pk);
    }
  }

  /** What the scan has counted is the number of documents and of words in them, so a
      build that reaches the end writes true counters. */
  lemma {:induction false} CountsAreTotals(es: seq<Row>, tokens: Record -> FullText.Tokens, words: Record -> nat, i: nat)
    requires Table(es) && i <= |es| && forall r :: words(r) == FullText.WordCount(tokens(r))
    ensures Rows(es, i) == |DocsOf(es, tokens, i)| && WordsOf(es, words, i) == FullText.Words(DocsOf(es, tokens, i))
  {
    if i > 0 {
      CountsAreTotals(es, tokens, words, i - 1);
      if IsData(es[i - 1]) {
        var pk, docs := PkOf(es[i - 1]), DocsOf(es, tokens, i - 1);
        if pk in docs {
          DocsOfOnly(es, tokens, i - 1, pk);
          var j :| 0 <= j < i - 1 && IsData(es[j]) && PkOf(es[j]) == pk;
          PksDiffer(es, j, i - 1);
          assert false;
        }
        FullText.WordsWith(docs, pk, tokens(es[i - 1].value));
      }
    }
  }

  /** And the documents are one per row of the table. */
  lemma {:induction false} DocsMatchData(es: seq<Row>, tokens: Record -> FullText.Tokens, i: nat)
    requires i <= |es|
    ensures var docs, data := DocsOf(es, tokens, i), DataOf(es, i);
            docs.Keys == data.Keys && forall pk :: pk in docs ==> docs[pk] == tokens(data[pk])
  {
    if i > 0 { DocsMatchData(es, tokens, i - 1); }
  }

  ghost predicate Repeats(es: seq<Row>, ix: Index) {
    exists i, j :: 0 <= i < |es| && 0 <= j < |es| && Shared(es, ix, i, j)
  }

  lemma DupShared(es: seq<Row>, ix: Index, i: nat, seen: set<Bytes>)
    requires i < |es| && IsData(es[i]) && Seen(es, ix, i, seen) && ix.bytes(es[i].value) in seen
    ensures Repeats(es, ix)
  {
    var j :| 0 <= j < i && IsData(es[j]) && ix.bytes(es[j].value) == ix.bytes(es[i].value);
    assert Shared(es, ix, j, i);
  }

  // The full-text accumulators after `i` entries.
  ghost predicate Counts(es: seq<Row>, words: seq<Record -> nat>, i: nat, acc: seq<(nat, nat)>)
    requires i <= |es|
  {
    |acc| == |words| && forall t :: 0 <= t < |words| ==> acc[t] == (Rows(es, i), WordsOf(es, words[t], i))
  }

  method CountRow(es: seq<Row>, words: seq<Record -> nat>, i: nat, acc: seq<(nat, nat)>) returns (acc': seq<(nat, nat)>)
    requires i < |es| && IsData(es[i]) && Counts(es, words, i, acc)
    ensures Counts(es, words, i + 1, acc')
  {
    acc' := seq(|words|, t requires 0 <= t < |words| => (acc[t].0 + 1, acc[t].1 + words[t](es[i].value)));
  }

  // The end of the build: every unique index has seen the whole table.
  lemma NoRepeats(es: seq<Row>, ix: Index, seen: set<Bytes>)
    requires Seen(es, ix, |es|, seen)
    ensures !Repeats(es, ix)
  {
    forall i, j | 0 <= i < |es| && 0 <= j < |es| ensures !Shared(es, ix, i, j) {
      assert i < j ==> !Shared(es, ix, i, j);
      assert j < i ==> !Shared(es, ix, j, i);
    }
  }

  lemma NoneRepeats(es: seq<Row>, defs: seq<Index>, seen: seq<set<Bytes>>)
    requires AtSeen(es, defs, |es|, seen)
    ensures forall a :: 0 <= a < |defs| && defs[a].unique ==> !Repeats(es, defs[a])
  {
    forall a | 0 <= a < |defs| && defs[a].unique ensures !Repeats(es, defs[a]) { NoRepeats(es, defs[a], seen[a]); }
  }

  // Where the scan stands: the entry it is at, the batches, what the unique indexes
  // have seen and the full-text accumulators.
  datatype State = State(i: nat, rows: nat, cfs: seq<set<Bytes>>, pending: seq<set<Bytes>>, seen: seq<set<Bytes>>, acc: seq<(nat, nat)>)

  ghost predicate Standing(es: seq<Row>, defs: seq<Index>, words: seq<Record -> nat>, env: Env, s: State) {
    && s.i <= |es| && s.rows == Rows(es, s.i) && Counts(es, words, s.i, s.acc)
    && AtKeys(es, defs, env, s.i, s.cfs, s.pending) && AtSeen(es, defs, s.i, s.seen)
  }

  lemma Skips(es: seq<Row>, defs: seq<Index>, words: seq<Record -> nat>, env: Env, s: State)
    requires Standing(es, defs, words, env, s) && s.i < |es| && !IsData(es[s.i])
    ensures Standing(es, defs, words, env, s.(i := s.i + 1))
  {
    SkipKeys(es, defs, env, s.i, s.cfs, s.pending);
    SkipSeen(es, defs, s.i, s.seen);
  }

  // The end of a full batch: commit, then a new iterator at the entry after `last`.
  method EndBatch(es: seq<Row>, defs: seq<Index>, env: Env, i: nat, b: nat, last: Bytes, cfs: seq<set<Bytes>>, pending: seq<set<Bytes>>)
    returns (ok: bool, found: bool, i': nat, cfs': seq<set<Bytes>>)
    requires Table(es) && i < |es| && last == es[i].key && |cfs| == |pending|
    ensures i' == i + 1 && (ok <==> Restarts(env, b)) && (found <==> ok && env.seekOk(b))
    ensures cfs' == if env.commitOk(b) then Merged(cfs, pending) else cfs
  {
    i', cfs' := i + 1, cfs;
    if env.commitOk(b) { cfs' := Merged(cfs, pending); }
    if !env.resetOk(b) {
      if !env.beginOk(b) { return false, false, i', cfs'; }
    }
    if !env.iterOk(b) { return false, false, i', cfs'; }
    if !env.seekOk(b) { return true, false, i', cfs'; }
    SeekFinds(es, i);
    i' := Seek(KeysOf(es), last);
    if i' < |es| { i' := i' + 1; }
    return true, true, i', cfs';
  }

  // One row of the scan; `go` says whether the scan goes on.
  method ScanRow(es: seq<Row>, defs: seq<Index>, words: seq<Record -> nat>, env: Env, s: State) returns (res: Result, go: bool, s': State)
    requires Table(es) && Standing(es, defs, words, env, s) && s.i < |es| && IsData(es[s.i])
    ensures res == Built ==> Standing(es, defs, words, env, s') && s'.i == s.i + 1
    ensures res == Built && !go ==> BatchEnds(Rows(es, s'.i)) && !env.seekOk(Batch(Rows(es, s'.i)) - 1)
    ensures res == Built && BatchEnds(Rows(es, s.i + 1)) ==>
              !env.killed(Batch(Rows(es, s.i + 1)) - 1) && Restarts(env, Batch(Rows(es, s.i + 1)) - 1)
    ensures res.Duplicate? ==> res.a < |defs| && defs[res.a].unique && Repeats(es, defs[res.a])
    ensures res == Killed ==> BatchEnds(Rows(es, s.i + 1)) && env.killed(Batch(Rows(es, s.i + 1)) - 1)
    ensures res == Failed ==> BatchEnds(Rows(es, s.i + 1)) && !Restarts(env, Batch(Rows(es, s.i + 1)) - 1)
  {
    var e := es[s.i];
    var dup, pending, seen := AddRow(e, s.i, defs, env, s.pending, s.seen);
    if dup.Some? {
      DupShared(es, defs[dup.value], s.i, s.seen[dup.value]);
      return Duplicate(dup.value), false, s;
    }
    RowSeen(es, defs, s.i, s.seen, seen);
    var acc := CountRow(es, words, s.i, s.acc);
    res, go, s' := FinishRow(es, defs, words, env, s, pending, seen, acc);
  }

  // The row is in the open batches: a full batch ends.
  method FinishRow(es: seq<Row>, defs: seq<Index>, words: seq<Record -> nat>, env: Env, s: State,
                   pending: seq<set<Bytes>>, seen: seq<set<Bytes>>, acc: seq<(nat, nat)>)
    returns (res: Result, go: bool, s': State)
    requires Table(es) && s.i < |es| && IsData(es[s.i]) && s.rows == Rows(es, s.i)
    requires AtKeys(es, defs, env, s.i, s.cfs, s.pending) && Put(es[s.i], s.i, defs, env, s.pending, pending)
    requires AtSeen(es, defs, s.i + 1, seen) && Counts(es, words, s.i + 1, acc)
    ensures res == Built ==> Standing(es, defs, words, env, s') && s'.i == s.i + 1
    ensures res == Built && !go ==> BatchEnds(Rows(es, s'.i)) && !env.seekOk(Batch(Rows(es, s'.i)) - 1)
    ensures res == Built && BatchEnds(Rows(es, s.i + 1)) ==>
              !env.killed(Batch(Rows(es, s.i + 1)) - 1) && Restarts(env, Batch(Rows(es, s.i + 1)) - 1)
    ensures !res.Duplicate?
    ensures res == Killed ==> BatchEnds(Rows(es, s.i + 1)) && env.killed(Batch(Rows(es, s.i + 1)) - 1)
    ensures res == Failed ==> BatchEnds(Rows(es, s.i + 1)) && !Restarts(env, Batch(Rows(es, s.i + 1)) - 1)
  {
    var rows := s.rows + 1;
    assert rows == Rows(es, s.i + 1);
    if rows % TIDESDB_INDEX_BUILD_BATCH == 0 {
      var next, cfs;
      res, go, next, cfs := CloseBatch(es, defs, env, s.i, rows, s.cfs, s.pending, pending);
      s' := State(next, rows, cfs, Empty(|defs|), seen, acc);
    } else {
      RowInBatch(es, defs, env, s.i, s.cfs, s.pending, pending);
      res, go, s' := Built, true, State(s.i + 1, rows, s.cfs, pending, seen, acc);
    }
  }

  method CloseBatch(es: seq<Row>, defs: seq<Index>, env: Env, i: nat, rows: nat, cfs: seq<set<Bytes>>,
                    ghost was: seq<set<Bytes>>, pending: seq<set<Bytes>>)
    returns (res: Result, go: bool, next: nat, cfs': seq<set<Bytes>>)
    requires Table(es) && i < |es| && IsData(es[i]) && rows == Rows(es, i + 1) && BatchEnds(rows)
    requires AtKeys(es, defs, env, i, cfs, was) && Put(es[i], i, defs, env, was, pending)
    ensures res == Built ==> next == i + 1 && AtKeys(es, defs, env, i + 1, cfs', Empty(|defs|))
    ensures res == Built ==> !env.killed(Batch(rows) - 1) && Restarts(env, Batch(rows) - 1) && (go <==> env.seekOk(Batch(rows) - 1))
    ensures !res.Duplicate? && (res == Killed ==> env.killed(Batch(rows) - 1)) && (res == Failed ==> !Restarts(env, Batch(rows) - 1))
  {
    var b := rows / TIDESDB_INDEX_BUILD_BATCH - 1;
    if env.killed(b) { return Killed, false, i, cfs; }
    RowEndsBatch(es, defs, env, i, cfs, was, pending);
    var ok;
    ok, go, next, cfs' := EndBatch(es, defs, env, i, b, es[i].key, cfs, pending);
    res := if ok then Built else Failed;
  }

  /** inplace_alter_table over a static table. `words` is one word count per added
      full-text index; `meta` is what is added to each one's counters, which happens
      only after the last commit. */
  method Build(es: seq<Row>, defs: seq<Index>, words: seq<Record -> nat>, env: Env)
    returns (res: Result, cfs: seq<set<Bytes>>, meta: seq<(nat, nat)>, ghost stop: nat)
    requires Table(es)
    ensures stop <= |es| && |meta| == |words|
    ensures res == Built ==> |cfs| == |defs| && forall a :: 0 <= a < |defs| ==>
              cfs[a] == Scan(es, defs[a], a, env, stop).done + Scan(es, defs[a], a, env, stop).open
    ensures res == Built ==> forall a :: 0 <= a < |defs| && Fixed(defs[a]) ==>
              (Mirrors(defs[a], DataOf(es, |es|), cfs[a]) <==> AllKept(es, a, env, stop))
    ensures res == Built && stop < |es| ==> BatchEnds(Rows(es, stop)) && !env.seekOk(Batch(Rows(es, stop)) - 1)
    ensures res == Built && stop == |es| ==> forall a :: 0 <= a < |defs| && defs[a].unique ==> !Repeats(es, defs[a])
    ensures res.Duplicate? ==> res.a < |defs| && defs[res.a].unique && Repeats(es, defs[res.a])
    ensures (forall b :: Restarts(env, b) && env.seekOk(b) && !env.killed(b)) && env.finalOk ==>
              (res == Built && stop == |es|) || res.Duplicate?
    ensures res == Killed ==> exists b :: env.killed(b)
    ensures res == Failed ==> !env.finalOk || exists b :: !Restarts(env, b)
    ensures res == Built ==> env.finalOk && Unbroken(env, Batch(Rows(es, stop)))
    ensures res == Built ==> Counts(es, words, stop, meta)
    ensures res != Built ==> forall t :: 0 <= t < |words| ==> meta[t] == (0, 0)
  {
    meta := seq(|words|, t => (0, 0));
    var s := State(0, 0, Empty(|defs|), Empty(|defs|), Empty(|defs|), meta);
    var go := true;
    while go && s.i < |es|
      invariant Standing(es, defs, words, env, s)
      invariant !go ==> BatchEnds(Rows(es, s.i)) && !env.seekOk(Batch(Rows(es, s.i)) - 1)
      invariant Unbroken(env, Batch(Rows(es, s.i)))
      decreases |es| - s.i
    {
      BatchStep(Rows(es, s.i));
      if !IsData(es[s.i]) {
        Skips(es, defs, words, env, s);
        s := s.(i := s.i + 1);
        continue;
      }
      res, go, s := ScanRow(es, defs, words, env, s);
      if res != Built { return res, s.cfs, meta, 0; }
    }
    stop := s.i;
    if !env.finalOk { return Failed, s.cfs, meta, stop; }
    if stop == |es| { NoneRepeats(es, defs, s.seen); }
    cfs := Merged(s.cfs, s.pending);
    meta := s.acc;
    res := Built;
    ImagesExactly(es, defs, env, stop, s.cfs, s.pending, cfs);
  }

  lemma ImagesExactly(es: seq<Row>, defs: seq<Index>, env: Env, stop: nat, done: seq<set<Bytes>>, open: seq<set<Bytes>>, cfs: seq<set<Bytes>>)
    requires Table(es) && stop <= |es| && AtKeys(es, defs, env, stop, done, open) && cfs == Merged(done, open)
    ensures forall a :: 0 <= a < |defs| ==> cfs[a] == Scan(es, defs[a], a, env, stop).done + Scan(es, defs[a], a, env, stop).open
    ensures forall a :: 0 <= a < |defs| && Fixed(defs[a]) ==> (Mirrors(defs[a], DataOf(es, |es|), cfs[a]) <==> AllKept(es, a, env, stop))
  {
    forall a | 0 <= a < |defs| && Fixed(defs[a])
      ensures Mirrors(defs[a], DataOf(es, |es|), cfs[a]) <==> AllKept(es, a, env, stop)
    {
      BuiltIsImage(es, defs[a], a, env, stop);
    }
  }
}
