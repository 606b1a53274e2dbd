/** Full-text index maintenance: postings kept by term-level differences and the
    document and word counters, inside and outside a bulk insert. */
module FullText {
  import opened ByteOrder
  import opened PrefixSeek

  const U16 := 0x1_0000
  const U32 := 0x1_0000_0000

  type Tokens = seq<Bytes>

  type Docs = map<Bytes, Tokens>

  predicate TokensFit(ts: Tokens) { forall i :: 0 <= i < |ts| ==> |ts[i]| <= FTS_MAX_TERM_BYTES }

  ghost predicate DocsFit(docs: Docs) { forall pk :: pk in docs ==> TokensFit(docs[pk]) }

  function Count(ts: Tokens, t: Bytes): (n: nat)
    ensures n > 0 <==> t in ts
  {
    if ts == [] then 0 else Count(ts[..|ts| - 1], t) + if ts[|ts| - 1] == t then 1 else 0
  }

  lemma {:induction false} CountIs(ts: Tokens, t: Bytes)
    ensures Count(ts, t) == multiset(ts)[t]
  {
    if ts != [] {
      CountIs(ts[..|ts| - 1], t);
      assert ts == ts[..|ts| - 1] + [ts[|ts| - 1]];
    }
  }

  // The counters the code keeps are 16 and 32 bits wide.
  function TermCount(ts: Tokens, t: Bytes): (n: nat)
    ensures n < U16
  {
    Count(ts, t) % U16
  }

  function WordCount(ts: Tokens): (n: nat)
    ensures n < U32
  {
    |ts| % U32
  }

  /** A document's length counts every word, repeated ones again: it adds up over its
      parts, modulo the 32-bit counter. */
  lemma WordCountAdds(a: Tokens, b: Tokens, t: Bytes)
    ensures WordCount([]) == 0 && WordCount([t]) == 1
    ensures WordCount(a + b) == (WordCount(a) + WordCount(b)) % U32
  {
    assert |a + b| == |a| + |b|;
  }

  // fts_build_value, read back by Tf and DocLen.
  function Value(tf: nat, docLen: nat): (v: Bytes)
    requires tf < U16 && docLen < U32
    ensures |v| == FTS_VALUE_LEN
  {
    assert Pow256(2) == U16 && Pow256(4) == U32;
    LE(2, tf) + LE(4, docLen)
  }

  lemma ValueReads(pk: Bytes, tf: nat, docLen: nat)
    requires tf < U16 && docLen < U32
    ensures var p := Posting(pk, Value(tf, docLen)); Tf(p) == tf && DocLen(p) == docLen
  {
    assert Pow256(2) == U16 && Pow256(4) == U32;
    var v := Value(tf, docLen);
    assert v[..2] == LE(2, tf) && v[2..6] == LE(4, docLen);
    FromLEInverse(2, tf);
    FromLEInverse(4, docLen);
  }

  // ----- What the column family must hold -----

  predicate IsKey(k: Bytes) { |k| >= 2 && FromLE(k[..2]) <= FTS_MAX_TERM_BYTES && |k| >= 2 + FromLE(k[..2]) }

  function TermOf(k: Bytes): Bytes
    requires IsKey(k)
  {
    k[2..2 + FromLE(k[..2])]
  }

  function PkOf(k: Bytes): Bytes
    requires IsKey(k)
  {
    k[2 + FromLE(k[..2])..]
  }

  lemma KeyParts(t: Bytes, pk: Bytes)
    requires |t| <= FTS_MAX_TERM_BYTES
    ensures IsKey(PostingKey(t, pk)) && TermOf(PostingKey(t, pk)) == t && PkOf(PostingKey(t, pk)) == pk
  {
    PostingKeyParts(t, pk);
  }

  lemma KeyBack(k: Bytes)
    requires IsKey(k)
    ensures |TermOf(k)| <= FTS_MAX_TERM_BYTES && k == PostingKey(TermOf(k), PkOf(k))
  {
    assert Pow256(2) == U16;
    LEInverse(k[..2]);
    assert k == k[..2] + TermOf(k) + PkOf(k);
  }

  function Stored(ts: Tokens, t: Bytes): Bytes { Value(TermCount(ts, t), WordCount(ts)) }

  function Look(m: map<Bytes, Bytes>, k: Bytes): Option<Bytes> {
    if k in m then Some(m[k]) else None
  }

  // A posting for every term of every document, and nothing else.
  ghost function Wants(docs: Docs, k: Bytes): Option<Bytes> {
    if IsKey(k) && PkOf(k) in docs && TermOf(k) in docs[PkOf(k)] then Some(Stored(docs[PkOf(k)], TermOf(k))) else None
  }

  ghost predicate Mirrors(postings: map<Bytes, Bytes>, docs: Docs) {
    forall k :: Look(postings, k) == Wants(docs, k)
  }

  /** Read by key: the posting of a term and a primary key is there exactly when the
      document has the term, and holds its count and the document's length. */
  lemma MirrorsAt(postings: map<Bytes, Bytes>, docs: Docs, t: Bytes, pk: Bytes)
    requires Mirrors(postings, docs) && |t| <= FTS_MAX_TERM_BYTES
    ensures PostingKey(t, pk) in postings <==> pk in docs && t in docs[pk]
    ensures pk in docs && t in docs[pk] ==> postings[PostingKey(t, pk)] == Stored(docs[pk], t)
  {
    KeyParts(t, pk);
    assert Look(postings, PostingKey(t, pk)) == Wants(docs, PostingKey(t, pk));
  }

  // ----- A document half way through a change -----

  // The keys of document `pk` once the terms of `gone` are deleted and those of `put`
  // written for the tokens `ts`; every other key as in `base`.
  ghost function Stage(base: map<Bytes, Bytes>, pk: Bytes, ts: Tokens, gone: set<Bytes>, put: set<Bytes>, k: Bytes): Option<Bytes> {
    if !IsKey(k) || PkOf(k) != pk then Look(base, k)
    else if TermOf(k) in put then Some(Stored(ts, TermOf(k)))
    else if TermOf(k) in gone then None
    else Look(base, k)
  }

  ghost predicate Staged(postings: map<Bytes, Bytes>, base: map<Bytes, Bytes>, pk: Bytes, ts: Tokens, gone: set<Bytes>, put: set<Bytes>) {
    forall k :: Look(postings, k) == Stage(base, pk, ts, gone, put, k)
  }

  lemma SameKey(k: Bytes, t: Bytes, pk: Bytes)
    requires |t| <= FTS_MAX_TERM_BYTES
    ensures k == PostingKey(t, pk) <==> IsKey(k) && TermOf(k) == t && PkOf(k) == pk
  {
    KeyParts(t, pk);
    if IsKey(k) { KeyBack(k); }
  }

  lemma StagePut(postings: map<Bytes, Bytes>, base: map<Bytes, Bytes>, pk: Bytes, ts: Tokens, gone: set<Bytes>, put: set<Bytes>, t: Bytes)
    requires |t| <= FTS_MAX_TERM_BYTES && Staged(postings, base, pk, ts, gone, put)
    ensures Staged(postings[PostingKey(t, pk) := Stored(ts, t)], base, pk, ts, gone, put + {t})
  {
    var m := postings[PostingKey(t, pk) := Stored(ts, t)];
    forall k ensures Look(m, k) == Stage(base, pk, ts, gone, put + {t}, k) {
      SameKey(k, t, pk);
      assert Look(postings, k) == Stage(base, pk, ts, gone, put, k);
    }
  }

  lemma StageGone(postings: map<Bytes, Bytes>, base: map<Bytes, Bytes>, pk: Bytes, ts: Tokens, gone: set<Bytes>, t: Bytes)
    requires |t| <= FTS_MAX_TERM_BYTES && Staged(postings, base, pk, ts, gone, {})
    ensures Staged(postings - {PostingKey(t, pk)}, base, pk, ts, gone + {t}, {})
  {
    var m := postings - {PostingKey(t, pk)};
    forall k ensures Look(m, k) == Stage(base, pk, ts, gone + {t}, {}, k) {
      SameKey(k, t, pk);
      assert Look(postings, k) == Stage(base, pk, ts, gone, {}, k);
    }
  }

  // ----- Totals -----

  ghost function Words(docs: Docs): (n: nat)
    decreases |docs|
  {
    if docs == map[] then 0
    else
      var pk :| pk in docs;
      WordCount(docs[pk]) + Words(docs - {pk})
  }

  lemma {:induction false} WordsWithout(docs: Docs, pk: Bytes)
    requires pk in docs
    ensures Words(docs) == WordCount(docs[pk]) + Words(docs - {pk})
    decreases |docs|
  {
    var q :| q in docs && Words(docs) == WordCount(docs[q]) + Words(docs - {q});
    if q != pk {
      WordsWithout(docs - {q}, pk);
      WordsWithout(docs - {pk}, q);
      assert docs - {q} - {pk} == docs - {pk} - {q};
    }
  }

  lemma WordsWith(docs: Docs, pk: Bytes, ts: Tokens)
    requires pk !in docs
    ensures Words(docs[pk := ts]) == Words(docs) + WordCount(ts) && |docs[pk := ts]| == |docs| + 1
  {
    WordsWithout(docs[pk := ts], pk);
    assert docs[pk := ts] - {pk} == docs;
  }

  lemma WordsChanged(docs: Docs, pk: Bytes, ts: Tokens)
    requires pk in docs
    ensures Words(docs[pk := ts]) == Words(docs) - WordCount(docs[pk]) + WordCount(ts) && |docs[pk := ts]| == |docs|
  {
    WordsWithout(docs, pk);
    WordsWithout(docs[pk := ts], pk);
    assert docs[pk := ts] - {pk} == docs - {pk};
    assert docs[pk := ts].Keys == docs.Keys;
  }

  lemma WordsGone(docs: Docs, pk: Bytes)
    requires pk in docs
    ensures Words(docs - {pk}) == Words(docs) - WordCount(docs[pk]) && |docs - {pk}| == |docs| - 1
  {
    WordsWithout(docs, pk);
    assert (docs - {pk})[pk := docs[pk]] == docs;
  }

  // ----- Statements -----

  // The documents, the stored counters, and what a bulk insert has collected for them.
  datatype Meta = Meta(docs: Docs, totalDocs: int, totalWords: int, bulk: bool, docDelta: int, wordDelta: int)

  // An insert with its checks skipped can be over a document, and a change of primary
  // key can be onto one.
  datatype Op =
    | Added(pk: Bytes, ts: Tokens)
    | Deleted(pk: Bytes)
    | Updated(pk: Bytes, ts: Tokens)
    | Moved(pk: Bytes, newPk: Bytes, ts: Tokens)
    | BulkStarted
    | BulkEnded

  predicate Possible(m: Meta, op: Op) {
    match op
    case Added(pk, ts) => TokensFit(ts)
    case Deleted(pk) => pk in m.docs
    case Updated(pk, ts) => pk in m.docs && TokensFit(ts)
    case Moved(pk, newPk, ts) => pk in m.docs && newPk != pk && TokensFit(ts)
    case BulkStarted => !m.bulk
    case BulkEnded => true
  }

  function AtLeastZero(n: int): int { if n < 0 then 0 else n }

  function Adjust(m: Meta, docsBy: int, wordsBy: int): Meta {
    m.(totalDocs := AtLeastZero(m.totalDocs + docsBy), totalWords := AtLeastZero(m.totalWords + wordsBy))
  }

  function Do(m: Meta, op: Op): Meta
    requires Possible(m, op)
  {
    match op
    case Added(pk, ts) =>
      var m1 := m.(docs := m.docs[pk := ts]);
      if m.bulk then m1.(docDelta := m.docDelta + 1, wordDelta := m.wordDelta + WordCount(ts)) else Adjust(m1, 1, WordCount(ts))
    case Deleted(pk) => Adjust(m.(docs := m.docs - {pk}), -1, 0 - WordCount(m.docs[pk]))
    case Updated(pk, ts) => Adjust(m.(docs := m.docs[pk := ts]), 0, WordCount(ts) - WordCount(m.docs[pk]))
    case Moved(pk, newPk, ts) => Adjust(m.(docs := (m.docs - {pk})[newPk := ts]), 0, WordCount(ts) - WordCount(m.docs[pk]))
    case BulkStarted => m.(bulk := true, docDelta := 0, wordDelta := 0)
    case BulkEnded => Adjust(m, m.docDelta, m.wordDelta).(bulk := false, docDelta := 0, wordDelta := 0)
  }

  // A document is written over another one, which nobody takes out first.
  predicate Overwrites(m: Meta, op: Op) {
    (op.Added? && op.pk in m.docs) || (op.Moved? && op.newPk in m.docs)
  }

  // ----- Postings over any sequence of statements -----

  function Terms(ts: Tokens): set<Bytes> { set t | t in ts }

  predicate SamePosting(was: Tokens, ts: Tokens, t: Bytes) {
    t in was && TermCount(was, t) == TermCount(ts, t) && WordCount(was) == WordCount(ts)
  }

  // The terms an update writes: all but those whose posting would be the same.
  function Rewritten(was: Tokens, ts: Tokens): set<Bytes> { set t | t in ts && !SamePosting(was, ts, t) }

  // What a key holds after a statement.
  ghost function PostAt(docs: Docs, base: map<Bytes, Bytes>, op: Op, k: Bytes): Option<Bytes>
    requires op.Deleted? || op.Updated? || op.Moved? ==> op.pk in docs
  {
    match op
    case Added(pk, ts) => Stage(base, pk, ts, {}, Terms(ts), k)
    case Deleted(pk) => Stage(base, pk, [], Terms(docs[pk]), {}, k)
    case Updated(pk, ts) => Stage(base, pk, ts, Terms(docs[pk]) - Terms(ts), Rewritten(docs[pk], ts), k)
    case Moved(pk, newPk, ts) =>
      if IsKey(k) && PkOf(k) == newPk then Stage(base, newPk, ts, {}, Terms(ts), k) else Stage(base, pk, [], Terms(docs[pk]), {}, k)
    case BulkStarted => Look(base, k)
    case BulkEnded => Look(base, k)
  }

  ghost function NewKeys(op: Op): set<Bytes>
    requires op.Added? || op.Updated? || op.Moved? ==> TokensFit(op.ts)
  {
    if op.Added? || op.Updated? || op.Moved? then
      var pk := if op.Moved? then op.newPk else op.pk;
      set t | t in op.ts && |t| <= FTS_MAX_TERM_BYTES :: PostingKey(t, pk)
    else {}
  }

  ghost function Posted(m: Meta, base: map<Bytes, Bytes>, op: Op): map<Bytes, Bytes>
    requires Possible(m, op)
  {
    map k | k in base.Keys + NewKeys(op) && PostAt(m.docs, base, op, k).Some? :: PostAt(m.docs, base, op, k).value
  }

  lemma PostedAt(m: Meta, base: map<Bytes, Bytes>, op: Op, k: Bytes)
    requires Possible(m, op)
    ensures Look(Posted(m, base, op), k) == PostAt(m.docs, base, op, k)
  {
    if PostAt(m.docs, base, op, k).Some? && k !in base {
      KeyBack(k);
      assert TermOf(k) in op.ts;
      assert k in NewKeys(op);
    }
  }

  lemma SameLooks(a: map<Bytes, Bytes>, b: map<Bytes, Bytes>)
    requires forall k :: Look(a, k) == Look(b, k)
    ensures a == b
  {
    assert forall k :: k in a <==> Look(a, k).Some?;
    assert forall k :: k in b <==> Look(b, k).Some?;
  }

  // A map that holds what the statement leaves is what the statement leaves.
  lemma PostedIs(m: Meta, base: map<Bytes, Bytes>, op: Op, after: map<Bytes, Bytes>)
    requires Possible(m, op) && forall k :: Look(after, k) == PostAt(m.docs, base, op, k)
    ensures after == Posted(m, base, op)
  {
    forall k ensures Look(after, k) == Look(Posted(m, base, op), k) { PostedAt(m, base, op, k); }
    SameLooks(after, Posted(m, base, op));
  }

  // Every term of the document written over is one of the new document's.
  predicate NoStaleTerms(m: Meta, op: Op) {
    && (op.Added? && op.pk in m.docs ==> forall t :: t in m.docs[op.pk] ==> t in op.ts)
    && (op.Moved? && op.newPk in m.docs ==> forall t :: t in m.docs[op.newPk] ==> t in op.ts)
  }

  // The document a statement writes over is the one whose keys can go wrong.
  lemma PostedWants(m: Meta, base: map<Bytes, Bytes>, op: Op, k: Bytes)
    requires Possible(m, op) && Mirrors(base, m.docs) && NoStaleTerms(m, op)
    ensures Look(Posted(m, base, op), k) == Wants(Do(m, op).docs, k)
  {
    PostedAt(m, base, op, k);
    assert Look(base, k) == Wants(m.docs, k);
  }

  lemma StaleStays(m: Meta, base: map<Bytes, Bytes>, op: Op, pk: Bytes, t: Bytes)
    requires Possible(m, op) && Mirrors(base, m.docs) && DocsFit(m.docs)
    requires (op.Added? && pk == op.pk) || (op.Moved? && pk == op.newPk)
    requires pk in m.docs && t in m.docs[pk] && t !in op.ts
    ensures !Mirrors(Posted(m, base, op), Do(m, op).docs)
  {
    var i :| 0 <= i < |m.docs[pk]| && m.docs[pk][i] == t;
    assert TokensFit(m.docs[pk]);
    var k := PostingKey(t, pk);
    KeyParts(t, pk);
    PostedAt(m, base, op, k);
    assert Look(base, k) == Wants(m.docs, k);
    assert Look(Posted(m, base, op), k) != Wants(Do(m, op).docs, k);
  }

  /** From postings that are the image of the documents, a statement leaves them so if and
      only if it leaves no term of a document it writes over. */
  lemma OpMirrors(m: Meta, base: map<Bytes, Bytes>, op: Op)
    requires Possible(m, op) && Mirrors(base, m.docs) && DocsFit(m.docs)
    ensures Mirrors(Posted(m, base, op), Do(m, op).docs) <==> NoStaleTerms(m, op)
  {
    if NoStaleTerms(m, op) {
      forall k ensures Look(Posted(m, base, op), k) == Wants(Do(m, op).docs, k) { PostedWants(m, base, op, k); }
    } else if op.Added? {
      var t :| t in m.docs[op.pk] && t !in op.ts;
      StaleStays(m, base, op, op.pk, t);
    } else {
      var t :| t in m.docs[op.newPk] && t !in op.ts;
      StaleStays(m, base, op, op.newPk, t);
    }
  }

  lemma DoFits(m: Meta, op: Op)
    requires Possible(m, op) && DocsFit(m.docs)
    ensures DocsFit(Do(m, op).docs)
  {
    forall pk | pk in Do(m, op).docs ensures TokensFit(Do(m, op).docs[pk]) {}
  }

  predicate Legal(m: Meta, ops: seq<Op>)
    decreases |ops|
  {
    ops == [] || (Possible(m, ops[0]) && Legal(Do(m, ops[0]), ops[1..]))
  }

  ghost predicate MirrorsThroughout(m: Meta, base: map<Bytes, Bytes>, ops: seq<Op>)
    requires Legal(m, ops)
    decreases |ops|
  {
    Mirrors(base, m.docs) && (ops == [] || MirrorsThroughout(Do(m, ops[0]), Posted(m, base, ops[0]), ops[1..]))
  }

  predicate NeverStale(m: Meta, ops: seq<Op>)
    requires Legal(m, ops)
    decreases |ops|
  {
    ops == [] || (NoStaleTerms(m, ops[0]) && NeverStale(Do(m, ops[0]), ops[1..]))
  }

  /** Over any run of statements the postings are the image of the documents throughout,
      if and only if no statement leaves a term of a document it writes over. */
  lemma {:induction false} RunMirrors(m: Meta, base: map<Bytes, Bytes>, ops: seq<Op>)
    requires Legal(m, ops) && DocsFit(m.docs) && Mirrors(base, m.docs)
    ensures MirrorsThroughout(m, base, ops) <==> NeverStale(m, ops)
    decreases |ops|
  {
    if ops != [] {
      OpMirrors(m, base, ops[0]);
      DoFits(m, ops[0]);
      if NoStaleTerms(m, ops[0]) { RunMirrors(Do(m, ops[0]), Posted(m, base, ops[0]), ops[1..]); }
    }
  }

  // ----- The counters over any sequence of statements -----

  // The clamp at zero: what is stored does not cover what is taken away.
  predicate Clamps(m: Meta, op: Op)
    requires Possible(m, op)
  {
    match op
    case Deleted(pk) => m.totalDocs < 1 || m.totalWords < WordCount(m.docs[pk])
    case Updated(pk, ts) => m.totalWords + WordCount(ts) < WordCount(m.docs[pk])
    case Moved(pk, newPk, ts) => m.totalWords + WordCount(ts) < WordCount(m.docs[pk])
    case _ => false
  }

  predicate MetaOk(m: Meta) {
    && m.totalDocs >= 0 && m.totalWords >= 0 && m.docDelta >= 0 && m.wordDelta >= 0
    && (!m.bulk ==> m.docDelta == 0 && m.wordDelta == 0)
  }

  ghost function SpareDocs(m: Meta): int { m.totalDocs + m.docDelta - |m.docs| }

  ghost function SpareWords(m: Meta): int { m.totalWords + m.wordDelta - Words(m.docs) }

  // The counters, with what a bulk insert still owes them, are the true totals.
  ghost predicate Counted(m: Meta) { SpareDocs(m) == 0 && SpareWords(m) == 0 }

  lemma MovedWords(docs: Docs, pk: Bytes, newPk: Bytes, ts: Tokens)
    requires pk in docs && newPk != pk
    ensures var docs' := (docs - {pk})[newPk := ts];
            && |docs'| == (if newPk in docs then |docs| - 1 else |docs|)
            && Words(docs') == Words(docs) - WordCount(docs[pk]) + WordCount(ts) - (if newPk in docs then WordCount(docs[newPk]) else 0)
  {
    WordsGone(docs, pk);
    if newPk in docs { WordsChanged(docs - {pk}, newPk, ts); } else { WordsWith(docs - {pk}, newPk, ts); }
  }

  /** What the counters have in excess never shrinks, and grows exactly when a clamp fires
      or a document is written over another. */
  lemma OpSpare(m: Meta, op: Op)
    requires MetaOk(m) && Possible(m, op)
    ensures MetaOk(Do(m, op)) && SpareDocs(Do(m, op)) >= SpareDocs(m) && SpareWords(Do(m, op)) >= SpareWords(m)
    ensures SpareDocs(Do(m, op)) == SpareDocs(m) && SpareWords(Do(m, op)) == SpareWords(m) <==> !Clamps(m, op) && !Overwrites(m, op)
  {
    match op
    case Added(pk, ts) => if pk in m.docs { WordsChanged(m.docs, pk, ts); } else { WordsWith(m.docs, pk, ts); }
    case Deleted(pk) => WordsGone(m.docs, pk);
    case Updated(pk, ts) => WordsChanged(m.docs, pk, ts);
    case Moved(pk, newPk, ts) => MovedWords(m.docs, pk, newPk, ts);
    case BulkStarted =>
    case BulkEnded =>
  }

  function Final(m: Meta, ops: seq<Op>): Meta
    requires Legal(m, ops)
    decreases |ops|
  {
    if ops == [] then m else Final(Do(m, ops[0]), ops[1..])
  }

  predicate NeverDrifts(m: Meta, ops: seq<Op>)
    requires Legal(m, ops)
    decreases |ops|
  {
    ops == [] || (!Clamps(m, ops[0]) && !Overwrites(m, ops[0]) && NeverDrifts(Do(m, ops[0]), ops[1..]))
  }

  lemma {:induction false} RunSpare(m: Meta, ops: seq<Op>)
    requires MetaOk(m) && Legal(m, ops)
    ensures SpareDocs(Final(m, ops)) >= SpareDocs(m) && SpareWords(Final(m, ops)) >= SpareWords(m)
    ensures SpareDocs(Final(m, ops)) == SpareDocs(m) && SpareWords(Final(m, ops)) == SpareWords(m) <==> NeverDrifts(m, ops)
    decreases |ops|
  {
    if ops != [] {
      OpSpare(m, ops[0]);
      RunSpare(Do(m, ops[0]), ops[1..]);
    }
  }

  const EMPTY := Meta(map[], 0, 0, false, 0, 0)

  /** After any run of statements from the empty index, bulk inserts included, the
      counters are the true totals if and only if no clamp ever fired and no document was
      ever written over another. */
  lemma RunCounted(ops: seq<Op>)
    requires Legal(EMPTY, ops)
    ensures Counted(Final(EMPTY, ops)) <==> NeverDrifts(EMPTY, ops)
  {
    RunSpare(EMPTY, ops);
  }

  lemma RunCons(m: Meta, op: Op, ops: seq<Op>)
    requires Possible(m, op) && Legal(Do(m, op), ops)
    ensures Legal(m, [op] + ops) && Final(m, [op] + ops) == Final(Do(m, op), ops)
  {
    assert ([op] + ops)[1..] == ops;
  }

  /** A bulk insert that deletes a row it added (as REPLACE does on a repeated key)
      leaves the counters wrong: the delete is clamped against stored counters that the
      insert has not reached yet. */
  lemma BulkReplaceMiscounts(pk: Bytes, word: Bytes, again: seq<Op>, ops: seq<Op>)
    requires |word| <= FTS_MAX_TERM_BYTES && again == [Deleted(pk)] + ([Added(pk, [word])] + [BulkEnded])
    requires ops == [BulkStarted] + ([Added(pk, [word])] + again)
    ensures Legal(EMPTY, ops) && !Counted(Final(EMPTY, ops))
    ensures Final(EMPTY, ops) == Meta(map[pk := [word]], 2, 2, false, 0, 0)
  {
    var d := map[pk := [word]];
    var m1, m2 := Meta(map[], 0, 0, true, 0, 0), Meta(d, 0, 0, true, 1, 1);
    var m3, m4, m5 := Meta(map[], 0, 0, true, 1, 1), Meta(d, 0, 0, true, 2, 2), Meta(d, 2, 2, false, 0, 0);
    assert m2 == Do(m1, Added(pk, [word])) && m3 == Do(m2, Deleted(pk)) && m4 == Do(m3, Added(pk, [word]));
    assert [BulkEnded] + [] == [BulkEnded];
    RunCons(m4, BulkEnded, []);
    RunCons(m3, Added(pk, [word]), [BulkEnded]);
    RunCons(m2, Deleted(pk), [Added(pk, [word])] + [BulkEnded]);
    RunCons(m1, Added(pk, [word]), again);
    RunCons(EMPTY, BulkStarted, [Added(pk, [word])] + again);
    assert |d| == 1;
  }

  /** An insert over a document, its checks skipped: the old word's posting stays and two
      documents are counted for one. */
  lemma OverwriteGoesWrong(pk: Bytes, a: Bytes, b: Bytes, m: Meta, base: map<Bytes, Bytes>)
    requires |a| <= FTS_MAX_TERM_BYTES && |b| <= FTS_MAX_TERM_BYTES && a != b
    requires m == Meta(map[pk := [a]], 1, 1, false, 0, 0) && Mirrors(base, m.docs)
    ensures Possible(m, Added(pk, [b])) && Do(m, Added(pk, [b])) == Meta(map[pk := [b]], 2, 2, false, 0, 0)
    ensures !Mirrors(Posted(m, base, Added(pk, [b])), map[pk := [b]])
  {
    assert m.docs[pk := [b]] == map[pk := [b]];
    assert a in m.docs[pk] && a !in [b];
    StaleStays(m, base, Added(pk, [b]), pk, a);
  }

  // Every delete and every change of a document happens outside a bulk insert.
  predicate OutsideBulk(m: Meta, ops: seq<Op>)
    requires Legal(m, ops)
    decreases |ops|
  {
    ops == [] ||
    ((m.bulk ==> !(ops[0].Deleted? || ops[0].Updated? || ops[0].Moved?)) && OutsideBulk(Do(m, ops[0]), ops[1..]))
  }

  predicate NeverClamps(m: Meta, ops: seq<Op>)
    requires Legal(m, ops)
    decreases |ops|
  {
    ops == [] || (!Clamps(m, ops[0]) && NeverClamps(Do(m, ops[0]), ops[1..]))
  }

  /** Only a delete or a change inside a bulk insert can make a clamp fire. */
  lemma {:induction false} OutsideBulkNeverClamps(m: Meta, ops: seq<Op>)
    requires MetaOk(m) && SpareDocs(m) >= 0 && SpareWords(m) >= 0 && Legal(m, ops) && OutsideBulk(m, ops)
    ensures NeverClamps(m, ops)
    decreases |ops|
  {
    if ops != [] {
      if !m.bulk && (ops[0].Deleted? || ops[0].Updated? || ops[0].Moved?) { WordsGone(m.docs, ops[0].pk); }
      OpSpare(m, ops[0]);
      OutsideBulkNeverClamps(Do(m, ops[0]), ops[1..]);
    }
  }

  // ----- The index as the plugin keeps it -----

  method CountTerms(ts: Tokens) returns (tf: map<Bytes, nat>)
    ensures forall t :: t in tf <==> t in ts
    ensures forall t :: t in tf ==> tf[t] == TermCount(ts, t) == multiset(ts)[t] % U16
  {
    tf := map[];
    for i := 0 to |ts|
      invariant forall t :: t in tf <==> t in ts[..i]
      invariant forall t :: t in tf ==> tf[t] == TermCount(ts[..i], t)
    {
      assert ts[..i + 1][..i] == ts[..i];
      assert ts[i] !in ts[..i] ==> Count(ts[..i], ts[i]) == 0;
      var was := if ts[i] in tf then tf[ts[i]] else 0;
      tf := tf[ts[i] := (was + 1) % U16];
    }
    assert ts[..|ts|] == ts;
    forall t | t in tf ensures TermCount(ts, t) == multiset(ts)[t] % U16 { CountIs(ts, t); }
  }

  // The terms whose posting is not there already.
  function Needed(terms: map<Bytes, nat>, had: map<Bytes, nat>, sameLength: bool): set<Bytes> {
    set t | t in terms && !(t in had && sameLength && had[t] == terms[t])
  }

  class FullTextIndex {
    var postings: map<Bytes, Bytes>
    var totalDocs: int
    var totalWords: int
    // A bulk insert collects its counter changes and writes them when it ends.
    var bulk: bool
    var docDelta: int
    var wordDelta: int
    ghost var docs: Docs

    ghost function View(): Meta
      reads this
    {
      Meta(docs, totalDocs, totalWords, bulk, docDelta, wordDelta)
    }

    ghost predicate Valid()
      reads this
    {
      DocsFit(docs) && MetaOk(View())
    }

    // The statement theorem for this index as it is.
    lemma Exactly(op: Op)
      requires Valid() && Possible(View(), op)
      ensures DocsFit(Do(View(), op).docs) && MetaOk(Do(View(), op))
      ensures Mirrors(postings, docs) ==> (Mirrors(Posted(View(), postings, op), Do(View(), op).docs) <==> NoStaleTerms(View(), op))
    {
      DoFits(View(), op);
      OpSpare(View(), op);
      if Mirrors(postings, docs) { OpMirrors(View(), postings, op); }
    }

    constructor ()
      ensures Valid() && View() == EMPTY && Mirrors(postings, docs)
    {
      postings, totalDocs, totalWords := map[], 0, 0;
      bulk, docDelta, wordDelta := false, 0, 0;
      docs := map[];
    }

    // fts_update_meta: read, add, clamp at zero, write.
    method UpdateMeta(docsBy: int, wordsBy: int)
      modifies `totalDocs, `totalWords
      ensures totalDocs == AtLeastZero(old(totalDocs) + docsBy)
      ensures totalWords == AtLeastZero(old(totalWords) + wordsBy)
    {
      totalDocs, totalWords := totalDocs + docsBy, totalWords + wordsBy;
      if totalDocs < 0 { totalDocs := 0; }
      if totalWords < 0 { totalWords := 0; }
    }

    // Deletes the postings of `terms` but for those in `kept`.
    method DropTerms(pk: Bytes, terms: map<Bytes, nat>, kept: set<Bytes>, ghost ts: Tokens)
      requires forall t :: t in terms ==> |t| <= FTS_MAX_TERM_BYTES
      modifies `postings
      ensures Staged(postings, old(postings), pk, ts, terms.Keys - kept, {})
    {
      var todo := terms.Keys;
      ghost var gone: set<Bytes> := {};
      while todo != {}
        invariant todo <= terms.Keys && gone == (terms.Keys - todo) - kept
        invariant Staged(postings, old(postings), pk, ts, gone, {})
        decreases |todo|
      {
        var t :| t in todo;
        todo := todo - {t};
        if t !in kept {
          StageGone(postings, old(postings), pk, ts, gone, t);
          postings := postings - {PostingKey(t, pk)};
          gone := gone + {t};
        }
      }
      assert gone == terms.Keys - kept;
    }

    // Writes the postings of `terms` but for those the old document already has right.
    method PutTerms(pk: Bytes, terms: map<Bytes, nat>, words: nat, had: map<Bytes, nat>, sameLength: bool,
                    ghost base: map<Bytes, Bytes>, ghost ts: Tokens, ghost gone: set<Bytes>)
      requires Staged(postings, base, pk, ts, gone, {}) && words == WordCount(ts)
      requires forall t :: t in terms ==> |t| <= FTS_MAX_TERM_BYTES && terms[t] == TermCount(ts, t)
      modifies `postings
      ensures Staged(postings, base, pk, ts, gone, Needed(terms, had, sameLength))
    {
      var todo := terms.Keys;
      ghost var all := Needed(terms, had, sameLength);
      ghost var put: set<Bytes> := {};
      while todo != {}
        invariant todo <= terms.Keys && put == all - todo
        invariant Staged(postings, base, pk, ts, gone, put)
        decreases |todo|
      {
        var t :| t in todo;
        todo := todo - {t};
        if !(t in had && sameLength && had[t] == terms[t]) {
          PutTerm(pk, t, terms[t], words, base, ts, gone, put);
          put := put + {t};
        }
      }
      assert put == all;
    }

    method PutTerm(pk: Bytes, t: Bytes, tf: nat, words: nat, ghost base: map<Bytes, Bytes>, ghost ts: Tokens,
                   ghost gone: set<Bytes>, ghost put: set<Bytes>)
      requires |t| <= FTS_MAX_TERM_BYTES && tf == TermCount(ts, t) && words == WordCount(ts)
      requires Staged(postings, base, pk, ts, gone, put)
      modifies `postings
      ensures Staged(postings, base, pk, ts, gone, put + {t})
    {
      StagePut(postings, base, pk, ts, gone, put, t);
      postings := postings[PostingKey(t, pk) := Value(tf, words)];
    }

    method AddPostings(pk: Bytes, ts: Tokens) returns (words: int)
      requires TokensFit(ts)
      modifies `postings
      ensures words == WordCount(ts) && Staged(postings, old(postings), pk, ts, {}, Terms(ts))
    {
      var tf := CountTerms(ts);
      words := |ts| % U32;
      PutTerms(pk, tf, words, map[], false, postings, ts, {});
      assert Needed(tf, map[], false) == Terms(ts);
    }

    method RemovePostings(pk: Bytes, ts: Tokens) returns (words: int)
      requires TokensFit(ts)
      modifies `postings
      ensures words == WordCount(ts) && Staged(postings, old(postings), pk, [], Terms(ts), {})
    {
      var tf := CountTerms(ts);
      words := |ts| % U32;
      DropTerms(pk, tf, {}, []);
      assert tf.Keys - {} == Terms(ts);
    }

    method DiffPostings(pk: Bytes, was: Tokens, ts: Tokens) returns (wordsBy: int)
      requires TokensFit(was) && TokensFit(ts)
      modifies `postings
      ensures wordsBy == WordCount(ts) - WordCount(was)
      ensures Staged(postings, old(postings), pk, ts, Terms(was) - Terms(ts), Rewritten(was, ts))
    {
      var oldTf := CountTerms(was);
      var newTf := CountTerms(ts);
      var oldWords: int, newWords: int := |was| % U32, |ts| % U32;
      DropTerms(pk, oldTf, newTf.Keys, ts);
      assert oldTf.Keys - newTf.Keys == Terms(was) - Terms(ts);
      PutTerms(pk, newTf, newWords, oldTf, oldWords == newWords, old(postings), ts, Terms(was) - Terms(ts));
      assert Needed(newTf, oldTf, oldWords == newWords) == Rewritten(was, ts);
      wordsBy := newWords - oldWords;
    }

    // Postings stay the image of the documents unless a document is written over.
    method Insert(pk: Bytes, ts: Tokens)
      requires Valid() && TokensFit(ts)
      modifies this
      ensures Valid() && View() == Do(old(View()), Added(pk, ts)) && postings == Posted(old(View()), old(postings), Added(pk, ts))
      ensures old(Mirrors(postings, docs)) ==> (Mirrors(postings, docs) <==> NoStaleTerms(old(View()), Added(pk, ts)))
    {
      Exactly(Added(pk, ts));
      var words := AddPostings(pk, ts);
      PostedIs(old(View()), old(postings), Added(pk, ts), postings);
      if bulk {
        docDelta, wordDelta := docDelta + 1, wordDelta + words;
      } else {
        UpdateMeta(1, words);
      }
      docs := docs[pk := ts];
    }

    method Delete(pk: Bytes, ts: Tokens)
      requires Valid() && pk in docs && docs[pk] == ts
      modifies this
      ensures Valid() && View() == Do(old(View()), Deleted(pk)) && postings == Posted(old(View()), old(postings), Deleted(pk))
      ensures old(Mirrors(postings, docs)) ==> Mirrors(postings, docs)
    {
      Exactly(Deleted(pk));
      var words := RemovePostings(pk, ts);
      PostedIs(old(View()), old(postings), Deleted(pk), postings);
      UpdateMeta(-1, -words);
      docs := docs - {pk};
    }

    // The primary key is stable: only the difference is written.
    method Update(pk: Bytes, was: Tokens, ts: Tokens, marked: bool)
      requires Valid() && pk in docs && docs[pk] == was && TokensFit(ts) && (!marked ==> ts == was)
      modifies this
      ensures Valid() && View() == Do(old(View()), Updated(pk, ts)) && postings == Posted(old(View()), old(postings), Updated(pk, ts))
      ensures old(Mirrors(postings, docs)) ==> Mirrors(postings, docs)
    {
      Exactly(Updated(pk, ts));
      if !marked {
        assert docs[pk := ts] == docs;
        NothingRewritten(ts);
        PostedIs(View(), postings, Updated(pk, ts), postings);
        return;
      }
      var wordsBy := DiffPostings(pk, was, ts);
      PostedIs(old(View()), old(postings), Updated(pk, ts), postings);
      if wordsBy != 0 { UpdateMeta(0, wordsBy); }
      docs := docs[pk := ts];
    }

    method MovePostings(pk: Bytes, was: Tokens, newPk: Bytes, ts: Tokens) returns (wordsBy: int)
      requires TokensFit(was) && pk in docs && docs[pk] == was && newPk != pk && TokensFit(ts)
      modifies `postings
      ensures wordsBy == WordCount(ts) - WordCount(was) && postings == Posted(View(), old(postings), Moved(pk, newPk, ts))
    {
      var oldWords := RemovePostings(pk, was);
      ghost var mid := postings;
      var newWords := AddPostings(newPk, ts);
      MovedPosts(View(), old(postings), mid, postings, pk, newPk, ts);
      wordsBy := newWords - oldWords;
    }

    // The primary key changed together with the text: every posting moves.
    method Move(pk: Bytes, was: Tokens, newPk: Bytes, ts: Tokens)
      requires Valid() && pk in docs && docs[pk] == was && newPk != pk && TokensFit(ts)
      modifies this
      ensures Valid() && View() == Do(old(View()), Moved(pk, newPk, ts)) && postings == Posted(old(View()), old(postings), Moved(pk, newPk, ts))
      ensures old(Mirrors(postings, docs)) ==> (Mirrors(postings, docs) <==> NoStaleTerms(old(View()), Moved(pk, newPk, ts)))
    {
      Exactly(Moved(pk, newPk, ts));
      var wordsBy := MovePostings(pk, was, newPk, ts);
      if wordsBy != 0 { UpdateMeta(0, wordsBy); }
      docs := (docs - {pk})[newPk := ts];
    }

    method StartBulk()
      requires Valid() && !bulk
      modifies `bulk, `docDelta, `wordDelta
      ensures Valid() && View() == Do(old(View()), BulkStarted)
    {
      bulk, docDelta, wordDelta := true, 0, 0;
    }

    method EndBulk()
      requires Valid()
      modifies this
      ensures Valid() && View() == Do(old(View()), BulkEnded) && postings == old(postings)
    {
      bulk := false;
      if docDelta != 0 || wordDelta != 0 {
        UpdateMeta(docDelta, wordDelta);
        docDelta, wordDelta := 0, 0;
      }
    }
  }

  lemma NothingRewritten(ts: Tokens)
    ensures Rewritten(ts, ts) == {} && Terms(ts) - Terms(ts) == {}
  {
  }

  lemma MovedPosts(m: Meta, base: map<Bytes, Bytes>, mid: map<Bytes, Bytes>, after: map<Bytes, Bytes>, pk: Bytes, newPk: Bytes, ts: Tokens)
    requires Possible(m, Moved(pk, newPk, ts))
    requires Staged(mid, base, pk, [], Terms(m.docs[pk]), {}) && Staged(after, mid, newPk, ts, {}, Terms(ts))
    ensures after == Posted(m, base, Moved(pk, newPk, ts))
  {
    forall k ensures Look(after, k) == PostAt(m.docs, base, Moved(pk, newPk, ts), k) {
      assert Look(mid, k) == Stage(base, pk, [], Terms(m.docs[pk]), {}, k);
      assert Look(after, k) == Stage(mid, newPk, ts, {}, Terms(ts), k);
    }
    PostedIs(m, base, Moved(pk, newPk, ts), after);
  }
}
