/** Prefix seeks over byte-ordered keys: the duplicate check and the full-text term and
    wildcard scans. */
module PrefixSeek {
  import opened ByteOrder

  const FTS_MAX_TERM_BYTES := 512
  const FTS_VALUE_LEN := 6
  const PREFIX_BUFFER := 2 + FTS_MAX_TERM_BYTES

  // ----- Keys with a prefix are one run that starts at the seek -----

  lemma PrefixFrom(ks: seq<Bytes>, p: Bytes, i: nat)
    requires SortedKeys(ks) && i < |ks| && HasPrefix(ks[i], p)
    ensures i >= Seek(ks, p)
  {
    PrefixNotLess(ks[i], p);
    SeekSplits(ks, p, i);
  }

  lemma PrefixRun(ks: seq<Bytes>, p: Bytes, i: nat, j: nat)
    requires SortedKeys(ks) && Seek(ks, p) <= i <= j < |ks| && HasPrefix(ks[j], p)
    ensures HasPrefix(ks[i], p)
  {
    SeekSplits(ks, p, i);
    if i < j {
      Ordered(ks, |ks|, i, j);
      PrefixContiguous(p, ks[i], ks[j]);
    }
  }

  /** The UNIQUE check of an insert: one seek and one comparison decide whether any
      key of the index starts with the new row's index bytes. */
  method FindDuplicate(ks: seq<Bytes>, prefix: Bytes) returns (dup: Option<Bytes>)
    requires SortedKeys(ks)
    ensures dup.None? <==> forall i :: 0 <= i < |ks| ==> !HasPrefix(ks[i], prefix)
    ensures dup.Some? ==> prefix + dup.value in ks
  {
    var i := Seek(ks, prefix);
    forall j | 0 <= j < |ks| && HasPrefix(ks[j], prefix) ensures i < |ks| && HasPrefix(ks[i], prefix) {
      PrefixFrom(ks, prefix, j);
      PrefixRun(ks, prefix, i, j);
    }
    if i < |ks| && |ks[i]| >= |prefix| && ks[i][..|prefix|] == prefix {
      dup := Some(ks[i][|prefix|..]);
      assert prefix + dup.value == ks[i];
    } else {
      dup := None;
    }
  }

  // ----- Full-text scans -----

  // One entry of a full-text column family: the pair its key was built from and the
  // stored value.
  datatype Entry = Entry(term: Bytes, pk: Bytes, value: Bytes)

  // What a scan hands to the scorer; Tf and DocLen read the stored value.
  datatype Posting = Posting(pk: Bytes, value: Bytes)

  function Len2(n: nat): (b: Bytes)
    requires n <= FTS_MAX_TERM_BYTES
    ensures |b| == 2 && FromLE(b) == n
  {
    assert Pow256(2) == 65536;
    FromLEInverse(2, n);
    LE(2, n)
  }

  // A posting key: the length of the term, the term, the primary key.
  function PostingKey(term: Bytes, pk: Bytes): (k: Bytes)
    requires |term| <= FTS_MAX_TERM_BYTES
    ensures |k| == 2 + |term| + |pk|
  {
    Len2(|term|) + term + pk
  }

  lemma PostingKeyParts(term: Bytes, pk: Bytes)
    requires |term| <= FTS_MAX_TERM_BYTES
    ensures var k := PostingKey(term, pk); FromLE(k[..2]) == |term| && k[2..2 + |term|] == term && k[2 + |term|..] == pk
  {
    assert PostingKey(term, pk)[..2] == Len2(|term|);
  }

  /** The key takes apart again, so distinct (term, primary key) pairs never share one. */
  lemma PostingKeyInjective(term: Bytes, pk: Bytes, term': Bytes, pk': Bytes)
    requires |term| <= FTS_MAX_TERM_BYTES && |term'| <= FTS_MAX_TERM_BYTES
    ensures PostingKey(term, pk) == PostingKey(term', pk') <==> term == term' && pk == pk'
  {
    PostingKeyParts(term, pk);
    PostingKeyParts(term', pk');
  }

  predicate Fits(e: Entry) { |e.term| <= FTS_MAX_TERM_BYTES && e.pk != [] }

  predicate AllFit(es: seq<Entry>) { forall i :: 0 <= i < |es| ==> Fits(es[i]) }

  function KeyOf(e: Entry): Bytes
    requires Fits(e)
  {
    PostingKey(e.term, e.pk)
  }

  function Keys(es: seq<Entry>): (ks: seq<Bytes>)
    requires AllFit(es)
    ensures |ks| == |es|
  {
    seq(|es|, i requires 0 <= i < |es| => KeyOf(es[i]))
  }

  lemma KeysAre(es: seq<Entry>)
    requires AllFit(es)
    ensures forall i :: 0 <= i < |es| ==> Keys(es)[i] == KeyOf(es[i])
  {
  }

  ghost predicate Index(es: seq<Entry>) {
    AllFit(es) && SortedKeys(Keys(es))
  }

  predicate WideValue(e: Entry) { |e.value| >= FTS_VALUE_LEN }

  function Read(e: Entry): Posting
    requires WideValue(e)
  {
    Posting(e.pk, e.value)
  }

  function Tf(p: Posting): nat
    requires |p.value| >= FTS_VALUE_LEN
  {
    FromLE(p.value[..2])
  }

  function DocLen(p: Posting): nat
    requires |p.value| >= FTS_VALUE_LEN
  {
    FromLE(p.value[2..6])
  }

  // Whether a term has `stem` as a prefix and a length from `lo` to `hi`.
  predicate Matches(e: Entry, stem: Bytes, lo: nat, hi: nat) {
    lo <= |e.term| <= hi && HasPrefix(e.term, stem)
  }

  function Pick(e: Entry, stem: Bytes, lo: nat, hi: nat): seq<Posting> {
    if Matches(e, stem, lo, hi) && WideValue(e) then [Read(e)] else []
  }

  // The plain filter a scan is measured against, over the first `k` entries.
  function Filter(es: seq<Entry>, k: nat, stem: Bytes, lo: nat, hi: nat): (r: seq<Posting>)
    requires k <= |es|
  {
    if k == 0 then [] else Filter(es, k - 1, stem, lo, hi) + Pick(es[k - 1], stem, lo, hi)
  }

  function FilterAll(es: seq<Entry>, stem: Bytes, lo: nat, hi: nat): seq<Posting> {
    Filter(es, |es|, stem, lo, hi)
  }

  // One length bucket of a stem is the set of keys with one byte prefix, which is what
  // the loops compare.
  lemma BucketIsPrefix(e: Entry, stem: Bytes, n: nat)
    requires Fits(e) && |stem| <= n <= FTS_MAX_TERM_BYTES
    ensures HasPrefix(KeyOf(e), Len2(n) + stem) <==> Matches(e, stem, n, n)
    ensures var k := KeyOf(e);
            FromLE(k[..2]) == |e.term| && (|e.term| == n ==> (k[2..2 + |stem|] == stem <==> HasPrefix(e.term, stem)))
  {
    var k, p := KeyOf(e), Len2(n) + stem;
    PostingKeyParts(e.term, e.pk);
    if |e.term| == n { assert k[2..2 + |stem|] == e.term[..|stem|]; }
    if |p| <= |k| { assert k[..|p|] == k[..2] + k[2..2 + |stem|]; }
    if HasPrefix(k, p) { assert k[..2] == k[..|p|][..2] == Len2(n); }
  }

  lemma {:induction false} FilterGap(es: seq<Entry>, i: nat, k: nat, stem: Bytes, lo: nat, hi: nat)
    requires i <= k <= |es| && forall j :: i <= j < k ==> !Matches(es[j], stem, lo, hi)
    ensures Filter(es, k, stem, lo, hi) == Filter(es, i, stem, lo, hi)
    decreases k
  {
    if i < k { FilterGap(es, i, k - 1, stem, lo, hi); }
  }

  // From `start` on, the entries of the bucket come before all others.
  ghost predicate RunFrom(es: seq<Entry>, start: nat, stem: Bytes, n: nat) {
    forall i, j :: start <= i < j < |es| && Matches(es[j], stem, n, n) ==> Matches(es[i], stem, n, n)
  }

  // Where the iterator lands for a bucket: nothing before it is in the bucket, and the
  // bucket is one run from there.
  method SeekBucket(es: seq<Entry>, stem: Bytes, n: nat) returns (start: nat)
    requires Index(es) && |stem| <= n <= FTS_MAX_TERM_BYTES
    ensures start <= |es| && Filter(es, start, stem, n, n) == [] && RunFrom(es, start, stem, n)
  {
    var ks, p := Keys(es), Len2(n) + stem;
    start := Seek(ks, p);
    KeysAre(es);
    forall j | 0 <= j < start ensures !Matches(es[j], stem, n, n) {
      BucketIsPrefix(es[j], stem, n);
      if HasPrefix(ks[j], p) { PrefixFrom(ks, p, j); }
    }
    FilterGap(es, 0, start, stem, n, n);
    forall i, j | start <= i < j < |es| && Matches(es[j], stem, n, n) ensures Matches(es[i], stem, n, n) {
      BucketIsPrefix(es[i], stem, n);
      BucketIsPrefix(es[j], stem, n);
      PrefixRun(ks, p, i, j);
    }
  }

  // What the entries from `a` up to `b` read as.
  function Collect(es: seq<Entry>, a: nat, b: nat): seq<Posting>
    requires a <= b <= |es|
    decreases b
  {
    if a == b then [] else Collect(es, a, b - 1) + if WideValue(es[b - 1]) then [Read(es[b - 1])] else []
  }

  ghost predicate AllMatch(es: seq<Entry>, a: nat, b: nat, stem: Bytes, n: nat)
    requires a <= b <= |es|
  {
    forall j :: a <= j < b ==> Matches(es[j], stem, n, n)
  }

  lemma {:induction false} CollectIsFilter(es: seq<Entry>, a: nat, b: nat, stem: Bytes, n: nat)
    requires a <= b <= |es| && AllMatch(es, a, b, stem, n) && Filter(es, a, stem, n, n) == []
    ensures Collect(es, a, b) == Filter(es, b, stem, n, n)
    decreases b
  {
    if a < b { CollectIsFilter(es, a, b - 1, stem, n); }
  }

  // The run ends at the end or at the first foreign key; nothing later is in the bucket.
  lemma RunIsBucket(es: seq<Entry>, start: nat, i: nat, stem: Bytes, n: nat)
    requires start <= i <= |es| && Filter(es, start, stem, n, n) == [] && RunFrom(es, start, stem, n)
    requires AllMatch(es, start, i, stem, n) && (i < |es| ==> !Matches(es[i], stem, n, n))
    ensures Collect(es, start, i) == FilterAll(es, stem, n, n)
  {
    CollectIsFilter(es, start, i, stem, n);
    FilterGap(es, i, |es|, stem, n, n);
  }

  // The wildcard path's comparison: the stored length, then the stem.
  method InBucket(e: Entry, stem: Bytes, n: nat) returns (b: bool)
    requires Fits(e) && |stem| <= n <= FTS_MAX_TERM_BYTES
    ensures b <==> Matches(e, stem, n, n)
  {
    var key := KeyOf(e);
    BucketIsPrefix(e, stem, n);
    b := FromLE(key[..2]) == n && key[2..2 + |stem|] == stem;
  }

  // The wildcard path's inner loop, from the seek to the first foreign key.
  method GatherBucket(es: seq<Entry>, stem: Bytes, n: nat, start: nat) returns (out: seq<Posting>, i: nat)
    requires AllFit(es) && |stem| <= n <= FTS_MAX_TERM_BYTES && start <= |es|
    ensures start <= i <= |es| && out == Collect(es, start, i)
    ensures AllMatch(es, start, i, stem, n) && (i < |es| ==> !Matches(es[i], stem, n, n))
  {
    out := [];
    i := start;
    while i < |es|
      invariant start <= i <= |es| && out == Collect(es, start, i) && AllMatch(es, start, i, stem, n)
    {
      var ours := InBucket(es[i], stem, n);
      if !ours { break; }
      if WideValue(es[i]) { out := out + [Read(es[i])]; }
      i := i + 1;
    }
  }

  method ScanBucket(es: seq<Entry>, stem: Bytes, n: nat) returns (out: seq<Posting>)
    requires Index(es) && |stem| <= n <= FTS_MAX_TERM_BYTES
    ensures out == FilterAll(es, stem, n, n)
  {
    var start := SeekBucket(es, stem, n);
    var i;
    out, i := GatherBucket(es, stem, n, start);
    RunIsBucket(es, start, i, stem, n);
  }

  // The exact path's comparison: the whole prefix at once.
  method InTerm(e: Entry, term: Bytes) returns (b: bool)
    requires Fits(e) && |term| <= FTS_MAX_TERM_BYTES
    ensures b <==> e.term == term
  {
    var key, prefix := KeyOf(e), Len2(|term|) + term;
    BucketIsPrefix(e, term, |term|);
    TermIsBucket(e, term);
    b := |key| >= |prefix| && key[..|prefix|] == prefix;
  }

  // The bucket of a stem's own length holds that term alone.
  lemma TermIsBucket(e: Entry, term: Bytes)
    ensures Matches(e, term, |term|, |term|) <==> e.term == term
  {
  }

  lemma TermRun(es: seq<Entry>, start: nat, i: nat, term: Bytes)
    requires start <= i <= |es| && Filter(es, start, term, |term|, |term|) == [] && RunFrom(es, start, term, |term|)
    requires (forall j :: start <= j < i ==> es[j].term == term) && (i < |es| ==> es[i].term != term)
    ensures Collect(es, start, i) == FilterAll(es, term, |term|, |term|)
  {
    forall j | start <= j < i ensures Matches(es[j], term, |term|, |term|) { TermIsBucket(es[j], term); }
    if i < |es| { TermIsBucket(es[i], term); }
    RunIsBucket(es, start, i, term, |term|);
  }

  // The exact path's loop, from the seek to the first foreign key.
  method GatherTerm(es: seq<Entry>, term: Bytes, start: nat) returns (out: seq<Posting>, i: nat)
    requires AllFit(es) && |term| <= FTS_MAX_TERM_BYTES && start <= |es|
    ensures start <= i <= |es| && out == Collect(es, start, i)
    ensures (forall j :: start <= j < i ==> es[j].term == term) && (i < |es| ==> es[i].term != term)
  {
    out := [];
    i := start;
    while i < |es|
      invariant start <= i <= |es| && out == Collect(es, start, i)
      invariant forall j :: start <= j < i ==> es[j].term == term
    {
      var ours := InTerm(es[i], term);
      if !ours { break; }
      if WideValue(es[i]) { out := out + [Read(es[i])]; }
      i := i + 1;
    }
  }

  // The bytes of the prefix buffer that a term's header and its bytes fill.
  function Filled(term: Bytes): (b: Bytes)
    ensures |b| <= PREFIX_BUFFER
  {
    assert Pow256(2) == 65536;
    LE(2, |term| % 65536) + term[..if |term| <= FTS_MAX_TERM_BYTES then |term| else FTS_MAX_TERM_BYTES]
  }

  /** The fill of the prefix buffer at the head of every term's scan, byte by byte and no
      further than the buffer. The code copies the whole term, so what it does is defined
      if and only if the term fits: it has at most 512 bytes. */
  method FillPrefix(term: Bytes, buf: array<byte>) returns (fits: bool)
    requires buf.Length == PREFIX_BUFFER
    modifies buf
    ensures fits <==> |term| <= FTS_MAX_TERM_BYTES
    ensures buf[..] == Filled(term) + old(buf[..])[|Filled(term)|..]
    ensures fits ==> Filled(term) == Len2(|term|) + term
  {
    assert Pow256(2) == 65536;
    ghost var was := buf[..];
    var head := LE(2, |term| % 65536);
    buf[0], buf[1] := head[0], head[1];
    var n := CopyTerm(term, buf);
    fits := n == |term|;
    if fits { assert term[..n] == term; }
  }

  // The bytes of the term after the header, as far as there is room.
  method CopyTerm(term: Bytes, buf: array<byte>) returns (n: nat)
    requires buf.Length == PREFIX_BUFFER
    modifies buf
    ensures n == if |term| <= FTS_MAX_TERM_BYTES then |term| else FTS_MAX_TERM_BYTES
    ensures buf[..] == old(buf[..2]) + term[..n] + old(buf[..])[2 + n..]
  {
    n := 0;
    while n < |term| && 2 + n < buf.Length
      invariant 0 <= n <= |term| && 2 + n <= buf.Length
      invariant forall i :: 0 <= i < buf.Length ==> buf[i] == if 2 <= i < 2 + n then term[i - 2] else old(buf[i])
    {
      buf[2 + n] := term[n];
      n := n + 1;
    }
  }

  /** A term scan returns, in key order, exactly the postings of that term; it is defined
      if and only if the term fits its buffer. */
  method ScanTerm(es: seq<Entry>, term: Bytes) returns (out: Option<seq<Posting>>)
    requires Index(es)
    ensures out.Some? <==> |term| <= FTS_MAX_TERM_BYTES
    ensures out.Some? ==> out.value == FilterAll(es, term, |term|, |term|)
  {
    var prefix := new byte[PREFIX_BUFFER];
    var fits := FillPrefix(term, prefix);
    if !fits { return None; }
    var start := SeekBucket(es, term, |term|);
    var found, i := GatherTerm(es, term, start);
    TermRun(es, start, i, term);
    out := Some(found);
  }

  predicate Yields(e: Entry, stem: Bytes, lo: nat, hi: nat, p: Posting) {
    Matches(e, stem, lo, hi) && WideValue(e) && Read(e) == p
  }

  // How many of the first `k` entries match and read as `p`.
  function Hits(es: seq<Entry>, k: nat, stem: Bytes, lo: nat, hi: nat, p: Posting): nat
    requires k <= |es|
  {
    if k == 0 then 0 else Hits(es, k - 1, stem, lo, hi, p) + if Yields(es[k - 1], stem, lo, hi, p) then 1 else 0
  }

  // How often `p` is in the list.
  function Occurs(out: seq<Posting>, p: Posting): nat {
    if out == [] then 0 else Occurs(out[..|out| - 1], p) + if out[|out| - 1] == p then 1 else 0
  }

  lemma {:induction false} OccursJoin(a: seq<Posting>, b: seq<Posting>, p: Posting)
    ensures Occurs(a + b, p) == Occurs(a, p) + Occurs(b, p)
    decreases |b|
  {
    if b == [] {
      assert a + b == a;
    } else {
      var n := |b| - 1;
      OccursJoin(a, b[..n], p);
      assert (a + b)[..|a| + n] == a + b[..n];
    }
  }

  lemma PickOccurs(e: Entry, stem: Bytes, lo: nat, hi: nat, p: Posting)
    ensures Occurs(Pick(e, stem, lo, hi), p) == if Yields(e, stem, lo, hi, p) then 1 else 0
  {
    assert Occurs([], p) == 0;
    if Matches(e, stem, lo, hi) && WideValue(e) { assert [Read(e)][..0] == []; }
  }

  lemma {:induction false} FilterCounts(es: seq<Entry>, k: nat, stem: Bytes, lo: nat, hi: nat, p: Posting)
    requires k <= |es|
    ensures Occurs(Filter(es, k, stem, lo, hi), p) == Hits(es, k, stem, lo, hi, p)
  {
    if k > 0 {
      FilterCounts(es, k - 1, stem, lo, hi, p);
      FilterStep(es, k, stem, lo, hi, p);
    }
  }

  lemma FilterStep(es: seq<Entry>, k: nat, stem: Bytes, lo: nat, hi: nat, p: Posting)
    requires 0 < k <= |es|
    ensures Occurs(Filter(es, k, stem, lo, hi), p) ==
              Occurs(Filter(es, k - 1, stem, lo, hi), p) + if Yields(es[k - 1], stem, lo, hi, p) then 1 else 0
  {
    OccursJoin(Filter(es, k - 1, stem, lo, hi), Pick(es[k - 1], stem, lo, hi), p);
    PickOccurs(es[k - 1], stem, lo, hi, p);
  }

  lemma {:induction false} HitsSplit(es: seq<Entry>, k: nat, stem: Bytes, lo: nat, hi: nat, p: Posting)
    requires k <= |es| && lo <= hi
    ensures Hits(es, k, stem, lo, hi, p) == Hits(es, k, stem, lo, lo, p) + Hits(es, k, stem, lo + 1, hi, p)
  {
    if k > 0 { HitsSplit(es, k - 1, stem, lo, hi, p); }
  }

  lemma {:induction false} HitsNone(es: seq<Entry>, k: nat, stem: Bytes, lo: nat, hi: nat, p: Posting)
    requires k <= |es| && hi < lo
    ensures Hits(es, k, stem, lo, hi, p) == 0
  {
    if k > 0 { HitsNone(es, k - 1, stem, lo, hi, p); }
  }

  // What is collected and what the longer terms will add.
  ghost predicate Owed(es: seq<Entry>, stem: Bytes, n: nat, maxLen: nat, out: seq<Posting>) {
    forall p :: Occurs(out, p) + Hits(es, |es|, stem, n, maxLen, p) == Hits(es, |es|, stem, |stem|, maxLen, p)
  }

  lemma OwedNext(es: seq<Entry>, stem: Bytes, n: nat, maxLen: nat, out: seq<Posting>, bucket: seq<Posting>)
    requires n <= maxLen && Owed(es, stem, n, maxLen, out) && bucket == FilterAll(es, stem, n, n)
    ensures Owed(es, stem, n + 1, maxLen, out + bucket)
  {
    forall p ensures Occurs(out + bucket, p) + Hits(es, |es|, stem, n + 1, maxLen, p) == Hits(es, |es|, stem, |stem|, maxLen, p) {
      OccursJoin(out, bucket, p);
      FilterCounts(es, |es|, stem, n, n, p);
      HitsSplit(es, |es|, stem, n, maxLen, p);
    }
  }

  lemma OwedNothing(es: seq<Entry>, stem: Bytes, n: nat, maxLen: nat, out: seq<Posting>)
    requires n > maxLen && Owed(es, stem, n, maxLen, out)
    ensures forall p :: Occurs(out, p) == Hits(es, |es|, stem, |stem|, maxLen, p)
  {
    forall p ensures Occurs(out, p) == Hits(es, |es|, stem, |stem|, maxLen, p) {
      HitsNone(es, |es|, stem, n, maxLen, p);
    }
  }

  lemma OwedAll(es: seq<Entry>, stem: Bytes, maxLen: nat)
    ensures Owed(es, stem, |stem|, maxLen, [])
  {
  }

  /** A wildcard scan seeks once per term length. It returns a posting as often as the
      index has a term with the stem and a byte length up to the limit that reads so:
      exactly the matching postings, once each. */
  method ScanWildcard(es: seq<Entry>, stem: Bytes, maxWordLen: nat) returns (out: Option<seq<Posting>>)
    requires Index(es)
    ensures out.Some? <==> |stem| <= FTS_MAX_TERM_BYTES
    ensures var maxLen := if maxWordLen > FTS_MAX_TERM_BYTES then FTS_MAX_TERM_BYTES else maxWordLen;
            out.Some? ==> forall p :: Occurs(out.value, p) == Hits(es, |es|, stem, |stem|, maxLen, p)
  {
    var prefix := new byte[PREFIX_BUFFER];
    var fits := FillPrefix(stem, prefix);
    if !fits { return None; }
    var maxLen := if maxWordLen > FTS_MAX_TERM_BYTES then FTS_MAX_TERM_BYTES else maxWordLen;
    var found := ScanBuckets(es, stem, maxLen);
    out := Some(found);
  }

  method ScanBuckets(es: seq<Entry>, stem: Bytes, maxLen: nat) returns (out: seq<Posting>)
    requires Index(es) && |stem| <= FTS_MAX_TERM_BYTES && maxLen <= FTS_MAX_TERM_BYTES
    ensures forall p :: Occurs(out, p) == Hits(es, |es|, stem, |stem|, maxLen, p)
  {
    out := [];
    var n := |stem|;
    OwedAll(es, stem, maxLen);
    while n <= maxLen
      invariant |stem| <= n && Owed(es, stem, n, maxLen, out)
      decreases maxLen + 1 - n
    {
      var bucket := ScanBucket(es, stem, n);
      OwedNext(es, stem, n, maxLen, out, bucket);
      out := out + bucket;
      n := n + 1;
    }
    OwedNothing(es, stem, n, maxLen, out);
  }

  // ----- Characters and bytes -----

  // A word as the tokenizer counts it: characters, each a few bytes.
  type Word = seq<Bytes>

  function Flat(w: Word): Bytes { if w == [] then [] else Flat(w[..|w| - 1]) + w[|w| - 1] }

  predicate CharsUpTo(w: Word, m: nat) { forall i :: 0 <= i < |w| ==> 1 <= |w[i]| <= m }

  lemma {:induction false} FlatLength(w: Word, m: nat)
    requires CharsUpTo(w, m)
    ensures |w| <= |Flat(w)| <= m * |w|
  {
    if w != [] {
      FlatLength(w[..|w| - 1], m);
      assert m * |w| == m * (|w| - 1) + m;
    }
  }

  /** A word within the limit of characters, so that it is indexed, is reached by `stem*`
      if and only if it is within the same limit of bytes; in a charset of single bytes
      that is always so. */
  lemma WordReached(w: Word, e: Entry, stem: Bytes, maxWordLen: nat, m: nat)
    requires e.term == Flat(w) && HasPrefix(e.term, stem) && CharsUpTo(w, m) && |w| <= maxWordLen <= FTS_MAX_TERM_BYTES
    ensures Matches(e, stem, |stem|, maxWordLen) <==> |Flat(w)| <= maxWordLen
    ensures m == 1 ==> Matches(e, stem, |stem|, maxWordLen)
  {
    FlatLength(w, m);
  }

  lemma {:induction false} FlatTwos(w: Word)
    requires forall i :: 0 <= i < |w| ==> |w[i]| == 2
    ensures |Flat(w)| == 2 * |w|
  {
    if w != [] { FlatTwos(w[..|w| - 1]); }
  }

  lemma {:induction false} FlatStarts(w: Word)
    requires w != []
    ensures HasPrefix(Flat(w), w[0])
  {
    if |w| == 1 {
      assert Flat(w[..0]) == [] && [] + w[0] == w[0];
    } else {
      FlatStarts(w[..|w| - 1]);
      assert Flat(w) == Flat(w[..|w| - 1]) + w[|w| - 1];
    }
  }

  /** 84 times the letter e with an acute accent in UTF-8, under the default limit of 84
      characters: the word is indexed, starts with the stem, and the scan finds nothing. */
  lemma AccentedWordMissed(w: Word, e: Entry, stem: Bytes, p: Posting)
    requires w == seq(84, i => [0xC3, 0xA9]) && e.term == Flat(w) && stem == [0xC3, 0xA9]
    ensures |w| <= 84 && HasPrefix(e.term, stem) && Hits([e], 1, stem, |stem|, 84, p) == 0
  {
    FlatTwos(w);
    FlatStarts(w);
    WordReached(w, e, stem, 84, 2);
    assert Hits([e], 0, stem, |stem|, 84, p) == 0;
  }

  /** Tokenized words of up to 128 characters of up to four bytes fit the term buffers;
      this covers phrases and natural-language queries, not the words of a boolean one. */
  lemma ShortWordsFit(w: Word)
    requires CharsUpTo(w, 4) && |w| <= 128
    ensures |Flat(w)| <= FTS_MAX_TERM_BYTES
  {
    FlatLength(w, 4);
  }

  // ----- The words of a boolean query -----

  const FTS_BOOL_OP_TRUNC: byte := 42

  // What the character set says: the length of the multi-byte character a string starts
  // with, or 0, and which single bytes are letters or digits.
  datatype Charset = Charset(mbLen: Bytes -> nat, isAlnum: byte -> bool)

  ghost predicate CharsetOk(cs: Charset) { forall b :: cs.mbLen(b) <= |b| }

  // Where the unquoted word that starts at `i` ends.
  ghost function WordEnd(cs: Charset, q: Bytes, i: nat): (end: nat)
    requires CharsetOk(cs) && i <= |q|
    ensures i <= end <= |q|
    decreases |q| - i
  {
    if i == |q| then i
    else if cs.mbLen(q[i..]) > 0 then WordEnd(cs, q, i + cs.mbLen(q[i..]))
    else if cs.isAlnum(q[i]) || q[i] == FTS_BOOL_OP_TRUNC then WordEnd(cs, q, i + 1)
    else i
  }

  /** The word ends only at the end of the query or at a single byte that is neither a
      letter or digit nor an asterisk. */
  lemma {:induction false} WordEndIs(cs: Charset, q: Bytes, i: nat)
    requires CharsetOk(cs) && i <= |q|
    ensures var end := WordEnd(cs, q, i);
            end == |q| || (cs.mbLen(q[end..]) == 0 && !cs.isAlnum(q[end]) && q[end] != FTS_BOOL_OP_TRUNC)
    decreases |q| - i
  {
    if i < |q| {
      if cs.mbLen(q[i..]) > 0 {
        WordEndIs(cs, q, i + cs.mbLen(q[i..]));
      } else if cs.isAlnum(q[i]) || q[i] == FTS_BOOL_OP_TRUNC {
        WordEndIs(cs, q, i + 1);
      }
    }
  }

  /** fts_parse_boolean on an unquoted word: everything up to its end, however long, less
      a final asterisk, which asks for a wildcard. Lower-casing is not modelled. */
  method NextWord(cs: Charset, q: Bytes, start: nat) returns (term: Bytes, trunc: bool, end: nat)
    requires CharsetOk(cs) && start < |q|
    ensures end == WordEnd(cs, q, start)
    ensures trunc <==> end > start && q[end - 1] == FTS_BOOL_OP_TRUNC
    ensures term == q[start..if trunc then end - 1 else end]
  {
    end := start;
    while end < |q|
      invariant start <= end <= |q| && WordEnd(cs, q, end) == WordEnd(cs, q, start)
      decreases |q| - end
    {
      var n := cs.mbLen(q[end..]);
      if n > 0 { end := end + n; continue; }
      if cs.isAlnum(q[end]) || q[end] == FTS_BOOL_OP_TRUNC { end := end + 1; continue; }
      break;
    }
    trunc := end > start && q[end - 1] == FTS_BOOL_OP_TRUNC;
    term := q[start..if trunc then end - 1 else end];
  }

  lemma {:induction false} LettersToEnd(cs: Charset, q: Bytes, i: nat)
    requires CharsetOk(cs) && i <= |q|
    requires forall j :: i <= j < |q| ==> cs.mbLen(q[j..]) == 0 && cs.isAlnum(q[j])
    ensures WordEnd(cs, q, i) == |q|
    decreases |q| - i
  {
    if i < |q| { LettersToEnd(cs, q, i + 1); }
  }

  /** A boolean query of n letters is one term of n bytes, whatever fts_max_word_len says:
      with 513 it does not fit its buffer. */
  method LongBooleanWord(cs: Charset, n: nat) returns (q: Bytes, fits: bool)
    requires CharsetOk(cs) && n > 0 && cs.isAlnum(97) && forall b :: cs.mbLen(b) == 0
    ensures |q| == n && WordEnd(cs, q, 0) == n && (fits <==> n <= FTS_MAX_TERM_BYTES)
    ensures n == 513 ==> !fits
  {
    q := seq(n, i => 97);
    LettersToEnd(cs, q, 0);
    var term, trunc, end := NextWord(cs, q, 0);
    assert term == q;
    var prefix := new byte[PREFIX_BUFFER];
    fits := FillPrefix(term, prefix);
  }
}
