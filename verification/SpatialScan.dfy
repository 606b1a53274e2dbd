/** The spatial index scan: ranges of curve values over byte-ordered keys,
    filtered by the bounding box, refine a plain filter of the index. */
module SpatialScan {
  import opened ByteOrder
  import opened Hilbert
  import opened SpatialRanges

  const SPATIAL_HILBERT_KEY_LEN := 8
  const SPATIAL_MBR_VALUE_LEN := 32

  // ----- Bounding-box predicates -----

  datatype Mbr = Mbr(xmin: real, ymin: real, xmax: real, ymax: real)

  datatype Mode = Intersect | Contain | Within | Equal | Disjoint | Other

  predicate MbrIntersects(a: Mbr, b: Mbr) {
    !(a.xmax < b.xmin || a.xmin > b.xmax || a.ymax < b.ymin || a.ymin > b.ymax)
  }

  predicate MbrWithin(a: Mbr, b: Mbr) {
    a.xmin >= b.xmin && a.xmax <= b.xmax && a.ymin >= b.ymin && a.ymax <= b.ymax
  }

  predicate MbrMatches(mode: Mode, query: Mbr, entry: Mbr) {
    match mode
    case Intersect => MbrIntersects(entry, query)
    case Contain => MbrWithin(entry, query)
    case Within => MbrWithin(entry, query)
    case Equal => entry.xmin == query.xmin && entry.xmax == query.xmax && entry.ymin == query.ymin && entry.ymax == query.ymax
    case Disjoint => !MbrIntersects(entry, query)
    case Other => false
  }

  predicate Holds(m: Mbr, x: real, y: real) {
    m.xmin <= x <= m.xmax && m.ymin <= y <= m.ymax
  }

  predicate Proper(m: Mbr) {
    m.xmin <= m.xmax && m.ymin <= m.ymax
  }

  function Max(a: real, b: real): real { if a < b then b else a }

  /** What the modes mean in terms of points, for boxes that have any. */
  lemma MbrMeaning(a: Mbr, b: Mbr)
    requires Proper(a) && Proper(b)
    ensures MbrMatches(Intersect, b, a) <==> exists x, y :: Holds(a, x, y) && Holds(b, x, y)
    ensures MbrMatches(Disjoint, b, a) <==> forall x, y :: !(Holds(a, x, y) && Holds(b, x, y))
    ensures MbrMatches(Within, b, a) <==> forall x, y :: Holds(a, x, y) ==> Holds(b, x, y)
    ensures MbrMatches(Contain, b, a) <==> forall x, y :: Holds(a, x, y) ==> Holds(b, x, y)
    ensures MbrMatches(Equal, b, a) <==> forall x, y :: Holds(a, x, y) <==> Holds(b, x, y)
  {
    var x, y := Max(a.xmin, b.xmin), Max(a.ymin, b.ymin);
    assert MbrIntersects(a, b) ==> Holds(a, x, y) && Holds(b, x, y);
    assert Holds(a, a.xmin, a.ymin) && Holds(a, a.xmax, a.ymax);
    assert Holds(b, b.xmin, b.ymin) && Holds(b, b.xmax, b.ymax);
  }

  // ----- The scan -----

  type Entry = Item<Bytes>

  // What a scan reads: the index entries, the ranges, the query, the rows.
  datatype Query = Query(es: seq<Entry>, ranges: seq<Range>, mode: Mode, box: Mbr,
                         mbrOf: Bytes -> Mbr, rows: set<Bytes>)

  ghost predicate ValidQuery(q: Query) {
    SortedKeys(KeysOf(q.es)) && Separated(q.ranges)
  }

  predicate Long(q: Query, i: nat)
    requires i < |q.es|
  {
    |q.es[i].key| > SPATIAL_HILBERT_KEY_LEN
  }

  function CurveOf(q: Query, i: nat): nat
    requires i < |q.es| && Long(q, i)
  {
    FromBE(q.es[i].key[..SPATIAL_HILBERT_KEY_LEN])
  }

  // A well-formed entry whose box satisfies the predicate and whose row exists.
  predicate Passes(q: Query, i: nat)
    requires i < |q.es| && Long(q, i)
  {
    && |q.es[i].value| >= SPATIAL_MBR_VALUE_LEN
    && MbrMatches(q.mode, q.box, q.mbrOf(q.es[i].value[..SPATIAL_MBR_VALUE_LEN]))
    && q.es[i].key[SPATIAL_HILBERT_KEY_LEN..] in q.rows
  }

  predicate Wanted(q: Query, i: nat)
    requires i < |q.es|
  {
    Long(q, i) && SpatialRanges.Within(q.ranges, CurveOf(q, i)) && Passes(q, i)
  }

  // The wanted entries from `i` on, in key order.
  function WantedFrom(q: Query, i: nat): (r: seq<nat>)
    requires i <= |q.es|
    decreases |q.es| - i
  {
    if i == |q.es| then [] else (if Wanted(q, i) then [i] else []) + WantedFrom(q, i + 1)
  }

  lemma {:induction false} SkipUnwanted(q: Query, i: nat, j: nat)
    requires i <= j <= |q.es| && forall k :: i <= k < j ==> !Wanted(q, k)
    ensures WantedFrom(q, i) == WantedFrom(q, j)
    decreases j - i
  {
    if i < j { SkipUnwanted(q, i + 1, j); }
  }

  lemma CurveMonotone(q: Query, i: nat, j: nat)
    requires ValidQuery(q) && i < j < |q.es| && Long(q, i) && Long(q, j)
    ensures CurveOf(q, i) <= CurveOf(q, j)
  {
    var u, v, a, b := CurveOf(q, i), CurveOf(q, j), q.es[i].key, q.es[j].key;
    BEInverse(a[..8]);
    BEInverse(b[..8]);
    assert a == BE(8, u) + a[8..] && b == BE(8, v) + b[8..];
    Ordered(KeysOf(q.es), |q.es|, i, j);
    if v < u {
      BEOrder(8, v, u, b[8..], a[8..]);
      LessAsymmetric(b, a);
    }
  }

  // Where the scan stands: everything before `pos` is not past the current
  // range, everything from `pos` on is not before it.
  ghost predicate Standing(q: Query, pos: nat, r: nat) {
    && pos <= |q.es| && r <= |q.ranges|
    && (r < |q.ranges| ==>
          && (forall i :: 0 <= i < pos && Long(q, i) ==> CurveOf(q, i) <= q.ranges[r].hi)
          && (forall i :: pos <= i < |q.es| && Long(q, i) ==> CurveOf(q, i) >= q.ranges[r].lo))
    && (0 < r == |q.ranges| ==> forall i :: pos <= i < |q.es| && Long(q, i) ==> CurveOf(q, i) > q.ranges[r - 1].hi)
  }

  lemma Curve64()
    ensures Pow256(8) == TWO_64
  {
    assert Pow256(4) == 0x1_0000_0000;
  }

  function SeekTo(q: Query, r: nat): (pos: nat)
    requires ValidQuery(q) && r < |q.ranges|
    ensures pos <= |q.es|
  {
    Curve64();
    Seek(KeysOf(q.es), BE(SPATIAL_HILBERT_KEY_LEN, q.ranges[r].lo))
  }

  // The seek for a range splits the long entries at the range's start.
  lemma SeekToSplits(q: Query, r: nat, i: nat)
    requires ValidQuery(q) && r < |q.ranges| && i < |q.es| && Long(q, i)
    ensures i >= SeekTo(q, r) <==> CurveOf(q, i) >= q.ranges[r].lo
  {
    Curve64();
    SeekSplits(KeysOf(q.es), BE(8, q.ranges[r].lo), i);
    NumberedLess(8, q.es[i].key, q.ranges[r].lo);
  }

  lemma FirstSeek(q: Query)
    requires ValidQuery(q) && q.ranges != []
    ensures Standing(q, SeekTo(q, 0), 0) && WantedFrom(q, SeekTo(q, 0)) == WantedFrom(q, 0)
  {
    forall i | 0 <= i < |q.es| && Long(q, i) ensures i >= SeekTo(q, 0) <==> CurveOf(q, i) >= q.ranges[0].lo {
      SeekToSplits(q, 0, i);
    }
    SkipUnwanted(q, 0, SeekTo(q, 0));
  }

  // The entry at `pos`, if any, is past the current range: moving on to the
  // next range loses nothing and repeats nothing.
  lemma NextRange(q: Query, pos: nat, r: nat)
    requires ValidQuery(q) && Standing(q, pos, r) && r < |q.ranges|
    requires pos < |q.es| ==> Long(q, pos) && CurveOf(q, pos) > q.ranges[r].hi
    ensures r + 1 == |q.ranges| ==> Standing(q, pos, r + 1) && WantedFrom(q, pos) == []
    ensures r + 1 < |q.ranges| ==>
              Standing(q, SeekTo(q, r + 1), r + 1) && WantedFrom(q, SeekTo(q, r + 1)) == WantedFrom(q, pos)
  {
    forall i | pos <= i < |q.es| && Long(q, i) ensures CurveOf(q, i) > q.ranges[r].hi {
      if i > pos { CurveMonotone(q, pos, i); }
    }
    if r + 1 == |q.ranges| {
      SkipUnwanted(q, pos, |q.es|);
    } else {
      var pos' := SeekTo(q, r + 1);
      forall i | 0 <= i < |q.es| && Long(q, i)
        ensures i >= pos' <==> CurveOf(q, i) >= q.ranges[r + 1].lo
      {
        SeekToSplits(q, r + 1, i);
      }
      if pos <= pos' { SkipUnwanted(q, pos, pos'); } else { SkipUnwanted(q, pos', pos); }
    }
  }

  lemma Exhausted(q: Query, pos: nat)
    requires ValidQuery(q) && Standing(q, pos, |q.ranges|)
    ensures WantedFrom(q, pos) == []
  {
    SkipUnwanted(q, pos, |q.es|);
  }

  // Stepping over an entry that does not match.
  lemma SkipOne(q: Query, pos: nat, r: nat)
    requires ValidQuery(q) && Standing(q, pos, r) && r < |q.ranges| && pos < |q.es|
    requires Long(q, pos) ==> CurveOf(q, pos) <= q.ranges[r].hi
    ensures Standing(q, pos + 1, r)
    ensures !Wanted(q, pos) ==> WantedFrom(q, pos + 1) == WantedFrom(q, pos)
    ensures Wanted(q, pos) ==> WantedFrom(q, pos) == [pos] + WantedFrom(q, pos + 1)
    ensures Wanted(q, pos) <==> Long(q, pos) && Passes(q, pos)
  {
    if Long(q, pos) { assert q.ranges[r].lo <= CurveOf(q, pos) <= q.ranges[r].hi; }
  }

  /** A scan in progress. */
  class Scan {
    const q: Query
    var pos: nat
    var rangeIdx: nat

    ghost predicate Valid()
      reads this
    {
      ValidQuery(q) && Standing(q, pos, rangeIdx)
    }

    // What the scan has still to return.
    ghost function Pending(): seq<nat>
      reads this
      requires Valid()
    {
      WantedFrom(q, pos)
    }

    // The iterator stands on an entry the scan has just returned.
    ghost predicate OnHit()
      reads this
    {
      && pos < |q.es| && rangeIdx < |q.ranges|
      && Wanted(q, pos) && CurveOf(q, pos) <= q.ranges[rangeIdx].hi
    }

    // The seek of index_read_map to the start of the first range, if there is one.
    constructor (q: Query)
      requires ValidQuery(q)
      ensures this.q == q && Valid() && Pending() == WantedFrom(q, 0)
    {
      this.q := q;
      pos, rangeIdx := if q.ranges == [] then 0 else SeekTo(q, 0), 0;
      new;
      if q.ranges != [] { FirstSeek(q); }
    }

    // The inner loop: stop on a match or past the current range.
    method ScanRange() returns (hit: bool)
      requires Valid() && rangeIdx < |q.ranges|
      modifies this`pos
      ensures Valid() && Pending() == old(Pending())
      ensures hit ==> OnHit()
      ensures !hit && pos < |q.es| ==> Long(q, pos) && CurveOf(q, pos) > q.ranges[rangeIdx].hi
    {
      while pos < |q.es|
        invariant Valid() && Pending() == old(Pending())
        decreases |q.es| - pos
      {
        if Long(q, pos) && CurveOf(q, pos) > q.ranges[rangeIdx].hi {
          return false;
        }
        SkipOne(q, pos, rangeIdx);
        if Long(q, pos) && Passes(q, pos) {
          return true;
        }
        pos := pos + 1;
      }
      return false;
    }

    /** spatial_scan_next: the first pending entry, or none when there is none. */
    method ScanNext() returns (hit: Option<nat>)
      requires Valid()
      modifies this
      ensures Valid() && Pending() == old(Pending())
      ensures hit.None? <==> Pending() == []
      ensures hit.Some? ==> OnHit() && pos == hit.value == Pending()[0]
    {
      while rangeIdx < |q.ranges|
        invariant Valid() && Pending() == old(Pending())
        decreases |q.ranges| - rangeIdx
      {
        var found := ScanRange();
        if found {
          SkipOne(q, pos, rangeIdx);
          return Some(pos);
        }
        NextRange(q, pos, rangeIdx);
        rangeIdx := rangeIdx + 1;
        if rangeIdx < |q.ranges| { pos := SeekTo(q, rangeIdx); }
      }
      Exhausted(q, pos);
      return None;
    }

    // index_next moves the iterator on before it asks again.
    method Advance()
      requires Valid() && OnHit()
      modifies this`pos
      ensures Valid() && old(Pending()) == [old(pos)] + Pending()
    {
      SkipOne(q, pos, rangeIdx);
      pos := pos + 1;
    }
  }

  /** index_read_map followed by index_next until the end: the scan returns, once
      each and in key order, exactly the entries the filter wants. */
  method ScanAll(q: Query) returns (hits: seq<nat>)
    requires ValidQuery(q)
    ensures hits == WantedFrom(q, 0)
  {
    var scan := new Scan(q);
    hits := [];
    while true
      invariant fresh(scan) && scan.q == q && scan.Valid() && hits + scan.Pending() == WantedFrom(q, 0)
      decreases |WantedFrom(q, 0)| - |hits|
    {
      var hit := scan.ScanNext();
      if hit.None? { return; }
      scan.Advance();
      hits := hits + [hit.value];
    }
  }

  // What the filter wants, entry by entry.
  lemma {:induction false} WantedFromIs(q: Query, i: nat, k: nat)
    requires i <= |q.es|
    ensures k in WantedFrom(q, i) <==> i <= k < |q.es| && Wanted(q, k)
    ensures forall a, b :: 0 <= a < b < |WantedFrom(q, i)| ==> WantedFrom(q, i)[a] < WantedFrom(q, i)[b]
    decreases |q.es| - i
  {
    if i < |q.es| {
      WantedFromIs(q, i + 1, k);
      var rest := WantedFrom(q, i + 1);
      forall a | 0 <= a < |rest| ensures rest[a] > i { WantedFromIs(q, i + 1, rest[a]); }
    }
  }
}
