/** A spatial query end to end: entries are keyed by the quantised centre of their box,
    only the ranges of the query box's cells are scanned, and what they miss is missed. */
module SpatialQuery {
  import opened ByteOrder
  import opened Hilbert
  import opened HilbertBlocks
  import opened SpatialRanges
  import opened SpatialScan

  // Quantised coordinates keep the order of the coordinates.
  ghost predicate Monotone(quant: real -> nat) {
    (forall v :: quant(v) < TWO_32) && forall u, v :: u <= v ==> quant(u) <= quant(v)
  }

  function Centre(lo: real, hi: real): real { (lo + hi) / 2.0 }

  lemma CentreInside(query: Mbr, entry: Mbr)
    requires Proper(entry) && MbrMatches(Within, query, entry)
    ensures query.xmin <= Centre(entry.xmin, entry.xmax) <= query.xmax
    ensures query.ymin <= Centre(entry.ymin, entry.ymax) <= query.ymax
  {
  }

  // The point an entry is keyed by.
  function KeyPoint(quant: real -> nat, entry: Mbr): (nat, nat) {
    (quant(Centre(entry.xmin, entry.xmax)), quant(Centre(entry.ymin, entry.ymax)))
  }

  lemma KeyPointInside(quant: real -> nat, query: Mbr, entry: Mbr)
    requires Monotone(quant) && Proper(entry) && MbrMatches(Within, query, entry)
    ensures quant(query.xmin) <= KeyPoint(quant, entry).0 <= quant(query.xmax) < TWO_32
    ensures quant(query.ymin) <= KeyPoint(quant, entry).1 <= quant(query.ymax) < TWO_32
  {
    CentreInside(query, entry);
  }

  /** An entry whose box lies within the query box is keyed by a point of the quantised
      query box, so the scan reaches it exactly when the ranges cover that point. */
  lemma ContainedEntryReached(quant: real -> nat, query: Mbr, entry: Mbr, p: (nat, nat), b: Box)
    requires Monotone(quant) && Proper(entry) && MbrMatches(Within, query, entry) && p == KeyPoint(quant, entry)
    requires b == Grid(quant(query.xmin), quant(query.ymin), quant(query.xmax), quant(query.ymax))
    ensures InSquare(HILBERT_ORDER, p) && OnGrid(b) && InBox(b, CellOf(SHIFT, p)) && IsCell(CellOf(SHIFT, p))
    ensures var c := CellOf(SHIFT, p);
            Hit(b, H(HILBERT_ORDER, p)) <==> !Odd(c) || Backed(b, c) || Corner(c) <= H(HILBERT_ORDER, p)
  {
    KeyPointInside(quant, query, entry);
    BoxPointCovered(quant(query.xmin), quant(query.ymin), quant(query.xmax), quant(query.ymax), p);
  }

  // ----- The whole query -----

  function BoxOf(mbrOf: Bytes -> Mbr, e: Entry): Mbr
    requires |e.value| >= SPATIAL_MBR_VALUE_LEN
  {
    mbrOf(e.value[..SPATIAL_MBR_VALUE_LEN])
  }

  // An entry as the plugin writes it: the curve value of the key point and a primary
  // key, over the bytes of a box.
  ghost predicate Keyed(quant: real -> nat, mbrOf: Bytes -> Mbr, e: Entry) {
    && |e.key| > SPATIAL_HILBERT_KEY_LEN && |e.value| >= SPATIAL_MBR_VALUE_LEN && Proper(BoxOf(mbrOf, e))
    && InSquare(HILBERT_ORDER, KeyPoint(quant, BoxOf(mbrOf, e)))
    && FromBE(e.key[..SPATIAL_HILBERT_KEY_LEN]) == H(HILBERT_ORDER, KeyPoint(quant, BoxOf(mbrOf, e)))
  }

  function GridOf(quant: real -> nat, box: Mbr): Box {
    Grid(quant(box.xmin), quant(box.ymin), quant(box.xmax), quant(box.ymax))
  }

  predicate NoCells(b: Box) { b.x0 > b.x1 || b.y0 > b.y1 }

  // The ranges scanned for the query hold the entry's key point.
  ghost predicate Reaches(mode: Mode, quant: real -> nat, box: Mbr, p: (nat, nat))
  {
    && InSquare(HILBERT_ORDER, p)
    && (mode == Disjoint || NoCells(GridOf(quant, box)) || InRanges(GridOf(quant, box), p))
  }

  ghost predicate InRanges(b: Box, p: (nat, nat)) {
    OnGrid(b) && InSquare(HILBERT_ORDER, p) && Hit(b, H(HILBERT_ORDER, p))
  }

  // The condition on the key point's cell alone.
  ghost predicate Covered(b: Box, p: (nat, nat))
    requires InSquare(HILBERT_ORDER, p)
  {
    var c := CellOf(SHIFT, p);
    IsCell(c) && (!Odd(c) || Backed(b, c) || Corner(c) <= H(HILBERT_ORDER, p))
  }

  lemma FullHoldsAll(v: nat)
    requires v < TWO_64
    ensures SpatialRanges.Within([FULL], v)
  {
    assert [FULL][0].lo <= v <= [FULL][0].hi;
  }

  method Ranges(mode: Mode, quant: real -> nat, box: Mbr) returns (ranges: seq<Range>)
    requires Monotone(quant)
    ensures Separated(ranges)
    ensures forall p: (nat, nat) :: InSquare(HILBERT_ORDER, p) ==>
              (SpatialRanges.Within(ranges, H(HILBERT_ORDER, p)) <==> Reaches(mode, quant, box, p))
  {
    if mode == Disjoint {
      ranges := [FULL];
    } else {
      ranges := Decompose(quant(box.xmin), quant(box.ymin), quant(box.xmax), quant(box.ymax));
    }
    Words();
    forall p: (nat, nat) | InSquare(HILBERT_ORDER, p)
      ensures SpatialRanges.Within(ranges, H(HILBERT_ORDER, p)) <==> Reaches(mode, quant, box, p)
    {
      if ranges == [FULL] { FullHoldsAll(H(HILBERT_ORDER, p)); }
    }
  }

  // A matching entry with a row.
  predicate Answers(mode: Mode, box: Mbr, mbrOf: Bytes -> Mbr, rows: set<Bytes>, e: Entry) {
    && |e.key| > SPATIAL_HILBERT_KEY_LEN && |e.value| >= SPATIAL_MBR_VALUE_LEN
    && MbrMatches(mode, box, BoxOf(mbrOf, e)) && e.key[SPATIAL_HILBERT_KEY_LEN..] in rows
  }

  /** index_read_map with a box predicate and index_next to the end: the answers whose key
      point the ranges hold, once each and in key order; for disjointness every answer. */
  method Search(mode: Mode, quant: real -> nat, es: seq<Entry>, box: Mbr, mbrOf: Bytes -> Mbr, rows: set<Bytes>)
    returns (hits: seq<nat>)
    requires Monotone(quant) && SortedKeys(KeysOf(es)) && forall i :: 0 <= i < |es| ==> Keyed(quant, mbrOf, es[i])
    ensures forall a, b :: 0 <= a < b < |hits| ==> hits[a] < hits[b]
    ensures forall i :: i in hits <==>
              0 <= i < |es| && Answers(mode, box, mbrOf, rows, es[i]) && Reaches(mode, quant, box, KeyPoint(quant, BoxOf(mbrOf, es[i])))
  {
    var ranges := Ranges(mode, quant, box);
    var q := Query(es, ranges, mode, box, mbrOf, rows);
    hits := ScanAll(q);
    WantedFromIs(q, 0, 0);
    forall i: nat ensures i in hits <==>
        0 <= i < |es| && Answers(mode, box, mbrOf, rows, es[i]) && Reaches(mode, quant, box, KeyPoint(quant, BoxOf(mbrOf, es[i])))
    {
      WantedFromIs(q, 0, i);
      if i < |es| { assert Keyed(quant, mbrOf, es[i]); }
    }
  }

  /** An answer to a containment or equality query is reached if and only if its key
      point's cell meets the condition; its centre is always in the query box. */
  lemma ContainmentReached(mode: Mode, quant: real -> nat, box: Mbr, entry: Mbr)
    requires Monotone(quant) && Proper(entry) && (mode == Contain || mode == Within || mode == Equal)
    requires MbrMatches(mode, box, entry)
    ensures var p := KeyPoint(quant, entry);
            InSquare(HILBERT_ORDER, p) && (Reaches(mode, quant, box, p) <==> Covered(GridOf(quant, box), p))
  {
    ContainedEntryReached(quant, box, entry, KeyPoint(quant, entry), GridOf(quant, box));
  }

  /** An answer to an intersection query may be centred outside the touched cells. Then it
      is reached if and only if a touched cell turned over an odd number of times comes
      just before its cell on the curve, with a span that runs over as far as its value. */
  lemma StrayReached(b: Box, p: (nat, nat))
    requires OnGrid(b) && InSquare(HILBERT_ORDER, p) && !InBox(b, CellOf(SHIFT, p)) && IsCell(CellOf(SHIFT, p))
    ensures Hit(b, H(HILBERT_ORDER, p)) <==>
              exists d :: InBox(b, d) && IsCell(d) && Odd(d) && Block(d) + 1 == Block(CellOf(SHIFT, p)) &&
                H(HILBERT_ORDER, p) < Corner(d) + CELL_SPAN
  {
    var c, v := CellOf(SHIFT, p), H(HILBERT_ORDER, p);
    InCellBlock(c, p);
    forall d | InBox(b, d) && IsCell(d)
      ensures SpanHolds(d, v) <==> Odd(d) && Block(d) + 1 == Block(c) && v < Corner(d) + CELL_SPAN
    {
      RunsOver(c, d, v);
    }
  }

  lemma RunsOver(c: (nat, nat), d: (nat, nat), v: nat)
    requires IsCell(c) && IsCell(d) && c != d && Block(c) * CELL_SPAN <= v < Block(c) * CELL_SPAN + CELL_SPAN
    ensures SpanHolds(d, v) <==> Odd(d) && Block(d) + 1 == Block(c) && v < Corner(d) + CELL_SPAN
  {
    CornerIs(d);
    if Block(d) == Block(c) { BlockInjective(c, d); }
  }

  // ----- At the plugin's quantised values -----

  const SIGN := 0x8000_0000_0000_0000

  // double_to_lex_uint32 on the bits of a double.
  function Lex(bits: nat): (q: nat)
    requires bits < TWO_64
    ensures q < TWO_32
  {
    (if bits >= SIGN then TWO_64 - 1 - bits else bits + SIGN) / TWO_32
  }

  // Finite doubles compare as their magnitude bits under their sign.
  function Signed(bits: nat): int { if bits >= SIGN then SIGN - bits else bits }

  /** The quantiser keeps the order of doubles but for the two zeros, which compare as
      equal and of which the negative one is put lower. */
  lemma LexKeepsOrder(a: nat, b: nat)
    requires a < TWO_64 && b < TWO_64 && Signed(a) <= Signed(b)
    ensures Lex(a) <= Lex(b) <==> !(a == 0 && b == SIGN)
  {
  }

  /** And it keeps apart exactly the doubles that differ in their upper 32 bits. */
  lemma LexKeepsHigh(a: nat, b: nat)
    requires a < TWO_64 && b < TWO_64
    ensures Lex(a) == Lex(b) <==> a / TWO_32 == b / TWO_32
  {
    LexHigh(a);
    LexHigh(b);
  }

  lemma LexHigh(a: nat)
    requires a < TWO_64
    ensures Lex(a) == (if a >= SIGN then TWO_32 - 1 - a / TWO_32 else a / TWO_32 + 0x8000_0000)
    ensures a >= SIGN <==> a / TWO_32 >= 0x8000_0000
  {
    assert a == TWO_32 * (a / TWO_32) + a % TWO_32;
  }

  // A point whose cell is not touched and follows no touched cell on the curve.
  lemma StrayMissed(b: Box, p: (nat, nat), c: (nat, nat))
    requires OnGrid(b) && InSquare(HILBERT_ORDER, p) && c == CellOf(SHIFT, p) && IsCell(c) && !InBox(b, c)
    requires forall d :: InBox(b, d) && IsCell(d) ==> Block(d) + 1 != Block(c)
    ensures !InRanges(b, p)
  {
    StrayReached(b, p);
  }

  // A quantised point and its cell.
  lemma CellAt(p: (nat, nat))
    requires p.0 < TWO_32 && p.1 < TWO_32
    ensures InSquare(HILBERT_ORDER, p) && CellOf(SHIFT, p) == (p.0 / CELL_SIDE, p.1 / CELL_SIDE) && IsCell(CellOf(SHIFT, p))
  {
    Words();
    GridWords();
  }

  // The first quarter of the curve is the low quadrant, the third the high one.
  lemma Quadrants(c: (nat, nat))
    requires IsCell(c)
    ensures c.0 < 128 && c.1 < 128 ==> Block(c) < 16384
    ensures c.0 >= 128 && c.1 >= 128 ==> Split(8, c) == (2, (c.0 - 128, c.1 - 128)) && Block(c) == 32768 + H(7, (c.0 - 128, c.1 - 128))
  {
    GridWords();
    assert Pow2(7) == 128;
    SquarePow2(7);
  }

  lemma FarBlocks(d: (nat, nat), c: (nat, nat))
    requires d == (128, 128) && c == (193, 193)
    ensures Block(d) + 1 < Block(c)
  {
    Quadrants(d);
    Quadrants(c);
    assert Pow2(6) == 64;
    SquarePow2(6);
    assert Split(7, (0, 0)).0 == 0 && Split(7, (65, 65)).0 == 2;
  }

  // One touched cell, and a point in a later cell than the next.
  lemma LoneCellMisses(b: Box, d: (nat, nat), p: (nat, nat), c: (nat, nat))
    requires IsCell(d) && b == Box(d.0, d.1, d.0, d.1) && InSquare(HILBERT_ORDER, p) && c == CellOf(SHIFT, p) && IsCell(c)
    requires Block(d) + 1 < Block(c)
    ensures !InRanges(b, p)
  {
    forall e | InBox(b, e) && IsCell(e) ensures e == d {}
    StrayMissed(b, p, c);
  }

  // Touched cells in the high quadrant, and a point in the low one.
  lemma HighMissesLow(b: Box, p: (nat, nat), c: (nat, nat))
    requires OnGrid(b) && b.x0 >= 128 && b.y0 >= 128 && InSquare(HILBERT_ORDER, p) && c == CellOf(SHIFT, p)
    requires IsCell(c) && c.0 < 128 && c.1 < 128
    ensures !InRanges(b, p)
  {
    Quadrants(c);
    forall d | InBox(b, d) && IsCell(d) ensures Block(d) + 1 != Block(c) { Quadrants(d); }
    StrayMissed(b, p, c);
  }

  lemma LexValues()
    ensures Lex(0) == 0x8000_0000 && Lex(SIGN) == 0x7FFF_FFFF
    ensures Lex(0x3FF0_0000_0000_0000) == 0xBFF0_0000 && Lex(0x41E0_0000_0000_0000) == 0xC1E0_0000
    ensures Grid(0x8000_0000, 0x8000_0000, 0x8000_0000, 0x8000_0000) == Box(128, 128, 128, 128)
    ensures Grid(0x8000_0000, 0x8000_0000, 0xBFF0_0000, 0xBFF0_0000) == Box(128, 128, 191, 191)
  {
  }

  /** An entry that intersects the query and is not found: the query is the point (0, 0),
      the entry the square from there to (2^32, 2^32), keyed by (2^31, 2^31). */
  lemma IntersectionMissed(b: Box, p: (nat, nat))
    requires b == Grid(Lex(0), Lex(0), Lex(0), Lex(0))
    requires p == (Lex(0x41E0_0000_0000_0000), Lex(0x41E0_0000_0000_0000))
    ensures MbrMatches(Intersect, Mbr(0.0, 0.0, 0.0, 0.0), Mbr(0.0, 0.0, 4294967296.0, 4294967296.0))
    ensures p == (0xC1E0_0000, 0xC1E0_0000) && !InRanges(b, p)
  {
    LexValues();
    CellAt(p);
    FarBlocks((128, 128), CellOf(SHIFT, p));
    LoneCellMisses(b, (128, 128), p, CellOf(SHIFT, p));
  }

  /** An entry within the query box that is not found: the query runs from (0.0, 0.0) to
      (1.0, 1.0), the entry is the point (-0.0, -0.0), which the box test accepts. */
  lemma NegativeZeroMissed(b: Box, p: (nat, nat))
    requires b == Grid(Lex(0), Lex(0), Lex(0x3FF0_0000_0000_0000), Lex(0x3FF0_0000_0000_0000))
    requires p == (Lex(SIGN), Lex(SIGN))
    ensures Signed(0) == Signed(SIGN) && p == (0x7FFF_FFFF, 0x7FFF_FFFF) && !InRanges(b, p)
  {
    LexValues();
    CellAt(p);
    HighMissesLow(b, p, CellOf(SHIFT, p));
  }
}
