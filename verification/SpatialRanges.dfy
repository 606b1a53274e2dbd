/** Decomposition of a query box into ranges of curve values, and exactly which
    boxes the ranges cover. */
module SpatialRanges {
  import opened Hilbert
  import opened HilbertBlocks

  const SPATIAL_DECOMP_BITS := 8
  const SHIFT := HILBERT_ORDER - SPATIAL_DECOMP_BITS
  const CELL_SIDE := 0x100_0000          // 1 << SHIFT
  const CELL_SPAN := 0x1_0000_0000_0000  // 1 << (2 * SHIFT)
  const GRID := 256                      // 1 << SPATIAL_DECOMP_BITS

  lemma GridWords()
    ensures Pow2(SHIFT) == CELL_SIDE && Pow4(SHIFT) == CELL_SPAN && Pow2(SPATIAL_DECOMP_BITS) == GRID
    ensures Pow4(SPATIAL_DECOMP_BITS) == 65536 && SPATIAL_DECOMP_BITS + SHIFT == HILBERT_ORDER
  {
    assert Pow2(8) == 256;
    assert Pow2(16) == 65536;
    SquarePow2(8);
    SquarePow2(24);
  }

  datatype Range = Range(lo: nat, hi: nat)

  // A rectangle of grid cells, both ends included.
  datatype Box = Box(x0: nat, y0: nat, x1: nat, y1: nat)

  predicate InBox(b: Box, c: (nat, nat)) {
    b.x0 <= c.0 <= b.x1 && b.y0 <= c.1 <= b.y1
  }

  predicate OnGrid(b: Box) {
    b.x1 < GRID && b.y1 < GRID
  }

  predicate IsCell(c: (nat, nat)) {
    c.0 < GRID && c.1 < GRID
  }

  // What the code pushes for a cell: the value of its low corner.
  function Corner(c: (nat, nat)): (h: nat)
    requires IsCell(c)
  {
    GridWords();
    FineIn(SPATIAL_DECOMP_BITS, SHIFT, c, (0, 0));
    H(HILBERT_ORDER, Fine(SHIFT, c, (0, 0)))
  }

  function Block(c: (nat, nat)): (b: nat)
    requires IsCell(c)
    ensures b < 65536
  {
    GridWords();
    H(SPATIAL_DECOMP_BITS, c)
  }

  predicate Odd(c: (nat, nat))
    requires IsCell(c)
  {
    GridWords();
    Flips(SPATIAL_DECOMP_BITS, c) % 2 == 1
  }

  const ODD_OFFSET := 2 * (CELL_SPAN - 1) / 3

  lemma CornerIs(c: (nat, nat))
    requires IsCell(c)
    ensures Corner(c) == Block(c) * CELL_SPAN + (if Odd(c) then ODD_OFFSET else 0)
  {
    GridWords();
    LowCorner(SPATIAL_DECOMP_BITS, SHIFT, c);
  }

  lemma BlockInjective(c: (nat, nat), d: (nat, nat))
    requires IsCell(c) && IsCell(d) && Block(c) == Block(d)
    ensures c == d
  {
    GridWords();
    DecodeEncode(SPATIAL_DECOMP_BITS, c);
    DecodeEncode(SPATIAL_DECOMP_BITS, d);
  }

  lemma {:induction false} LastBlockThrees(k: nat)
    ensures Threes(k, Pow4(k) - 1) == k
  {
    if k > 0 {
      LastBlockThrees(k - 1);
      assert TopDigit(k, Pow4(k) - 1) == 3;
    }
  }

  // No span runs past the last 64-bit value: the last block is turned over an
  // even number of times.
  lemma SpanFits(c: (nat, nat))
    requires IsCell(c)
    ensures Corner(c) + CELL_SPAN <= TWO_64
  {
    CornerIs(c);
    GridWords();
    FlipsAreThrees(SPATIAL_DECOMP_BITS, c);
    LastBlockThrees(SPATIAL_DECOMP_BITS);
  }

  lemma CornersDiffer(c: (nat, nat), d: (nat, nat))
    requires IsCell(c) && IsCell(d) && Corner(c) == Corner(d)
    ensures c == d
  {
    CornerIs(c);
    CornerIs(d);
    BlockInjective(c, d);
  }

  // ----- The ranges -----

  predicate Within(rs: seq<Range>, v: nat) {
    exists i :: 0 <= i < |rs| && rs[i].lo <= v <= rs[i].hi
  }

  // Sorted, disjoint, and with a gap between neighbours.
  predicate Separated(rs: seq<Range>) {
    && (forall i :: 0 <= i < |rs| ==> rs[i].lo <= rs[i].hi < TWO_64)
    && (forall i, j :: 0 <= i < j < |rs| ==> rs[i].hi + 1 < rs[j].lo)
  }

  predicate Spanned(cells: seq<nat>, v: nat) {
    exists i :: 0 <= i < |cells| && cells[i] <= v < cells[i] + CELL_SPAN
  }

  predicate Increasing(s: seq<nat>) {
    forall i, j :: 0 <= i < j < |s| ==> s[i] < s[j]
  }

  predicate Distinct(s: seq<nat>) {
    forall i, j :: 0 <= i < j < |s| ==> s[i] != s[j]
  }

  // The ranges hold exactly the values of the spans.
  ghost predicate Covers(rs: seq<Range>, cells: seq<nat>) {
    forall v: nat :: Within(rs, v) <==> Spanned(cells, v)
  }

  function Insert(x: nat, s: seq<nat>): (r: seq<nat>)
    requires Increasing(s) && x !in s
    ensures Increasing(r) && (forall y :: y in r <==> y == x || y in s)
  {
    if s == [] || x < s[0] then [x] + s
    else
      assert s == [s[0]] + s[1..];
      var t := Insert(x, s[1..]);
      AllAbove(s[0], s[1..], x, t);
      [s[0]] + t
  }

  lemma AllAbove(a: nat, s: seq<nat>, x: nat, t: seq<nat>)
    requires a < x && (forall i :: 0 <= i < |s| ==> a < s[i]) && (forall y :: y in t ==> y == x || y in s)
    ensures forall i :: 0 <= i < |t| ==> a < t[i]
  {
    forall i | 0 <= i < |t| ensures a < t[i] { assert t[i] in t; }
  }

  // std::sort, on values that are all different.
  function Sort(s: seq<nat>): (r: seq<nat>)
    requires Distinct(s)
    ensures Increasing(r) && (forall y :: y in r <==> y in s)
  {
    if s == [] then []
    else
      assert s == [s[0]] + s[1..];
      Insert(s[0], Sort(s[1..]))
  }

  function Span(c: nat): Range {
    Range(c, c + CELL_SPAN - 1)
  }

  /** The merge loop: the ranges are separated and cover exactly the union of
      the spans, and neither the span ends nor `range_hi + 1` wraps. */
  method Merge(cells: seq<nat>) returns (out: seq<Range>)
    requires cells != [] && Increasing(cells)
    requires forall i :: 0 <= i < |cells| ==> cells[i] + CELL_SPAN <= TWO_64
    ensures Separated(out) && Covers(out, cells)
  {
    out := [];
    var lo: nat, hi: nat := cells[0], Wrap64(cells[0] + CELL_SPAN - 1);
    FirstSpan(cells);
    for i := 1 to |cells|
      invariant Separated(out) && lo <= cells[i - 1] && hi == cells[i - 1] + CELL_SPAN - 1
      invariant forall j :: 0 <= j < |out| ==> out[j].hi + 1 < lo
      invariant Covers(out + [Range(lo, hi)], cells[..i])
    {
      var lo': nat, hi': nat := cells[i], Wrap64(cells[i] + CELL_SPAN - 1);
      if lo' <= Wrap64(hi + 1) {
        MergeGrows(out, lo, hi, cells, i);
        if hi' > hi { hi := hi'; }
      } else {
        MergeAppends(out + [Range(lo, hi)], cells, i);
        out := out + [Range(lo, hi)];
        lo, hi := lo', hi';
      }
    }
    out := out + [Range(lo, hi)];
    assert cells[..|cells|] == cells;
  }

  lemma FirstSpan(cells: seq<nat>)
    requires cells != []
    ensures Covers([] + [Span(cells[0])], cells[..1])
  {
    forall v: nat ensures Within([] + [Span(cells[0])], v) <==> Spanned(cells[..1], v) {
      WithinSnoc([], Span(cells[0]), v);
      SpannedSnoc(cells, 0, v);
    }
  }

  lemma WithinSnoc(rs: seq<Range>, r: Range, v: nat)
    ensures Within(rs + [r], v) <==> Within(rs, v) || r.lo <= v <= r.hi
  {
    var all := rs + [r];
    if Within(rs, v) {
      var i :| 0 <= i < |rs| && rs[i].lo <= v <= rs[i].hi;
      assert all[i] == rs[i];
    }
    if r.lo <= v <= r.hi { assert all[|rs|] == r; }
  }

  lemma SpannedSnoc(cells: seq<nat>, i: nat, v: nat)
    requires i < |cells|
    ensures Spanned(cells[..i + 1], v) <==> Spanned(cells[..i], v) || cells[i] <= v < cells[i] + CELL_SPAN
  {
    var all := cells[..i + 1];
    if Spanned(cells[..i], v) {
      var j :| 0 <= j < |cells[..i]| && cells[..i][j] <= v < cells[..i][j] + CELL_SPAN;
      assert all[j] == cells[..i][j];
    }
    if cells[i] <= v < cells[i] + CELL_SPAN { assert all[i] == cells[i]; }
    if Spanned(all, v) {
      var j :| 0 <= j < |all| && all[j] <= v < all[j] + CELL_SPAN;
      assert j < i ==> cells[..i][j] == all[j];
    }
  }

  lemma MergeGrows(out: seq<Range>, lo: nat, hi: nat, cells: seq<nat>, i: nat)
    requires 0 < i < |cells| && lo <= cells[i - 1] < cells[i] <= hi + 1 && hi == cells[i - 1] + CELL_SPAN - 1
    requires Covers(out + [Range(lo, hi)], cells[..i])
    ensures Covers(out + [Range(lo, cells[i] + CELL_SPAN - 1)], cells[..i + 1])
  {
    var wide := Range(lo, cells[i] + CELL_SPAN - 1);
    forall v: nat ensures Within(out + [wide], v) <==> Spanned(cells[..i + 1], v) {
      WithinSnoc(out, Range(lo, hi), v);
      WithinSnoc(out, wide, v);
      SpannedSnoc(cells, i, v);
    }
  }

  lemma MergeAppends(rs: seq<Range>, cells: seq<nat>, i: nat)
    requires 0 < i < |cells| && Covers(rs, cells[..i])
    ensures Covers(rs + [Span(cells[i])], cells[..i + 1])
  {
    forall v: nat ensures Within(rs + [Span(cells[i])], v) <==> Spanned(cells[..i + 1], v) {
      WithinSnoc(rs, Span(cells[i]), v);
      SpannedSnoc(cells, i, v);
    }
  }

  // ----- spatial_decompose_ranges -----

  // A value in the span pushed for some cell of the box.
  ghost predicate Hit(b: Box, v: nat)
    requires OnGrid(b)
  {
    exists c :: InBox(b, c) && SpanHolds(c, v)
  }

  ghost predicate SpanHolds(c: (nat, nat), v: nat) {
    IsCell(c) && Corner(c) <= v < Corner(c) + CELL_SPAN
  }

  // The grid cells a box of quantised coordinates touches.
  function Grid(qx0: nat, qy0: nat, qx1: nat, qy1: nat): Box {
    Box(qx0 / CELL_SIDE, qy0 / CELL_SIDE,
        if qx1 / CELL_SIDE >= GRID then GRID - 1 else qx1 / CELL_SIDE,
        if qy1 / CELL_SIDE >= GRID then GRID - 1 else qy1 / CELL_SIDE)
  }

  /** The cells of a query box are exactly those with a point of the box in them. */
  lemma GridExactly(qx0: nat, qy0: nat, qx1: nat, qy1: nat, c: (nat, nat))
    requires qx0 <= qx1 < TWO_32 && qy0 <= qy1 < TWO_32
    ensures InBox(Grid(qx0, qy0, qx1, qy1), c) <==>
              exists p: (nat, nat) :: qx0 <= p.0 <= qx1 && qy0 <= p.1 <= qy1 && CellOf(SHIFT, p) == c
  {
    GridWords();
    if InBox(Grid(qx0, qy0, qx1, qy1), c) {
      var x, y := Later(qx0, c.0 * CELL_SIDE), Later(qy0, c.1 * CELL_SIDE);
      AxisCell(qx0, qx1, c.0, x);
      AxisCell(qy0, qy1, c.1, y);
      assert CellOf(SHIFT, (x, y)) == c;
    }
  }

  function Later(a: nat, b: nat): nat { if a < b then b else a }

  lemma AxisCell(q0: nat, q1: nat, c: nat, x: nat)
    requires q0 <= q1 < TWO_32 && q0 / CELL_SIDE <= c <= q1 / CELL_SIDE && x == Later(q0, c * CELL_SIDE)
    ensures q0 <= x <= q1 && x / CELL_SIDE == c
  {
  }

  // The corners pushed for columns x0..x (exclusive) and, in column x, rows
  // y0..y (exclusive).
  ghost predicate Pushed(b: Box, x: int, y: int, cells: seq<nat>)
    requires OnGrid(b)
  {
    && Distinct(cells)
    && (forall h :: h in cells ==> exists c :: Done(b, x, y, c) && Corner(c) == h)
    && (forall c :: Done(b, x, y, c) ==> Corner(c) in cells)
  }

  predicate Done(b: Box, x: int, y: int, c: (nat, nat)) {
    InBox(b, c) && IsCell(c) && (c.0 < x || (c.0 == x && c.1 < y))
  }

  lemma PushOne(b: Box, x: nat, y: nat, cells: seq<nat>)
    requires OnGrid(b) && InBox(b, (x, y)) && Pushed(b, x, y, cells)
    ensures Pushed(b, x, y + 1, cells + [Corner((x, y))])
  {
    var h := Corner((x, y));
    var cells' := cells + [h];
    if h in cells {
      var c :| Done(b, x, y, c) && Corner(c) == h;
      CornersDiffer(c, (x, y));
      assert false;
    }
    forall g | g in cells' ensures exists c :: Done(b, x, y + 1, c) && Corner(c) == g {
      if g in cells {
        var c :| Done(b, x, y, c) && Corner(c) == g;
        assert Done(b, x, y + 1, c);
      } else {
        assert Done(b, x, y + 1, (x, y));
      }
    }
    forall c | Done(b, x, y + 1, c) ensures Corner(c) in cells' {
      assert Done(b, x, y, c) || c == (x, y);
    }
  }

  lemma NextColumn(b: Box, x: nat, cells: seq<nat>)
    requires OnGrid(b) && Pushed(b, x, b.y1 + 1, cells)
    ensures Pushed(b, x + 1, b.y0, cells)
  {
    var y, x' := b.y1 + 1, x + 1;
    forall c ensures Done(b, x, y, c) <==> Done(b, x', b.y0, c) {}
  }

  method PushCells(b: Box) returns (cells: seq<nat>)
    requires OnGrid(b)
    ensures Pushed(b, b.x1 + 1, b.y0, cells)
  {
    cells := [];
    var x := b.x0;
    while x <= b.x1
      invariant b.x0 <= x && Pushed(b, x, b.y0, cells)
      invariant x <= b.x1 + 1 || x == b.x0
    {
      var y := b.y0;
      while y <= b.y1
        invariant b.y0 <= y && (y <= b.y1 + 1 || y == b.y0) && Pushed(b, x, y, cells)
      {
        var h := PushedCorner(x, y);
        PushOne(b, x, y, cells);
        cells := cells + [h];
        y := y + 1;
      }
      if b.y0 > b.y1 { EmptyColumns(b, x, b.y0, x, b.y1 + 1, cells); }
      NextColumn(b, x, cells);
      x := x + 1;
    }
    if b.x0 > b.x1 { EmptyColumns(b, x, b.y0, b.x1 + 1, b.y0, cells); }
  }

  lemma EmptyColumns(b: Box, x: int, y: int, x': int, y': int, cells: seq<nat>)
    requires OnGrid(b) && (b.x0 > b.x1 || b.y0 > b.y1) && Pushed(b, x, y, cells)
    ensures Pushed(b, x', y', cells)
  {
    forall c ensures Done(b, x, y, c) <==> Done(b, x', y', c) {}
  }

  method PushedCorner(gx: nat, gy: nat) returns (h: nat)
    requires IsCell((gx, gy))
    ensures h == Corner((gx, gy))
  {
    GridWords();
    h := Xy2d(gx * CELL_SIDE, gy * CELL_SIDE);
  }

  const FULL := Range(0, TWO_64 - 1)

  /** spatial_decompose_ranges: a box with no cells gives the whole curve; any
      other gives separated ranges holding exactly the spans of its cells. */
  method Decompose(qx0: nat, qy0: nat, qx1: nat, qy1: nat) returns (out: seq<Range>)
    requires qx0 < TWO_32 && qy0 < TWO_32 && qx1 < TWO_32 && qy1 < TWO_32
    ensures var b := Grid(qx0, qy0, qx1, qy1);
            && OnGrid(b) && Separated(out)
            && (b.x0 > b.x1 || b.y0 > b.y1 ==> out == [FULL])
            && (b.x0 <= b.x1 && b.y0 <= b.y1 ==> forall v: nat :: Within(out, v) <==> Hit(b, v))
  {
    var b := Grid(qx0, qy0, qx1, qy1);
    var cells := PushCells(b);
    if cells == [] {
      if b.x0 <= b.x1 && b.y0 <= b.y1 { assert Done(b, b.x1 + 1, b.y0, (b.x0, b.y0)); }
      return [FULL];
    }
    var sorted := Sort(cells);
    CellsFit(b, cells, sorted);
    out := Merge(sorted);
    forall v: nat ensures Within(out, v) <==> Hit(b, v) { SpannedIsHit(b, cells, sorted, v); }
  }

  lemma CellsFit(b: Box, cells: seq<nat>, sorted: seq<nat>)
    requires OnGrid(b) && Pushed(b, b.x1 + 1, b.y0, cells) && cells != [] && (forall h :: h in sorted <==> h in cells)
    ensures sorted != [] && b.x0 <= b.x1 && b.y0 <= b.y1
    ensures forall i :: 0 <= i < |sorted| ==> sorted[i] + CELL_SPAN <= TWO_64
  {
    assert cells[0] in sorted;
    var d :| Done(b, b.x1 + 1, b.y0, d) && Corner(d) == cells[0];
    forall i | 0 <= i < |sorted| ensures sorted[i] + CELL_SPAN <= TWO_64 {
      assert sorted[i] in cells;
      var c :| Done(b, b.x1 + 1, b.y0, c) && Corner(c) == sorted[i];
      SpanFits(c);
    }
  }

  lemma SpannedIsHit(b: Box, cells: seq<nat>, sorted: seq<nat>, v: nat)
    requires OnGrid(b) && Pushed(b, b.x1 + 1, b.y0, cells) && (forall h :: h in sorted <==> h in cells)
    ensures Spanned(sorted, v) <==> Hit(b, v)
  {
    if Spanned(sorted, v) {
      var i :| 0 <= i < |sorted| && sorted[i] <= v < sorted[i] + CELL_SPAN;
      assert sorted[i] in cells;
      var c :| Done(b, b.x1 + 1, b.y0, c) && Corner(c) == sorted[i];
      assert SpanHolds(c, v);
    }
    if Hit(b, v) {
      var c :| InBox(b, c) && SpanHolds(c, v);
      assert Done(b, b.x1 + 1, b.y0, c);
      assert Corner(c) in sorted;
      var i :| 0 <= i < |sorted| && sorted[i] == Corner(c);
    }
  }

  // ----- What the ranges cover -----

  predicate InCell(c: (nat, nat), p: (nat, nat)) {
    InSquare(HILBERT_ORDER, p) && CellOf(SHIFT, p) == c
  }

  // Every point of the cell has its value in the box's spans.
  ghost predicate CellCovered(b: Box, c: (nat, nat))
    requires OnGrid(b)
  {
    forall p :: InCell(c, p) ==> Hit(b, H(HILBERT_ORDER, p))
  }

  // The cell before `c` on the curve is in the box and turned over.
  ghost predicate Backed(b: Box, c: (nat, nat))
    requires IsCell(c)
  {
    exists d :: InBox(b, d) && IsCell(d) && Block(d) + 1 == Block(c) && Odd(d)
  }

  lemma InCellBlock(c: (nat, nat), p: (nat, nat))
    requires IsCell(c) && InSquare(HILBERT_ORDER, p)
    ensures InCell(c, p) <==> Block(c) * CELL_SPAN <= H(HILBERT_ORDER, p) < Block(c) * CELL_SPAN + CELL_SPAN
  {
    GridWords();
    CellIsBlock(SPATIAL_DECOMP_BITS, SHIFT, p, c);
  }

  // No span of the box reaches back to a value below the corner of an unbacked cell.
  lemma SpanMisses(b: Box, c: (nat, nat), d: (nat, nat), v: nat)
    requires OnGrid(b) && IsCell(c) && IsCell(d) && InBox(b, d) && !Backed(b, c)
    requires Block(c) * CELL_SPAN <= v < Corner(c)
    ensures !SpanHolds(d, v)
  {
    CornerIs(c);
    CornerIs(d);
    if Block(d) == Block(c) { BlockInjective(c, d); }
    assert Block(d) + 1 == Block(c) ==> !Odd(d);
  }

  /** A point of a touched cell has its value in the box's spans exactly when the cell
      is turned over an even number of times, or the cell before it on the curve is in
      the box and turned over an odd number of times, or the point is not before the
      cell's low corner. */
  lemma PointCoveredExactly(b: Box, c: (nat, nat), p: (nat, nat))
    requires OnGrid(b) && InBox(b, c) && IsCell(c) && InCell(c, p)
    ensures Hit(b, H(HILBERT_ORDER, p)) <==> !Odd(c) || Backed(b, c) || Corner(c) <= H(HILBERT_ORDER, p)
  {
    var v := H(HILBERT_ORDER, p);
    InCellBlock(c, p);
    CornerIs(c);
    if Corner(c) <= v {
      assert SpanHolds(c, v);
    } else if Backed(b, c) {
      var d :| InBox(b, d) && IsCell(d) && Block(d) + 1 == Block(c) && Odd(d);
      CornerIs(d);
      assert SpanHolds(d, v);
    } else {
      forall d | InBox(b, d) && IsCell(d) ensures !SpanHolds(d, v) { SpanMisses(b, c, d, v); }
    }
  }

  // The first point of a turned-over cell that nothing backs is in no span.
  lemma FirstPointMissed(b: Box, c: (nat, nat)) returns (p: (nat, nat))
    requires OnGrid(b) && InBox(b, c) && IsCell(c) && Odd(c) && !Backed(b, c)
    ensures InCell(c, p) && H(HILBERT_ORDER, p) == Block(c) * CELL_SPAN && !Hit(b, H(HILBERT_ORDER, p))
  {
    var v := Block(c) * CELL_SPAN;
    Words();
    p := D(HILBERT_ORDER, v);
    EncodeDecode(HILBERT_ORDER, v);
    InCellBlock(c, p);
    CornerIs(c);
    PointCoveredExactly(b, c, p);
  }

  /** The spans of a box cover a cell of it exactly when the cell is turned over
      an even number of times, or the cell before it on the curve is in the box
      and turned over an odd number of times. */
  lemma CellCoveredExactly(b: Box, c: (nat, nat))
    requires OnGrid(b) && InBox(b, c) && IsCell(c)
    ensures CellCovered(b, c) <==> !Odd(c) || Backed(b, c)
  {
    if !Odd(c) || Backed(b, c) {
      forall p | InCell(c, p) ensures Hit(b, H(HILBERT_ORDER, p)) { PointCoveredExactly(b, c, p); }
    } else {
      var p := FirstPointMissed(b, c);
    }
  }

  /** A point of a query box has its value in the decomposed ranges exactly when its
      cell meets that condition: in particular when no touched cell is turned over an odd
      number of times without such a predecessor. */
  lemma BoxPointCovered(qx0: nat, qy0: nat, qx1: nat, qy1: nat, p: (nat, nat))
    requires qx0 <= p.0 <= qx1 < TWO_32 && qy0 <= p.1 <= qy1 < TWO_32
    ensures var b, c := Grid(qx0, qy0, qx1, qy1), CellOf(SHIFT, p);
            && InSquare(HILBERT_ORDER, p) && OnGrid(b) && InBox(b, c) && IsCell(c)
            && (Hit(b, H(HILBERT_ORDER, p)) <==> !Odd(c) || Backed(b, c) || Corner(c) <= H(HILBERT_ORDER, p))
  {
    Words();
    GridWords();
    var c := CellOf(SHIFT, p);
    assert c == (p.0 / CELL_SIDE, p.1 / CELL_SIDE);
    PointCoveredExactly(Grid(qx0, qy0, qx1, qy1), c, p);
  }

  /** As the comment in the code intends them, ranges that start at the block
      itself hold exactly the points of the touched cells. */
  lemma BlockRangesExact(b: Box, p: (nat, nat))
    requires OnGrid(b) && InSquare(HILBERT_ORDER, p)
    ensures (exists c :: InBox(b, c) && IsCell(c) &&
               Block(c) * CELL_SPAN <= H(HILBERT_ORDER, p) < Block(c) * CELL_SPAN + CELL_SPAN)
            <==> InBox(b, CellOf(SHIFT, p))
  {
    GridWords();
    CellIn(SPATIAL_DECOMP_BITS, SHIFT, p);
    InCellBlock(CellOf(SHIFT, p), p);
    forall c | InBox(b, c) && IsCell(c) ensures
      Block(c) * CELL_SPAN <= H(HILBERT_ORDER, p) < Block(c) * CELL_SPAN + CELL_SPAN <==> c == CellOf(SHIFT, p)
    {
      InCellBlock(c, p);
    }
  }

  lemma {:induction false} FarCornerFlips(m: nat)
    ensures Flips(m, FarCorner(m)) == 0
  {
    if m > 0 {
      FarCornerFlips(m - 1);
      assert Split(m, FarCorner(m)) == (2, FarCorner(m - 1));
    }
  }

  // Cell (128, 0) is turned over once, at the top level.
  lemma OddCell(c: (nat, nat))
    requires c == (128, 0)
    ensures Odd(c)
  {
    GridWords();
    assert Pow2(7) == 128;
    assert Split(8, c) == (3, FarCorner(7));
    FarCornerFlips(7);
  }

  // The far corner of a turned-over cell is the first point of its block.
  lemma FarCornerFirst(c: (nat, nat))
    requires IsCell(c) && Odd(c)
    ensures InSquare(HILBERT_ORDER, Fine(SHIFT, c, FarCorner(SHIFT)))
    ensures H(HILBERT_ORDER, Fine(SHIFT, c, FarCorner(SHIFT))) == Block(c) * CELL_SPAN
  {
    GridWords();
    BlockAndOffset(SPATIAL_DECOMP_BITS, SHIFT, c, FarCorner(SHIFT));
    OrientCorner(SPATIAL_DECOMP_BITS, c, SHIFT, true);
    CornerValues(SHIFT);
  }

  // A turned-over cell queried alone always misses its far corner.
  lemma LoneOddCellMissed(b: Box, c: (nat, nat))
    requires IsCell(c) && Odd(c) && b == Box(c.0, c.1, c.0, c.1)
    ensures InSquare(HILBERT_ORDER, Fine(SHIFT, c, FarCorner(SHIFT)))
    ensures !Hit(b, H(HILBERT_ORDER, Fine(SHIFT, c, FarCorner(SHIFT))))
  {
    forall d | InBox(b, d) ensures d == c {}
    var p := FirstPointMissed(b, c);
    FarCornerFirst(c);
  }

  /** A box the ranges miss a point of: one grid cell, x from 0x80000000 and y
      from 0, and its far corner. */
  lemma MissedPoint(b: Box, c: (nat, nat), p: (nat, nat))
    requires b == Grid(0x8000_0000, 0, 0x80FF_FFFF, 0x00FF_FFFF) && c == (128, 0) && p == (0x80FF_FFFF, 0x00FF_FFFF)
    ensures OnGrid(b) && InSquare(HILBERT_ORDER, p) && InCell(c, p) && !Hit(b, H(HILBERT_ORDER, p))
  {
    OddCell(c);
    LoneOddCellMissed(b, c);
    GridWords();
    FineIn(SPATIAL_DECOMP_BITS, SHIFT, c, FarCorner(SHIFT));
    assert Fine(SHIFT, c, FarCorner(SHIFT)) == p;
  }
}
