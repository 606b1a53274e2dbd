/** A coarse cell of the grid is one aligned block of the curve, and where in
    that block the cell's low corner sits. */
module HilbertBlocks {
  import opened Hilbert

  // The point at offset `f` inside the 2^m-sided cell `c`.
  function Fine(m: nat, c: (nat, nat), f: (nat, nat)): (nat, nat) {
    (c.0 * Pow2(m) + f.0, c.1 * Pow2(m) + f.1)
  }

  function Quot(x: nat, w: nat): (q: nat)
    requires w > 0
  {
    x / w
  }

  lemma QuotRest(x: nat, w: nat)
    requires w > 0
    ensures x == Quot(x, w) * w + x % w && x % w < w
  {
  }

  function CellOf(m: nat, p: (nat, nat)): (nat, nat) {
    (Quot(p.0, Pow2(m)), Quot(p.1, Pow2(m)))
  }

  function OffsetIn(m: nat, p: (nat, nat)): (f: (nat, nat))
    ensures InSquare(m, f)
  {
    (p.0 % Pow2(m), p.1 % Pow2(m))
  }

  function TurnBy(q: nat, m: nat, f: (nat, nat)): (r: (nat, nat))
    requires q <= 3 && InSquare(m, f)
    ensures InSquare(m, r)
  {
    Turn(Pow2(m), if q < 2 then 0 else 1, if q == 1 || q == 2 then 1 else 0, f)
  }

  // A cell's own frame, after the turns of the levels above it.
  function Orient(k: nat, c: (nat, nat), m: nat, f: (nat, nat)): (r: (nat, nat))
    requires InSquare(k, c) && InSquare(m, f)
    ensures InSquare(m, r)
  {
    if k == 0 then f else Orient(k - 1, Split(k, c).1, m, TurnBy(Split(k, c).0, m, f))
  }

  lemma FineIn(k: nat, m: nat, c: (nat, nat), f: (nat, nat))
    requires InSquare(k, c) && InSquare(m, f)
    ensures InSquare(k + m, Fine(m, c, f)) && CellOf(m, Fine(m, c, f)) == c
  {
    Pow2Add(k, m);
    Below(c.0, Pow2(k), Pow2(m), f.0);
    Below(c.1, Pow2(k), Pow2(m), f.1);
    ModUnique(c.0 * Pow2(m) + f.0, Pow2(m), c.0, f.0);
    ModUnique(c.1 * Pow2(m) + f.1, Pow2(m), c.1, f.1);
  }

  lemma Below(c: nat, n: nat, m: nat, f: nat)
    requires f < m
    ensures c < n <==> c * m + f < n * m
  {
    if c < n {
      assert (c + 1) * m <= n * m;
    } else {
      assert c * m >= n * m;
    }
  }

  lemma Distribute(a: int, b: int, m: int)
    ensures (a - b) * m == a * m - b * m && (a + b) * m == a * m + b * m
  {
  }

  // Turning the square of cells turns the cells and their insides.
  lemma TurnFine(s: nat, m: nat, rx: nat, ry: nat, l: (nat, nat), f: (nat, nat))
    requires l.0 < s && l.1 < s && InSquare(m, f)
    ensures Fine(m, l, f).0 < s * Pow2(m) && Fine(m, l, f).1 < s * Pow2(m)
    ensures Turn(s * Pow2(m), rx, ry, Fine(m, l, f)) == Fine(m, Turn(s, rx, ry, l), Turn(Pow2(m), rx, ry, f))
  {
    var w := Pow2(m);
    Below(l.0, s, w, f.0);
    Below(l.1, s, w, f.1);
    Distribute(s - 1, l.0, w);
    Distribute(s - 1, l.1, w);
    Distribute(s, 1, w);
  }

  lemma Axis(s: nat, w: nat, c: nat, f: nat)
    requires f < w
    ensures c < s <==> c * w + f < s * w
    ensures c >= s ==> (c - s) * w + f + s * w == c * w + f
  {
    Below(c, s, w, f);
    Distribute(c, s, w);
  }

  // One level above the cells: splitting the point splits the cell.
  lemma SplitFine(k: nat, m: nat, c: (nat, nat), f: (nat, nat))
    requires k > 0 && InSquare(k, c) && InSquare(m, f)
    ensures InSquare(k + m, Fine(m, c, f))
    ensures Split(k + m, Fine(m, c, f)) ==
            (Split(k, c).0, Fine(m, Split(k, c).1, TurnBy(Split(k, c).0, m, f)))
  {
    var s, w := Pow2(k - 1), Pow2(m);
    var rx, ry := (if c.0 < s then 0 else 1), (if c.1 < s then 0 else 1);
    var l := (if rx == 0 then c.0 else c.0 - s, if ry == 0 then c.1 else c.1 - s);
    Pow2Add(k - 1, m);
    Axis(s, w, c.0, f.0);
    Axis(s, w, c.1, f.1);
    TurnFine(s, m, rx, ry, l, f);
    SplitParts(k + m, Fine(m, c, f), rx, ry, Fine(m, l, f));
  }

  lemma QuarterScales(q: nat, u: nat, v: nat)
    requires q <= 3
    ensures Quarter(q, u) * v == Quarter(q, u * v)
  {
  }

  /** The value of a point is its cell's block, and inside the block the curve
      position of the point in the cell's own frame. */
  lemma {:induction false} BlockAndOffset(k: nat, m: nat, c: (nat, nat), f: (nat, nat))
    requires InSquare(k, c) && InSquare(m, f)
    ensures InSquare(k + m, Fine(m, c, f))
    ensures H(k + m, Fine(m, c, f)) == H(k, c) * Pow4(m) + H(m, Orient(k, c, m, f))
  {
    if k == 0 {
      assert c == (0, 0) && Fine(m, c, f) == f;
    } else {
      BlockAndOffset(k - 1, m, Split(k, c).1, TurnBy(Split(k, c).0, m, f));
      BlockStep(k, m, c, f, H(m, Orient(k, c, m, f)));
    }
  }

  lemma BlockStep(k: nat, m: nat, c: (nat, nat), f: (nat, nat), o: nat)
    requires k > 0 && InSquare(k, c) && InSquare(m, f)
    requires var c', f' := Split(k, c).1, TurnBy(Split(k, c).0, m, f);
             InSquare(k - 1 + m, Fine(m, c', f')) && H(k - 1 + m, Fine(m, c', f')) == H(k - 1, c') * Pow4(m) + o
    ensures InSquare(k + m, Fine(m, c, f)) && H(k + m, Fine(m, c, f)) == H(k, c) * Pow4(m) + o
  {
    SplitFine(k, m, c, f);
    var q, c', f' := Split(k, c).0, Split(k, c).1, TurnBy(Split(k, c).0, m, f);
    HUnfold(k + m, Fine(m, c, f), q, Fine(m, c', f'));
    HUnfold(k, c, q, c');
    OneMoreDigit(k, m, q, H(k - 1, c'));
  }

  lemma HUnfold(k: nat, p: (nat, nat), q: nat, low: (nat, nat))
    requires k > 0 && InSquare(k, p) && q <= 3 && InSquare(k - 1, low) && Split(k, p) == (q, low)
    ensures H(k, p) == Quarter(q, Pow4(k - 1)) + H(k - 1, low)
  {
  }

  lemma OneMoreDigit(k: nat, m: nat, q: nat, h: nat)
    requires k > 0 && q <= 3
    ensures Quarter(q, Pow4(k + m - 1)) + h * Pow4(m) == (Quarter(q, Pow4(k - 1)) + h) * Pow4(m)
  {
    Pow4Add(k - 1, m);
    QuarterScales(q, Pow4(k - 1), Pow4(m));
    Distribute(Quarter(q, Pow4(k - 1)), h, Pow4(m));
  }

  // The first value of a cell's block.
  function BlockStart(k: nat, m: nat, c: (nat, nat)): nat
    requires InSquare(k, c)
  {
    H(k, c) * Pow4(m)
  }

  lemma FineOfCell(m: nat, p: (nat, nat))
    ensures Fine(m, CellOf(m, p), OffsetIn(m, p)) == p
  {
    QuotRest(p.0, Pow2(m));
    QuotRest(p.1, Pow2(m));
  }

  /** The top digits of a value depend only on the point's cell, and the points
      of a cell are exactly the points with a value in its block. */
  lemma CellIsBlock(k: nat, m: nat, p: (nat, nat), c: (nat, nat))
    requires InSquare(k + m, p) && InSquare(k, c)
    ensures CellOf(m, p) == c <==> BlockStart(k, m, c) <= H(k + m, p) < BlockStart(k, m, c) + Pow4(m)
  {
    var c' := CellOf(m, p);
    FineOfCell(m, p);
    CellIn(k, m, p);
    BlockAndOffset(k, m, c', OffsetIn(m, p));
    DecodeEncode(k, c);
    DecodeEncode(k, c');
    BlocksApart(H(k, c), H(k, c'), Pow4(m));
  }

  lemma CellIn(k: nat, m: nat, p: (nat, nat))
    requires InSquare(k + m, p)
    ensures InSquare(k, CellOf(m, p))
  {
    FineOfCell(m, p);
    Pow2Add(k, m);
    Below(Quot(p.0, Pow2(m)), Pow2(k), Pow2(m), p.0 % Pow2(m));
    Below(Quot(p.1, Pow2(m)), Pow2(k), Pow2(m), p.1 % Pow2(m));
  }

  lemma BlocksApart(a: nat, b: nat, u: nat)
    requires u > 0
    ensures a < b ==> a * u + u <= b * u
    ensures b < a ==> b * u + u <= a * u
  {
    if a < b { assert (a + 1) * u <= b * u; }
    if b < a { assert (b + 1) * u <= a * u; }
  }

  // ----- Where the low corner sits -----

  // How many levels turn the cell over.
  function Flips(k: nat, c: (nat, nat)): nat
    requires InSquare(k, c)
  {
    if k == 0 then 0 else (if Split(k, c).0 == 3 then 1 else 0) + Flips(k - 1, Split(k, c).1)
  }

  // How many base-4 digits of a block number are 3.
  function Threes(k: nat, b: nat): nat
    requires b < Pow4(k)
  {
    if k == 0 then 0
    else (if TopDigit(k, b) == 3 then 1 else 0) + Threes(k - 1, b - Quarter(TopDigit(k, b), Pow4(k - 1)))
  }

  lemma {:induction false} FlipsAreThrees(k: nat, c: (nat, nat))
    requires InSquare(k, c)
    ensures Flips(k, c) == Threes(k, H(k, c))
  {
    if k > 0 { FlipsAreThrees(k - 1, Split(k, c).1); }
  }

  function FarCorner(m: nat): (nat, nat) {
    (Pow2(m) - 1, Pow2(m) - 1)
  }

  lemma {:induction false} OrientCorner(k: nat, c: (nat, nat), m: nat, far: bool)
    requires InSquare(k, c)
    ensures Orient(k, c, m, if far then FarCorner(m) else (0, 0))
            == if far == (Flips(k, c) % 2 == 0) then FarCorner(m) else (0, 0)
  {
    if k > 0 {
      var f := if far then FarCorner(m) else (0, 0);
      var flips := Split(k, c).0 == 3;
      assert TurnBy(Split(k, c).0, m, f) == if far == flips then (0, 0) else FarCorner(m);
      OrientCorner(k - 1, Split(k, c).1, m, far != flips);
    }
  }

  lemma {:induction false} CornerValues(m: nat)
    ensures H(m, (0, 0)) == 0
    ensures 3 * H(m, FarCorner(m)) == 2 * (Pow4(m) - 1)
  {
    if m > 0 {
      CornerValues(m - 1);
      assert Split(m, (0, 0)) == (0, (0, 0));
      assert Split(m, FarCorner(m)) == (2, FarCorner(m - 1));
    }
  }

  // Offset, inside its block, of a turned-over cell's low corner.
  function OddOffset(m: nat): nat {
    H(m, FarCorner(m))
  }

  /** The low corner of a cell is its block's first value after an even number
      of flips, and 2(4^m - 1)/3 values in after an odd number. */
  lemma LowCorner(k: nat, m: nat, c: (nat, nat))
    requires InSquare(k, c)
    ensures InSquare(k + m, Fine(m, c, (0, 0)))
    ensures H(k + m, Fine(m, c, (0, 0)))
            == BlockStart(k, m, c) + (if Flips(k, c) % 2 == 0 then 0 else OddOffset(m))
    ensures 3 * OddOffset(m) == 2 * (Pow4(m) - 1)
  {
    BlockAndOffset(k, m, c, (0, 0));
    OrientCorner(k, c, m, false);
    CornerValues(m);
  }
}
