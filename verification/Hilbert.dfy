/** The 32-level Hilbert-curve encoder of the spatial index. */
module Hilbert {

  const HILBERT_ORDER := 32
  const TWO_32 := 0x1_0000_0000
  const TWO_64 := 0x1_0000_0000_0000_0000

  function Pow2(k: nat): (r: nat)
    ensures r >= 1
  {
    if k == 0 then 1 else 2 * Pow2(k - 1)
  }

  function Pow4(k: nat): (r: nat)
    ensures r >= 1
  {
    if k == 0 then 1 else 4 * Pow4(k - 1)
  }

  lemma {:induction false} SquarePow2(k: nat)
    ensures Pow2(k) * Pow2(k) == Pow4(k)
  {
    if k > 0 { SquarePow2(k - 1); }
  }

  lemma Words()
    ensures Pow2(31) == 0x8000_0000 && Pow2(32) == TWO_32 && Pow4(32) == TWO_64
  {
    assert Pow2(8) == 256;
    assert Pow2(16) == 65536;
    assert Pow2(24) == 0x100_0000;
    SquarePow2(32);
  }

  // A cell of the 2 x 2 grid, as the curve numbers it.
  function Digit(rx: nat, ry: nat): nat
    requires rx <= 1 && ry <= 1
  {
    if rx == 0 then ry else 3 - ry
  }

  lemma DigitIsXor(rx: nat, ry: nat)
    requires rx <= 1 && ry <= 1
    ensures Digit(rx, ry) == ((3 * rx) as bv8 ^ ry as bv8) as nat
  {
    if rx == 0 {
      if ry == 0 { assert (0 as bv8 ^ 0 as bv8) as nat == 0; } else { assert (0 as bv8 ^ 1 as bv8) as nat == 1; }
    } else {
      if ry == 0 { assert (3 as bv8 ^ 0 as bv8) as nat == 3; } else { assert (3 as bv8 ^ 1 as bv8) as nat == 2; }
    }
  }

  // q quarters of size u, for the four digits.
  function Quarter(q: nat, u: nat): nat
    requires q <= 3
  {
    if q == 0 then 0 else if q == 1 then u else if q == 2 then 2 * u else 3 * u
  }

  predicate InSquare(k: nat, p: (nat, nat)) {
    p.0 < Pow2(k) && p.1 < Pow2(k)
  }

  // A quadrant's own frame: swapped in the bottom row, and turned over as well
  // in the bottom right.
  function Turn(s: nat, rx: nat, ry: nat, p: (nat, nat)): (nat, nat)
    requires p.0 < s && p.1 < s
  {
    if ry == 1 then p else if rx == 1 then (s - 1 - p.1, s - 1 - p.0) else (p.1, p.0)
  }

  // One level down: the digit of the quadrant, and the point in its frame.
  function Split(k: nat, p: (nat, nat)): (r: (nat, (nat, nat)))
    requires k > 0 && InSquare(k, p)
    ensures r.0 <= 3 && InSquare(k - 1, r.1)
  {
    var s := Pow2(k - 1);
    var rx, ry := (if p.0 < s then 0 else 1), (if p.1 < s then 0 else 1);
    (Digit(rx, ry), Turn(s, rx, ry, (if rx == 0 then p.0 else p.0 - s, if ry == 0 then p.1 else p.1 - s)))
  }

  // One level up.
  function Join(k: nat, q: nat, low: (nat, nat)): (p: (nat, nat))
    requires k > 0 && q <= 3 && InSquare(k - 1, low)
    ensures InSquare(k, p)
  {
    var s := Pow2(k - 1);
    var rx, ry := (if q < 2 then 0 else 1), (if q == 1 || q == 2 then 1 else 0);
    var own := Turn(s, rx, ry, low);
    (if rx == 0 then own.0 else own.0 + s, if ry == 0 then own.1 else own.1 + s)
  }

  lemma JoinSplit(k: nat, p: (nat, nat))
    requires k > 0 && InSquare(k, p)
    ensures Join(k, Split(k, p).0, Split(k, p).1) == p
  {
  }

  lemma SplitJoin(k: nat, q: nat, low: (nat, nat))
    requires k > 0 && q <= 3 && InSquare(k - 1, low)
    ensures Split(k, Join(k, q, low)) == (q, low)
  {
  }

  // Position of a point along the order-k curve.
  function H(k: nat, p: (nat, nat)): (d: nat)
    requires InSquare(k, p)
    ensures d < Pow4(k)
  {
    if k == 0 then 0
    else Quarter(Split(k, p).0, Pow4(k - 1)) + H(k - 1, Split(k, p).1)
  }

  function TopDigit(k: nat, d: nat): (q: nat)
    requires k > 0 && d < Pow4(k)
    ensures q <= 3 && Quarter(q, Pow4(k - 1)) <= d < Quarter(q, Pow4(k - 1)) + Pow4(k - 1)
  {
    var u := Pow4(k - 1);
    if d < u then 0 else if d < 2 * u then 1 else if d < 3 * u then 2 else 3
  }

  // The point at a position.
  function D(k: nat, d: nat): (p: (nat, nat))
    requires d < Pow4(k)
    ensures InSquare(k, p)
  {
    if k == 0 then (0, 0)
    else Join(k, TopDigit(k, d), D(k - 1, d - Quarter(TopDigit(k, d), Pow4(k - 1))))
  }

  lemma {:induction false} DecodeEncode(k: nat, p: (nat, nat))
    requires InSquare(k, p)
    ensures D(k, H(k, p)) == p
  {
    if k > 0 {
      JoinSplit(k, p);
      DecodeEncode(k - 1, Split(k, p).1);
    }
  }

  lemma {:induction false} EncodeDecode(k: nat, d: nat)
    requires d < Pow4(k)
    ensures H(k, D(k, d)) == d
  {
    if k > 0 {
      var q := TopDigit(k, d);
      var low := D(k - 1, d - Quarter(q, Pow4(k - 1)));
      SplitJoin(k, q, low);
      EncodeDecode(k - 1, d - Quarter(q, Pow4(k - 1)));
    }
  }

  // ----- The loop, in 32-bit words -----

  lemma ModUnique(a: int, s: int, q: int, r: int)
    requires s > 0 && a == q * s + r && 0 <= r < s
    ensures a % s == r && a / s == q
  {
    var q', r' := a / s, a % s;
    assert (q - q') * s == r' - r;
    MulSpreads(q - q', s);
  }

  lemma MulSpreads(z: int, s: int)
    requires s > 0
    ensures z >= 1 ==> z * s >= s
    ensures z <= -1 ==> z * s <= -s
  {
  }

  // (a mod s*m) mod s == a mod s
  lemma ModMod(a: int, s: int, m: int)
    requires s > 0 && m > 0
    ensures s * m > 0 && (a % (s * m)) % s == a % s
  {
    var n := s * m;
    assert n > 0;
    var b := a % n;
    assert b == a - (a / n) * n;
    assert b == (a / s - (a / n) * m) * s + a % s;
    ModUnique(b, s, a / s - (a / n) * m, a % s);
  }

  // The tested bit and what is below it.
  lemma TopBit(x: nat, s: nat)
    requires s > 0
    ensures x % (2 * s) == (if (x / s) % 2 == 1 then s else 0) + x % s
  {
    var q, r := x / s, x % s;
    Regroup(q / 2, q % 2, s, r);
    ModUnique(x, 2 * s, q / 2, (if q % 2 == 1 then s else 0) + r);
  }

  lemma Regroup(a: int, b: int, s: int, r: int)
    requires 0 <= b <= 1
    ensures (2 * a + b) * s + r == a * (2 * s) + ((if b == 1 then s else 0) + r)
  {
    if b == 1 { assert (2 * a + 1) * s == 2 * a * s + s; }
  }

  // Reversing a word leaves the reversed low part, whatever wraps above it.
  lemma ReverseLow(x: nat, s: nat, m: nat)
    requires s > 0 && m > 0 && s * m == TWO_32
    ensures ((2 * s - 1 - x) % TWO_32) % s == s - 1 - x % s
  {
    ModMod(2 * s - 1 - x, s, m);
    ModUnique(2 * s - 1 - x, s, 1 - x / s, s - 1 - x % s);
  }

  lemma {:induction false} Pow2Add(a: nat, b: nat)
    ensures Pow2(a + b) == Pow2(a) * Pow2(b)
  {
    if a > 0 { Pow2Add(a - 1, b); }
  }

  lemma {:induction false} Pow4Add(a: nat, b: nat)
    ensures Pow4(a + b) == Pow4(a) * Pow4(b)
  {
    if a > 0 { Pow4Add(a - 1, b); }
  }

  // Whether a word has the bit `s` set.
  function Bit(x: nat, s: nat): (b: nat)
    requires s > 0
    ensures b <= 1
  {
    (x / s) % 2
  }

  // The reversed word of a rotation, with 32-bit wrap-around.
  function Rev(n: nat, x: nat): (r: nat)
    ensures r < TWO_32
  {
    (n - 1 - x) % TWO_32
  }

  // hilbert_rot, on 32-bit words.
  function Rot(n: nat, x: nat, y: nat, rx: nat, ry: nat): (r: (nat, nat))
    requires n > 0 && x < TWO_32 && y < TWO_32
    ensures r.0 < TWO_32 && r.1 < TWO_32
  {
    if ry != 0 then (x, y)
    else if rx == 1 then (Rev(n, y), Rev(n, x)) else (y, x)
  }

  // The k low bits of a word.
  function Low(k: nat, x: nat): (r: nat)
    ensures r < Pow2(k)
  {
    if k == 0 then 0 else Low(k - 1, x) + (if Bit(x, Pow2(k - 1)) == 1 then Pow2(k - 1) else 0)
  }

  lemma {:induction false} LowIsMod(k: nat, x: nat)
    ensures Low(k, x) == x % Pow2(k)
  {
    if k > 0 {
      LowIsMod(k - 1, x);
      TopBit(x, Pow2(k - 1));
    }
  }

  lemma Pow2Divides(k: nat)
    requires k <= HILBERT_ORDER
    ensures Pow2(k) * Pow2(32 - k) == TWO_32
  {
    Words();
    Pow2Add(k, 32 - k);
  }

  lemma WholeWord(x: nat)
    requires x < TWO_32
    ensures Low(HILBERT_ORDER, x) == x
  {
    Words();
    LowIsMod(HILBERT_ORDER, x);
  }

  lemma RevMod(k: nat, x: nat)
    requires k < HILBERT_ORDER
    ensures Rev(2 * Pow2(k), x) % Pow2(k) == Pow2(k) - 1 - x % Pow2(k)
  {
    Pow2Divides(k);
    ReverseLow(x, Pow2(k), Pow2(32 - k));
  }

  lemma Reversed(k: nat, x: nat)
    requires k < HILBERT_ORDER
    ensures Low(k, Rev(2 * Pow2(k), x)) == Pow2(k) - 1 - Low(k, x)
  {
    var w := Rev(2 * Pow2(k), x);
    RevMod(k, x);
    LowIsMod(k, x);
    LowIsMod(k, w);
  }

  // The part of the words the last k levels will read.
  function Unread(k: nat, x: nat, y: nat): (p: (nat, nat))
    ensures InSquare(k, p)
  {
    (Low(k, x), Low(k, y))
  }

  lemma RotLow(k: nat, x: nat, y: nat, rx: nat, ry: nat)
    requires k < HILBERT_ORDER && x < TWO_32 && y < TWO_32 && rx <= 1 && ry <= 1
    ensures var r := Rot(2 * Pow2(k), x, y, rx, ry);
            Unread(k, r.0, r.1) == Turn(Pow2(k), rx, ry, Unread(k, x, y))
  {
    if ry == 0 && rx == 1 {
      Reversed(k, x);
      Reversed(k, y);
    }
  }

  // Split, given the top bits and the rests.
  lemma SplitParts(k: nat, p: (nat, nat), rx: nat, ry: nat, low: (nat, nat))
    requires k > 0 && rx <= 1 && ry <= 1 && InSquare(k - 1, low)
    requires p.0 == (if rx == 1 then Pow2(k - 1) else 0) + low.0
    requires p.1 == (if ry == 1 then Pow2(k - 1) else 0) + low.1
    ensures InSquare(k, p) && Split(k, p) == (Digit(rx, ry), Turn(Pow2(k - 1), rx, ry, low))
  {
  }

  // One turn of the loop is one level down the curve.
  lemma RotIsSplit(k: nat, x: nat, y: nat)
    requires 0 < k <= HILBERT_ORDER && x < TWO_32 && y < TWO_32
    ensures var s := Pow2(k - 1);
            var r := Rot(2 * s, x, y, Bit(x, s), Bit(y, s));
            Split(k, Unread(k, x, y)) == (Digit(Bit(x, s), Bit(y, s)), Unread(k - 1, r.0, r.1))
  {
    var rx, ry := Bit(x, Pow2(k - 1)), Bit(y, Pow2(k - 1));
    SplitParts(k, Unread(k, x, y), rx, ry, Unread(k - 1, x, y));
    RotLow(k - 1, x, y, rx, ry);
  }

  lemma QuarterIsProduct(q: nat, u: nat)
    requires q <= 3
    ensures Quarter(q, u) == u * q
  {
  }

  lemma LoopStep(k: nat, x: nat, y: nat, q: nat, p: (nat, nat))
    requires 0 < k && InSquare(k - 1, p) && q <= 3 && Split(k, Unread(k, x, y)) == (q, p)
    ensures H(k, Unread(k, x, y)) == Pow2(k - 1) * Pow2(k - 1) * q + H(k - 1, p)
  {
    SquarePow2(k - 1);
    QuarterIsProduct(q, Pow4(k - 1));
  }

  /** hilbert_xy2d_64: the loop, with its wrapping words, computes the position
      on the order-32 curve. */
  method Xy2d(x0: nat, y0: nat) returns (d: nat)
    requires x0 < TWO_32 && y0 < TWO_32
    ensures InSquare(HILBERT_ORDER, (x0, y0)) && d == H(HILBERT_ORDER, (x0, y0)) && d < TWO_64
  {
    Words();
    var x: nat, y: nat, s: nat := x0, y0, TWO_32 / 2;
    d := 0;
    ghost var k: nat := HILBERT_ORDER;
    ghost var whole := H(HILBERT_ORDER, (x0, y0));
    WholeWord(x0);
    WholeWord(y0);
    assert Unread(k, x, y) == (x0, y0) && s == Pow2(k - 1) && whole < TWO_64;
    while s > 0
      invariant k <= HILBERT_ORDER && x < TWO_32 && y < TWO_32
      invariant s == if k > 0 then Pow2(k - 1) else 0
      invariant d + H(k, Unread(k, x, y)) == whole
      decreases k
    {
      var rx, ry := Bit(x, s), Bit(y, s);
      var r := Rot(2 * s, x, y, rx, ry);
      RotIsSplit(k, x, y);
      LoopStep(k, x, y, Digit(rx, ry), Unread(k - 1, r.0, r.1));
      d := Wrap64(d + s * s * Digit(rx, ry));
      x, y, s := r.0, r.1, s / 2;
      k := k - 1;
    }
  }

  function Wrap64(v: nat): (w: nat)
    ensures w < TWO_64 && (v < TWO_64 ==> w == v)
  {
    v % TWO_64
  }
}
