/** The encoder's numbering is a path: it starts in one corner, ends in the next, and
    every step of it goes to a neighbouring point. */
module HilbertPath {
  import opened Hilbert

  // One step along one axis.
  predicate Neighbours(p: (nat, nat), q: (nat, nat)) {
    || (p.0 == q.0 && (p.1 == q.1 + 1 || q.1 == p.1 + 1))
    || (p.1 == q.1 && (p.0 == q.0 + 1 || q.0 == p.0 + 1))
  }

  lemma {:induction false} StartsAt(k: nat)
    ensures D(k, 0) == (0, 0)
  {
    if k > 0 { StartsAt(k - 1); }
  }

  lemma {:induction false} EndsAt(k: nat)
    ensures D(k, Pow4(k) - 1) == (Pow2(k) - 1, 0)
  {
    if k > 0 {
      assert TopDigit(k, Pow4(k) - 1) == 3;
      EndsAt(k - 1);
    }
  }

  // A quadrant's frame keeps neighbours.
  lemma JoinNeighbours(k: nat, q: nat, a: (nat, nat), b: (nat, nat))
    requires k > 0 && q <= 3 && InSquare(k - 1, a) && InSquare(k - 1, b) && Neighbours(a, b)
    ensures Neighbours(Join(k, q, a), Join(k, q, b))
  {
  }

  // Where one quadrant ends the next one starts.
  lemma QuadrantsMeet(k: nat, q: nat)
    requires k > 0 && q < 3
    ensures Neighbours(Join(k, q, (Pow2(k - 1) - 1, 0)), Join(k, q + 1, (0, 0)))
  {
  }

  // The point `c` of quarter `q`'s own frame.
  lemma Inside(k: nat, q: nat, low: nat, c: (nat, nat), d: nat)
    requires k > 0 && q <= 3 && low < Pow4(k - 1) && d == Quarter(q, Pow4(k - 1)) + low && c == D(k - 1, low)
    ensures d < Pow4(k) && D(k, d) == Join(k, q, c)
  {
    assert TopDigit(k, d) == q;
  }

  // Both positions in quarter `q`, or the last of it and the first of the next.
  lemma StepInside(k: nat, q: nat, low: nat, a: (nat, nat), b: (nat, nat), d: nat)
    requires k > 0 && q <= 3 && low + 1 < Pow4(k - 1) && d == Quarter(q, Pow4(k - 1)) + low
    requires a == D(k - 1, low) && b == D(k - 1, low + 1) && Neighbours(a, b)
    ensures d + 1 < Pow4(k) && Neighbours(D(k, d), D(k, d + 1))
  {
    JoinNeighbours(k, q, a, b);
    Inside(k, q, low, a, d);
    Inside(k, q, low + 1, b, d + 1);
  }

  lemma StepAcross(k: nat, q: nat, d: nat, last: nat, a: (nat, nat), b: (nat, nat))
    requires k > 0 && q < 3 && last == Pow4(k - 1) - 1 && d == Quarter(q, Pow4(k - 1)) + last
    requires a == D(k - 1, last) && a == (Pow2(k - 1) - 1, 0) && b == D(k - 1, 0) && b == (0, 0)
    ensures d + 1 < Pow4(k) && Neighbours(D(k, d), D(k, d + 1))
  {
    QuadrantsMeet(k, q);
    Inside(k, q, last, a, d);
    Inside(k, q + 1, 0, b, d + 1);
  }

  lemma StepOver(k: nat, q: nat, d: nat)
    requires k > 0 && q < 3 && d == Quarter(q, Pow4(k - 1)) + (Pow4(k - 1) - 1)
    ensures d + 1 < Pow4(k) && Neighbours(D(k, d), D(k, d + 1))
  {
    EndsAt(k - 1);
    StartsAt(k - 1);
    StepAcross(k, q, d, Pow4(k - 1) - 1, (Pow2(k - 1) - 1, 0), (0, 0));
  }

  // Which of the two it is.
  lemma Where(k: nat, d: nat, q: nat)
    requires k > 0 && d + 1 < Pow4(k) && q == TopDigit(k, d)
    ensures d - Quarter(q, Pow4(k - 1)) + 1 >= Pow4(k - 1) ==> q < 3 && d == Quarter(q, Pow4(k - 1)) + (Pow4(k - 1) - 1)
  {
  }

  /** Consecutive positions are neighbouring points, at every order. */
  lemma {:induction false} PathSteps(k: nat, d: nat)
    requires d + 1 < Pow4(k)
    ensures Neighbours(D(k, d), D(k, d + 1))
  {
    if k > 0 {
      var q := TopDigit(k, d);
      var low := d - Quarter(q, Pow4(k - 1));
      Where(k, d, q);
      if low + 1 < Pow4(k - 1) {
        PathSteps(k - 1, low);
        StepInside(k, q, low, D(k - 1, low), D(k - 1, low + 1), d);
      } else {
        StepOver(k, q, d);
      }
    }
  }

  /** For the encoder: points with consecutive values are neighbours. The first and the
      last value belong to the two lower corners. */
  lemma ValuesStep(k: nat, p: (nat, nat), q: (nat, nat))
    requires InSquare(k, p) && InSquare(k, q) && H(k, q) == H(k, p) + 1
    ensures Neighbours(p, q)
  {
    DecodeEncode(k, p);
    DecodeEncode(k, q);
    PathSteps(k, H(k, p));
  }

  lemma FirstValue(k: nat)
    ensures InSquare(k, (0, 0)) && H(k, (0, 0)) == 0
  {
    StartsAt(k);
    EncodeDecode(k, 0);
  }

  lemma LastValue(k: nat, p: (nat, nat))
    requires p == (Pow2(k) - 1, 0)
    ensures InSquare(k, p) && H(k, p) == Pow4(k) - 1
  {
    EndsAt(k);
    EncodeDecode(k, Pow4(k) - 1);
  }
}
