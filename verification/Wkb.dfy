/** The WKB geometry parser (well-known binary, clause 8 of OGC 06-103r4, read in
    little-endian byte order) and the bounding box it computes. */
module Wkb {
  import opened ByteOrder

  const WKB_MAX_POINTS := 1000000
  const WKB_MAX_RINGS := 10000
  const WKB_MAX_GEOMS := 100000
  const SRID_SIZE := 4
  const HEADER_SIZE := 5
  const COUNT_SIZE := 4
  const POINT_SIZE := 16

  // A geometry tree. A point is its 16 coordinate bytes; the byte-order mark is
  // carried along because the parser skips it.
  datatype Geom =
    | Point(order: byte, point: Bytes)
    | Line(order: byte, points: seq<Bytes>)
    | Poly(order: byte, rings: seq<seq<Bytes>>)
    | Multi(order: byte, kind: nat, parts: seq<Geom>)

  predicate FitsPoints(ps: seq<Bytes>) {
    |ps| <= WKB_MAX_POINTS && forall i :: 0 <= i < |ps| ==> |ps[i]| == POINT_SIZE
  }

  // Within the limits that reject malformed data; the seven types are 1 to 7.
  predicate Fits(g: Geom) {
    match g
    case Point(_, p) => |p| == POINT_SIZE
    case Line(_, ps) => FitsPoints(ps)
    case Poly(_, rs) => |rs| <= WKB_MAX_RINGS && forall i :: 0 <= i < |rs| ==> FitsPoints(rs[i])
    case Multi(_, kind, gs) => 4 <= kind <= 7 && |gs| <= WKB_MAX_GEOMS && forall i :: 0 <= i < |gs| ==> Fits(gs[i])
  }

  lemma Words()
    ensures Pow256(4) == 0x1_0000_0000
  {
  }

  // ----- Encoding -----

  function Count(n: nat): (b: Bytes)
    requires n <= WKB_MAX_POINTS
    ensures |b| == COUNT_SIZE && FromLE(b) == n
  {
    Words();
    FromLEInverse(4, n);
    LE(4, n)
  }

  function Flat(ps: seq<Bytes>): Bytes {
    if ps == [] then [] else ps[0] + Flat(ps[1..])
  }

  function EncPoints(ps: seq<Bytes>): Bytes
    requires FitsPoints(ps)
  {
    Count(|ps|) + Flat(ps)
  }

  function EncRings(rs: seq<seq<Bytes>>): Bytes
    requires forall i :: 0 <= i < |rs| ==> FitsPoints(rs[i])
  {
    if rs == [] then [] else EncPoints(rs[0]) + EncRings(rs[1..])
  }

  function Header(order: byte, kind: nat): (b: Bytes)
    requires 1 <= kind <= 7
    ensures |b| == HEADER_SIZE && FromLE(b[1..5]) == kind
  {
    var b := [order] + Count(kind);
    assert b[1..5] == Count(kind);
    b
  }

  function Enc(g: Geom): Bytes
    requires Fits(g)
    decreases g, 0
  {
    match g
    case Point(o, p) => Header(o, 1) + p
    case Line(o, ps) => Header(o, 2) + EncPoints(ps)
    case Poly(o, rs) => Header(o, 3) + Count(|rs|) + EncRings(rs)
    case Multi(o, kind, gs) => Header(o, kind) + Count(|gs|) + EncAll(gs)
  }

  function EncAll(gs: seq<Geom>): Bytes
    requires forall i :: 0 <= i < |gs| ==> Fits(gs[i])
    decreases gs, 1
  {
    if gs == [] then [] else Enc(gs[0]) + EncAll(gs[1..])
  }

  /** The type codes of the standard, and what follows them. */
  lemma TypeCodes(g: Geom)
    requires Fits(g)
    ensures |Enc(g)| >= 5 && Enc(g)[0] == g.order
    ensures g.Point? ==> FromLE(Enc(g)[1..5]) == 1 && Enc(g)[5..] == g.point
    ensures g.Line? ==> FromLE(Enc(g)[1..5]) == 2 && Enc(g)[5..] == EncPoints(g.points)
    ensures g.Poly? ==> FromLE(Enc(g)[1..5]) == 3 && |Enc(g)| >= 9 && FromLE(Enc(g)[5..9]) == |g.rings|
    ensures g.Multi? ==> FromLE(Enc(g)[1..5]) == g.kind && |Enc(g)| >= 9 && FromLE(Enc(g)[5..9]) == |g.parts|
  {
    var h := Header(g.order, if g.Point? then 1 else if g.Line? then 2 else if g.Poly? then 3 else g.kind);
    assert Enc(g)[..5] == h && Enc(g)[1..5] == h[1..5];
    match g
    case Point(_, _) =>
    case Line(_, _) =>
    case Poly(_, rs) => assert Enc(g)[5..9] == Count(|rs|);
    case Multi(_, _, gs) => assert Enc(g)[5..9] == Count(|gs|);
  }

  // ----- Parsing -----

  datatype Parsed<T> = Fail | Ok(value: T, rest: Bytes)

  function ParseFlat(b: Bytes, n: nat): (r: Parsed<seq<Bytes>>)
    ensures r.Ok? ==> |r.rest| <= |b|
    decreases n
  {
    if n == 0 then Ok([], b)
    else if |b| < POINT_SIZE then Fail
    else
      match ParseFlat(b[POINT_SIZE..], n - 1)
      case Fail => Fail
      case Ok(ps, rest) => Ok([b[..POINT_SIZE]] + ps, rest)
  }

  function ParsePoints(b: Bytes): (r: Parsed<seq<Bytes>>)
    ensures r.Ok? ==> |r.rest| <= |b|
  {
    if |b| < COUNT_SIZE || FromLE(b[..4]) > WKB_MAX_POINTS then Fail else ParseFlat(b[4..], FromLE(b[..4]))
  }

  function ParseRings(b: Bytes, n: nat): (r: Parsed<seq<seq<Bytes>>>)
    ensures r.Ok? ==> |r.rest| <= |b|
    decreases n
  {
    if n == 0 then Ok([], b)
    else
      match ParsePoints(b)
      case Fail => Fail
      case Ok(ring, rest) =>
        match ParseRings(rest, n - 1)
        case Fail => Fail
        case Ok(rs, rest') => Ok([ring] + rs, rest')
  }

  function Parse(b: Bytes): (r: Parsed<Geom>)
    ensures r.Ok? ==> |r.rest| < |b|
    decreases |b|, 0
  {
    if |b| < HEADER_SIZE then Fail
    else
      var order, kind, body := b[0], FromLE(b[1..5]), b[5..];
      if kind == 1 then
        if |body| < POINT_SIZE then Fail else Ok(Point(order, body[..POINT_SIZE]), body[POINT_SIZE..])
      else if kind == 2 then
        match ParsePoints(body)
        case Fail => Fail
        case Ok(ps, rest) => Ok(Line(order, ps), rest)
      else if kind == 3 then
        if |body| < COUNT_SIZE || FromLE(body[..4]) > WKB_MAX_RINGS then Fail
        else
          match ParseRings(body[4..], FromLE(body[..4]))
          case Fail => Fail
          case Ok(rs, rest) => Ok(Poly(order, rs), rest)
      else if 4 <= kind <= 7 then
        if |body| < COUNT_SIZE || FromLE(body[..4]) > WKB_MAX_GEOMS then Fail
        else
          match ParseAll(body[4..], FromLE(body[..4]))
          case Fail => Fail
          case Ok(gs, rest) => Ok(Multi(order, kind, gs), rest)
      else Fail
  }

  function ParseAll(b: Bytes, n: nat): (r: Parsed<seq<Geom>>)
    ensures r.Ok? ==> |r.rest| <= |b|
    decreases |b|, 1
  {
    if n == 0 then Ok([], b)
    else
      match Parse(b)
      case Fail => Fail
      case Ok(g, rest) =>
        match ParseAll(rest, n - 1)
        case Fail => Fail
        case Ok(gs, rest') => Ok([g] + gs, rest')
  }

  // ----- Parsing what was encoded -----

  lemma {:induction false} ParseFlatEnc(ps: seq<Bytes>, rest: Bytes)
    requires FitsPoints(ps)
    ensures ParseFlat(Flat(ps) + rest, |ps|) == Ok(ps, rest)
    decreases |ps|
  {
    if ps == [] {
      assert Flat(ps) + rest == rest;
    } else {
      var b := Flat(ps) + rest;
      assert b[..POINT_SIZE] == ps[0];
      assert b[POINT_SIZE..] == Flat(ps[1..]) + rest;
      ParseFlatEnc(ps[1..], rest);
      assert ps == [ps[0]] + ps[1..];
    }
  }

  lemma ParsePointsEnc(ps: seq<Bytes>, rest: Bytes)
    requires FitsPoints(ps)
    ensures ParsePoints(EncPoints(ps) + rest) == Ok(ps, rest)
  {
    var b := EncPoints(ps) + rest;
    assert b[..4] == Count(|ps|);
    assert b[4..] == Flat(ps) + rest;
    ParseFlatEnc(ps, rest);
  }

  lemma {:induction false} ParseRingsEnc(rs: seq<seq<Bytes>>, rest: Bytes)
    requires forall i :: 0 <= i < |rs| ==> FitsPoints(rs[i])
    ensures ParseRings(EncRings(rs) + rest, |rs|) == Ok(rs, rest)
    decreases |rs|
  {
    if rs == [] {
      assert EncRings(rs) + rest == rest;
    } else {
      assert EncRings(rs) + rest == EncPoints(rs[0]) + (EncRings(rs[1..]) + rest);
      ParsePointsEnc(rs[0], EncRings(rs[1..]) + rest);
      ParseRingsEnc(rs[1..], rest);
      assert rs == [rs[0]] + rs[1..];
    }
  }

  /** Parsing an encoded tree gives the tree back and consumes exactly its bytes. */
  lemma {:induction false} ParseEnc(g: Geom, rest: Bytes)
    requires Fits(g)
    ensures Parse(Enc(g) + rest) == Ok(g, rest)
    decreases g, 0
  {
    match g
    case Point(o, p) => ParsePointEnc(o, p, rest);
    case Line(o, ps) => ParseLineEnc(o, ps, rest);
    case Poly(o, rs) => ParsePolyEnc(o, rs, rest);
    case Multi(o, kind, gs) =>
      ParseAllEnc(gs, rest);
      ParseMultiEnc(o, kind, gs, rest);
  }

  lemma ParsePointEnc(o: byte, p: Bytes, rest: Bytes)
    requires |p| == POINT_SIZE
    ensures Parse(Enc(Point(o, p)) + rest) == Ok(Point(o, p), rest)
  {
    var b := Enc(Point(o, p)) + rest;
    assert b == Header(o, 1) + (p + rest);
    HeaderParts(b, o, 1, p + rest);
    assert (p + rest)[..POINT_SIZE] == p && (p + rest)[POINT_SIZE..] == rest;
  }

  lemma ParseLineEnc(o: byte, ps: seq<Bytes>, rest: Bytes)
    requires FitsPoints(ps)
    ensures Parse(Enc(Line(o, ps)) + rest) == Ok(Line(o, ps), rest)
  {
    var b := Enc(Line(o, ps)) + rest;
    assert b == Header(o, 2) + (EncPoints(ps) + rest);
    HeaderParts(b, o, 2, EncPoints(ps) + rest);
    ParsePointsEnc(ps, rest);
    ParseLine(b, o, EncPoints(ps) + rest, ps, rest);
  }

  lemma ParseLine(b: Bytes, o: byte, body: Bytes, ps: seq<Bytes>, rest: Bytes)
    requires |b| >= HEADER_SIZE && b[0] == o && FromLE(b[1..5]) == 2 && b[5..] == body && ParsePoints(body) == Ok(ps, rest)
    ensures Parse(b) == Ok(Line(o, ps), rest)
  {
  }

  lemma ParsePolyEnc(o: byte, rs: seq<seq<Bytes>>, rest: Bytes)
    requires Fits(Poly(o, rs))
    ensures Parse(Enc(Poly(o, rs)) + rest) == Ok(Poly(o, rs), rest)
  {
    var b, body := Enc(Poly(o, rs)) + rest, Count(|rs|) + (EncRings(rs) + rest);
    Regroup(Header(o, 3), Count(|rs|), EncRings(rs), rest);
    HeaderParts(b, o, 3, body);
    CountParts(body, |rs|, EncRings(rs) + rest);
    ParseRingsEnc(rs, rest);
  }

  lemma ParseMultiEnc(o: byte, kind: nat, gs: seq<Geom>, rest: Bytes)
    requires Fits(Multi(o, kind, gs)) && ParseAll(EncAll(gs) + rest, |gs|) == Ok(gs, rest)
    ensures Parse(Enc(Multi(o, kind, gs)) + rest) == Ok(Multi(o, kind, gs), rest)
  {
    var b, body := Enc(Multi(o, kind, gs)) + rest, Count(|gs|) + (EncAll(gs) + rest);
    Regroup(Header(o, kind), Count(|gs|), EncAll(gs), rest);
    HeaderParts(b, o, kind, body);
    CountParts(body, |gs|, EncAll(gs) + rest);
  }

  lemma Regroup(a: Bytes, b: Bytes, c: Bytes, d: Bytes)
    ensures a + b + c + d == a + (b + (c + d))
  {
  }

  lemma HeaderParts(b: Bytes, o: byte, kind: nat, body: Bytes)
    requires 1 <= kind <= 7 && b == Header(o, kind) + body
    ensures |b| >= HEADER_SIZE && b[0] == o && FromLE(b[1..5]) == kind && b[5..] == body
  {
    assert b[1..5] == Header(o, kind)[1..5];
  }

  lemma CountParts(b: Bytes, n: nat, tail: Bytes)
    requires n <= WKB_MAX_POINTS && b == Count(n) + tail
    ensures |b| >= COUNT_SIZE && FromLE(b[..4]) == n && b[4..] == tail
  {
    assert b[..4] == Count(n);
  }

  lemma {:induction false} ParseAllEnc(gs: seq<Geom>, rest: Bytes)
    requires forall i :: 0 <= i < |gs| ==> Fits(gs[i])
    ensures ParseAll(EncAll(gs) + rest, |gs|) == Ok(gs, rest)
    decreases gs, 1
  {
    if gs == [] {
      assert EncAll(gs) + rest == rest;
    } else {
      assert EncAll(gs) + rest == Enc(gs[0]) + (EncAll(gs[1..]) + rest);
      ParseEnc(gs[0], EncAll(gs[1..]) + rest);
      ParseAllEnc(gs[1..], rest);
      assert gs == [gs[0]] + gs[1..];
    }
  }

  // ----- Whatever is accepted is an encoding -----

  lemma CountBack(b: Bytes)
    requires |b| >= COUNT_SIZE && FromLE(b[..4]) <= WKB_MAX_POINTS
    ensures b == Count(FromLE(b[..4])) + b[4..]
  {
    LEInverse(b[..4]);
    assert b == b[..4] + b[4..];
  }

  lemma HeaderBack(b: Bytes)
    requires |b| >= HEADER_SIZE && 1 <= FromLE(b[1..5]) <= 7
    ensures b == Header(b[0], FromLE(b[1..5])) + b[5..]
  {
    LEInverse(b[1..5]);
    assert b == [b[0]] + b[1..5] + b[5..];
  }

  lemma {:induction false} EncParseFlat(b: Bytes, n: nat)
    requires ParseFlat(b, n).Ok?
    ensures var Ok(ps, rest) := ParseFlat(b, n);
            |ps| == n && (forall i :: 0 <= i < n ==> |ps[i]| == POINT_SIZE) && b == Flat(ps) + rest
    decreases n
  {
    if n > 0 {
      EncParseFlat(b[POINT_SIZE..], n - 1);
      var Ok(ps, rest) := ParseFlat(b, n);
      assert ps[1..] == ParseFlat(b[POINT_SIZE..], n - 1).value;
      assert b == b[..POINT_SIZE] + b[POINT_SIZE..];
    }
  }

  lemma EncParsePoints(b: Bytes)
    requires ParsePoints(b).Ok?
    ensures FitsPoints(ParsePoints(b).value) && b == EncPoints(ParsePoints(b).value) + ParsePoints(b).rest
  {
    CountBack(b);
    EncParseFlat(b[4..], FromLE(b[..4]));
  }

  lemma {:induction false} EncParseRings(b: Bytes, n: nat)
    requires ParseRings(b, n).Ok?
    ensures var Ok(rs, rest) := ParseRings(b, n);
            |rs| == n && (forall i :: 0 <= i < n ==> FitsPoints(rs[i])) && b == EncRings(rs) + rest
    decreases n
  {
    if n > 0 {
      var Ok(ring, mid) := ParsePoints(b);
      EncParsePoints(b);
      EncParseRings(mid, n - 1);
      EncRingsCons(ring, ParseRings(mid, n - 1).value, ParseRings(mid, n - 1).rest);
    }
  }

  lemma EncRingsCons(r: seq<Bytes>, rs: seq<seq<Bytes>>, rest: Bytes)
    requires FitsPoints(r) && forall i :: 0 <= i < |rs| ==> FitsPoints(rs[i])
    ensures forall i :: 0 <= i < |[r] + rs| ==> FitsPoints(([r] + rs)[i])
    ensures EncPoints(r) + (EncRings(rs) + rest) == EncRings([r] + rs) + rest
  {
    assert ([r] + rs)[1..] == rs;
  }

  /** Every accepted byte string is the encoding of the parsed tree, followed by
      the bytes left over. */
  lemma {:induction false} EncParse(b: Bytes)
    requires Parse(b).Ok?
    ensures Fits(Parse(b).value) && b == Enc(Parse(b).value) + Parse(b).rest
    decreases |b|, 0
  {
    var kind, body := FromLE(b[1..5]), b[5..];
    HeaderBack(b);
    if kind == 1 {
      assert body == body[..POINT_SIZE] + body[POINT_SIZE..];
    } else if kind == 2 {
      EncParsePoints(body);
    } else {
      CountBack(body);
      if kind == 3 {
        EncParseRings(body[4..], FromLE(body[..4]));
      } else {
        EncParseAll(body[4..], FromLE(body[..4]));
      }
    }
  }

  lemma {:induction false} EncParseAll(b: Bytes, n: nat)
    requires ParseAll(b, n).Ok?
    ensures var Ok(gs, rest) := ParseAll(b, n);
            |gs| == n && (forall i :: 0 <= i < n ==> Fits(gs[i])) && b == EncAll(gs) + rest
    decreases |b|, 1
  {
    if n > 0 {
      var Ok(g, mid) := Parse(b);
      EncParse(b);
      EncParseAll(mid, n - 1);
      EncAllCons(g, ParseAll(mid, n - 1).value, ParseAll(mid, n - 1).rest);
    }
  }

  lemma EncAllCons(g: Geom, gs: seq<Geom>, rest: Bytes)
    requires Fits(g) && forall i :: 0 <= i < |gs| ==> Fits(gs[i])
    ensures forall i :: 0 <= i < |[g] + gs| ==> Fits(([g] + gs)[i])
    ensures Enc(g) + (EncAll(gs) + rest) == EncAll([g] + gs) + rest
  {
    assert ([g] + gs)[1..] == gs;
  }

  // ----- The bounding box -----

  // What float8get reads: a number, or NaN or an infinity.
  datatype Dbl = Finite(r: real) | NonFinite

  type Decode = Bytes -> Dbl

  datatype Box = Box(mnx: real, mny: real, mxx: real, mxy: real)

  function WidenPoint(dbl: Decode, box: Box, p: Bytes): Box
    requires |p| == POINT_SIZE
  {
    var x, y := dbl(p[..8]), dbl(p[8..]);
    if x.NonFinite? || y.NonFinite? then box
    else Box(if x.r < box.mnx then x.r else box.mnx, if y.r < box.mny then y.r else box.mny,
             if x.r > box.mxx then x.r else box.mxx, if y.r > box.mxy then y.r else box.mxy)
  }

  predicate AllPoints(ps: seq<Bytes>) {
    forall i :: 0 <= i < |ps| ==> |ps[i]| == POINT_SIZE
  }

  function Widen(dbl: Decode, box: Box, ps: seq<Bytes>): Box
    requires AllPoints(ps)
  {
    if ps == [] then box else WidenPoint(dbl, Widen(dbl, box, ps[..|ps| - 1]), ps[|ps| - 1])
  }

  lemma {:induction false} WidenAppend(dbl: Decode, box: Box, ps: seq<Bytes>, qs: seq<Bytes>)
    requires AllPoints(ps) && AllPoints(qs)
    ensures Widen(dbl, box, ps + qs) == Widen(dbl, Widen(dbl, box, ps), qs)
    decreases |qs|
  {
    if qs == [] {
      assert ps + qs == ps;
    } else {
      var n := |qs| - 1;
      assert (ps + qs)[..|ps| + n] == ps + qs[..n];
      WidenAppend(dbl, box, ps, qs[..n]);
    }
  }

  // All points of a tree, in the order the parser meets them.
  function PointsOf(g: Geom): (ps: seq<Bytes>)
    requires Fits(g)
    ensures AllPoints(ps)
    decreases g, 0
  {
    match g
    case Point(_, p) => [p]
    case Line(_, ps) => ps
    case Poly(_, rs) => RingPoints(rs)
    case Multi(_, _, gs) => PartPoints(gs)
  }

  function RingPoints(rs: seq<seq<Bytes>>): (ps: seq<Bytes>)
    requires forall i :: 0 <= i < |rs| ==> FitsPoints(rs[i])
    ensures AllPoints(ps)
  {
    if rs == [] then []
    else
      assert FitsPoints(rs[0]);
      rs[0] + RingPoints(rs[1..])
  }

  function PartPoints(gs: seq<Geom>): (ps: seq<Bytes>)
    requires forall i :: 0 <= i < |gs| ==> Fits(gs[i])
    ensures AllPoints(ps)
    decreases gs, 1
  {
    if gs == [] then [] else PointsOf(gs[0]) + PartPoints(gs[1..])
  }

  // A point of the geometry, wherever in the tree it is.
  predicate HasPoint(g: Geom, p: Bytes) {
    match g
    case Point(_, q) => p == q
    case Line(_, ps) => exists i :: 0 <= i < |ps| && ps[i] == p
    case Poly(_, rs) => exists i, j :: 0 <= i < |rs| && 0 <= j < |rs[i]| && rs[i][j] == p
    case Multi(_, _, gs) => exists i :: 0 <= i < |gs| && HasPoint(gs[i], p)
  }

  /** The points the box is taken over are the points of the geometry, and no others. */
  lemma {:induction false} PointsOfExactly(g: Geom, p: Bytes)
    requires Fits(g)
    ensures p in PointsOf(g) <==> HasPoint(g, p)
    decreases g, 0
  {
    match g
    case Point(_, _) =>
    case Line(_, _) =>
    case Poly(_, rs) => RingPointsExactly(rs, p);
    case Multi(_, _, gs) => PartPointsExactly(gs, p);
  }

  lemma {:induction false} RingPointsExactly(rs: seq<seq<Bytes>>, p: Bytes)
    requires forall i :: 0 <= i < |rs| ==> FitsPoints(rs[i])
    ensures p in RingPoints(rs) <==> exists i, j :: 0 <= i < |rs| && 0 <= j < |rs[i]| && rs[i][j] == p
  {
    if rs != [] {
      RingPointsExactly(rs[1..], p);
      if p in RingPoints(rs[1..]) {
        var i, j :| 0 <= i < |rs[1..]| && 0 <= j < |rs[1..][i]| && rs[1..][i][j] == p;
        assert rs[i + 1][j] == p;
      }
      if i, j :| 0 <= i < |rs| && 0 <= j < |rs[i]| && rs[i][j] == p {
        if i > 0 { assert rs[1..][i - 1][j] == p; }
      }
    }
  }

  lemma {:induction false} PartPointsExactly(gs: seq<Geom>, p: Bytes)
    requires forall i :: 0 <= i < |gs| ==> Fits(gs[i])
    ensures p in PartPoints(gs) <==> exists i :: 0 <= i < |gs| && HasPoint(gs[i], p)
    decreases gs, 1
  {
    if gs != [] {
      PointsOfExactly(gs[0], p);
      PartPointsExactly(gs[1..], p);
      if i :| 0 <= i < |gs| && HasPoint(gs[i], p) {
        if i > 0 { assert gs[1..][i - 1] == gs[i]; }
      }
    }
  }

  // The bytes of a tree that are not coordinates: a header each, and the counts.
  function Frame(g: Geom): nat
    decreases g, 0
  {
    match g
    case Point(_, _) => HEADER_SIZE
    case Line(_, _) => HEADER_SIZE + COUNT_SIZE
    case Poly(_, rs) => HEADER_SIZE + COUNT_SIZE + COUNT_SIZE * |rs|
    case Multi(_, _, gs) => HEADER_SIZE + COUNT_SIZE + Frames(gs)
  }

  function Frames(gs: seq<Geom>): nat
    decreases gs, 1
  {
    if gs == [] then 0 else Frame(gs[0]) + Frames(gs[1..])
  }

  /** Every 16 bytes of an encoding that are not headers or counts are one of the points,
      repeated points counted. */
  lemma {:induction false} EncLength(g: Geom)
    requires Fits(g)
    ensures |Enc(g)| == POINT_SIZE * |PointsOf(g)| + Frame(g)
    decreases g, 0
  {
    match g
    case Point(_, _) =>
    case Line(_, ps) => FlatSize(ps);
    case Poly(_, rs) => RingsSize(rs);
    case Multi(_, _, gs) => PartsSize(gs);
  }

  lemma {:induction false} FlatSize(ps: seq<Bytes>)
    requires AllPoints(ps)
    ensures |Flat(ps)| == POINT_SIZE * |ps|
  {
    if ps != [] { FlatSize(ps[1..]); }
  }

  lemma {:induction false} RingsSize(rs: seq<seq<Bytes>>)
    requires forall i :: 0 <= i < |rs| ==> FitsPoints(rs[i])
    ensures |EncRings(rs)| == POINT_SIZE * |RingPoints(rs)| + COUNT_SIZE * |rs|
  {
    if rs != [] {
      FlatSize(rs[0]);
      RingsSize(rs[1..]);
    }
  }

  lemma {:induction false} PartsSize(gs: seq<Geom>)
    requires forall i :: 0 <= i < |gs| ==> Fits(gs[i])
    ensures |EncAll(gs)| == POINT_SIZE * |PartPoints(gs)| + Frames(gs)
    decreases gs, 1
  {
    if gs != [] {
      EncLength(gs[0]);
      PartsSize(gs[1..]);
    }
  }

  // ----- The parser, with its cursor and its running box -----

  method ReadPoint(dbl: Decode, b: Bytes, p: nat, box: Box) returns (ok: bool, p': nat, box': Box)
    requires p <= |b|
    ensures ok <==> |b| - p >= POINT_SIZE
    ensures ok ==> p' == p + POINT_SIZE && box' == WidenPoint(dbl, box, b[p..p'])
    ensures !ok ==> p' == p
  {
    p', box' := p, box;
    if p + POINT_SIZE > |b| { return false, p, box; }
    var x, y := dbl(b[p..p + 8]), dbl(b[p + 8..p + 16]);
    p' := p + POINT_SIZE;
    ok := true;
    assert b[p..p'][..8] == b[p..p + 8] && b[p..p'][8..] == b[p + 8..p + 16];
    if x.Finite? && y.Finite? {
      var mnx := if x.r < box.mnx then x.r else box.mnx;
      var mxx := if x.r > box.mxx then x.r else box.mxx;
      var mny := if y.r < box.mny then y.r else box.mny;
      var mxy := if y.r > box.mxy then y.r else box.mxy;
      box' := Box(mnx, mny, mxx, mxy);
    }
  }

  // `r` is `r'` with `acc` in front of its value.
  predicate Extends<T(==)>(r: Parsed<seq<T>>, acc: seq<T>, r': Parsed<seq<T>>) {
    match r'
    case Fail => r.Fail?
    case Ok(v, rest) => r == Ok(acc + v, rest)
  }

  lemma ExtendsNil<T>(r: Parsed<seq<T>>)
    ensures Extends(r, [], r)
  {
    if r.Ok? { assert [] + r.value == r.value; }
  }

  lemma ExtendsDone<T>(r: Parsed<seq<T>>, acc: seq<T>, rest: Bytes)
    requires Extends(r, acc, Ok([], rest))
    ensures r == Ok(acc, rest)
  {
    assert acc + [] == acc;
  }

  lemma FlatOne(b: Bytes, n: nat, acc: seq<Bytes>, r: Parsed<seq<Bytes>>)
    requires n > 0 && Extends(r, acc, ParseFlat(b, n))
    ensures |b| < POINT_SIZE ==> r.Fail?
    ensures |b| >= POINT_SIZE ==> Extends(r, acc + [b[..POINT_SIZE]], ParseFlat(b[POINT_SIZE..], n - 1))
  {
    if |b| >= POINT_SIZE && r.Ok? {
      var ps := ParseFlat(b[POINT_SIZE..], n - 1).value;
      assert acc + ([b[..POINT_SIZE]] + ps) == acc + [b[..POINT_SIZE]] + ps;
    }
  }

  // Where the loop over `n` points stands, as PartsAt below.
  ghost predicate FlatAt(dbl: Decode, all: Parsed<seq<Bytes>>, box: Box, acc: seq<Bytes>, rest: Bytes, left: nat, box': Box) {
    AllPoints(acc) && box' == Widen(dbl, box, acc) && Extends(all, acc, ParseFlat(rest, left))
  }

  lemma FlatStep(dbl: Decode, all: Parsed<seq<Bytes>>, box: Box, acc: seq<Bytes>, rest: Bytes, left: nat, box': Box)
    requires left > 0 && FlatAt(dbl, all, box, acc, rest, left, box')
    ensures |rest| < POINT_SIZE ==> all.Fail?
    ensures |rest| >= POINT_SIZE ==>
              FlatAt(dbl, all, box, acc + [rest[..POINT_SIZE]], rest[POINT_SIZE..], left - 1, WidenPoint(dbl, box', rest[..POINT_SIZE]))
  {
    FlatOne(rest, left, acc, all);
    if |rest| >= POINT_SIZE {
      var acc' := acc + [rest[..POINT_SIZE]];
      assert acc'[..|acc'| - 1] == acc;
    }
  }

  // Reads the points of a counted sequence, after its count.
  method ReadFlat(dbl: Decode, b: Bytes, p: nat, n: nat, box: Box) returns (ok: bool, p': nat, box': Box)
    requires p <= |b|
    ensures p <= p' <= |b| && (ok <==> ParseFlat(b[p..], n).Ok?)
    ensures ok ==> AllPoints(ParseFlat(b[p..], n).value)
    ensures ok ==> b[p'..] == ParseFlat(b[p..], n).rest && box' == Widen(dbl, box, ParseFlat(b[p..], n).value)
  {
    ghost var all := ParseFlat(b[p..], n);
    ghost var acc: seq<Bytes> := [];
    p', box' := p, box;
    ExtendsNil(all);
    for i := 0 to n
      invariant p <= p' <= |b| && FlatAt(dbl, all, box, acc, b[p'..], n - i, box')
    {
      FlatStep(dbl, all, box, acc, b[p'..], n - i, box');
      var start := p';
      ok, p', box' := ReadPoint(dbl, b, p', box');
      if !ok { return; }
      assert b[start..][..POINT_SIZE] == b[start..p'] && b[start..][POINT_SIZE..] == b[p'..];
      acc := acc + [b[start..p']];
    }
    ok := true;
    ExtendsDone(all, acc, b[p'..]);
  }

  method ReadCount(b: Bytes, p: nat, limit: nat) returns (ok: bool, n: nat, p': nat)
    requires p <= |b|
    ensures ok <==> |b[p..]| >= COUNT_SIZE && FromLE(b[p..][..4]) <= limit
    ensures ok ==> p' == p + COUNT_SIZE && n == FromLE(b[p..][..4]) && b[p'..] == b[p..][4..]
    ensures p <= p' <= |b|
  {
    if p + COUNT_SIZE > |b| { return false, 0, p; }
    p' := p + COUNT_SIZE;
    n := FromLE(b[p..p']);
    assert b[p..][..4] == b[p..p'];
    ok := n <= limit;
  }

  method ReadPoints(dbl: Decode, b: Bytes, p: nat, box: Box) returns (ok: bool, p': nat, box': Box)
    requires p <= |b|
    ensures p <= p' <= |b| && (ok <==> ParsePoints(b[p..]).Ok?)
    ensures ok ==> AllPoints(ParsePoints(b[p..]).value)
    ensures ok ==> b[p'..] == ParsePoints(b[p..]).rest && box' == Widen(dbl, box, ParsePoints(b[p..]).value)
  {
    var n;
    ok, n, p' := ReadCount(b, p, WKB_MAX_POINTS);
    if !ok { return false, p', box; }
    ok, p', box' := ReadFlat(dbl, b, p', n, box);
  }

  lemma RingsOne(b: Bytes, n: nat, acc: seq<seq<Bytes>>, r: Parsed<seq<seq<Bytes>>>)
    requires n > 0 && Extends(r, acc, ParseRings(b, n))
    ensures ParsePoints(b).Fail? ==> r.Fail?
    ensures ParsePoints(b).Ok? ==> Extends(r, acc + [ParsePoints(b).value], ParseRings(ParsePoints(b).rest, n - 1))
  {
    if ParsePoints(b).Ok? && r.Ok? {
      var ring := ParsePoints(b).value;
      var rs := ParseRings(ParsePoints(b).rest, n - 1).value;
      assert acc + ([ring] + rs) == acc + [ring] + rs;
    }
  }

  lemma {:induction false} RingPointsSnoc(rs: seq<seq<Bytes>>, ring: seq<Bytes>)
    requires FitsPoints(ring) && forall i :: 0 <= i < |rs| ==> FitsPoints(rs[i])
    ensures RingPoints(rs + [ring]) == RingPoints(rs) + ring
    decreases |rs|
  {
    if rs == [] {
      assert (rs + [ring])[1..] == [];
      assert RingPoints(rs + [ring]) == ring + RingPoints([]);
    } else {
      RingPointsSnoc(rs[1..], ring);
      assert (rs + [ring])[1..] == rs[1..] + [ring];
    }
  }

  method ReadRings(dbl: Decode, b: Bytes, p: nat, n: nat, box: Box) returns (ok: bool, p': nat, box': Box)
    requires p <= |b|
    ensures p <= p' <= |b| && (ok <==> ParseRings(b[p..], n).Ok?)
    ensures ok ==> forall i :: 0 <= i < |ParseRings(b[p..], n).value| ==> FitsPoints(ParseRings(b[p..], n).value[i])
    ensures ok ==> b[p'..] == ParseRings(b[p..], n).rest && box' == Widen(dbl, box, RingPoints(ParseRings(b[p..], n).value))
  {
    ghost var all := ParseRings(b[p..], n);
    ghost var acc: seq<seq<Bytes>> := [];
    p', box' := p, box;
    ExtendsNil(all);
    for i := 0 to n
      invariant p <= p' <= |b| && forall j :: 0 <= j < |acc| ==> FitsPoints(acc[j])
      invariant box' == Widen(dbl, box, RingPoints(acc))
      invariant Extends(all, acc, ParseRings(b[p'..], n - i))
    {
      RingsOne(b[p'..], n - i, acc, all);
      ghost var ring := ParsePoints(b[p'..]);
      if ring.Ok? { EncParsePoints(b[p'..]); }
      var got;
      got, p', box' := ReadPoints(dbl, b, p', box');
      if !got { return false, p', box'; }
      WidenAppend(dbl, box, RingPoints(acc), ring.value);
      RingPointsSnoc(acc, ring.value);
      acc := acc + [ring.value];
    }
    ok := true;
    ExtendsDone(all, acc, b[p'..]);
  }

  lemma PartsOne(b: Bytes, n: nat, acc: seq<Geom>, r: Parsed<seq<Geom>>)
    requires n > 0 && Extends(r, acc, ParseAll(b, n))
    ensures Parse(b).Fail? ==> r.Fail?
    ensures Parse(b).Ok? ==> Extends(r, acc + [Parse(b).value], ParseAll(Parse(b).rest, n - 1))
  {
    if Parse(b).Ok? && r.Ok? {
      var g := Parse(b).value;
      var gs := ParseAll(Parse(b).rest, n - 1).value;
      assert acc + ([g] + gs) == acc + [g] + gs;
    }
  }

  lemma {:induction false} PartPointsSnoc(gs: seq<Geom>, g: Geom)
    requires Fits(g) && forall i :: 0 <= i < |gs| ==> Fits(gs[i])
    ensures PartPoints(gs + [g]) == PartPoints(gs) + PointsOf(g)
    decreases |gs|
  {
    if gs == [] {
      assert (gs + [g])[1..] == [];
      assert PartPoints(gs + [g]) == PointsOf(g) + PartPoints([]);
    } else {
      PartPointsSnoc(gs[1..], g);
      assert (gs + [g])[1..] == gs[1..] + [g];
    }
  }

  /** wkb_parse_geometry: on any bytes it terminates inside the buffer, accepts
      exactly the encodings, and widens the box by the tree's finite points. */
  method ParseGeometry(dbl: Decode, b: Bytes, p: nat, box: Box) returns (ok: bool, p': nat, box': Box)
    requires p <= |b|
    ensures p <= p' <= |b| && (ok <==> Parse(b[p..]).Ok?)
    ensures ok ==> p' > p && Fits(Parse(b[p..]).value) && b[p'..] == Parse(b[p..]).rest
    ensures ok ==> box' == Widen(dbl, box, PointsOf(Parse(b[p..]).value))
    decreases |b| - p, 1
  {
    ghost var tree := Parse(b[p..]);
    if tree.Ok? { EncParse(b[p..]); }
    if p + HEADER_SIZE > |b| { return false, p, box; }
    var kind := FromLE(b[p + 1..p + 5]);
    p' := p + HEADER_SIZE;
    assert b[p..][1..5] == b[p + 1..p + 5] && b[p..][5..] == b[p'..];
    if kind == 1 {
      ok, p', box' := ReadPoint(dbl, b, p', box);
      if ok {
        assert b[p + 5..][..16] == b[p + 5..p'] && b[p + 5..][16..] == b[p'..];
        assert [b[p + 5..p']][..0] == [];
      }
    } else if kind == 2 {
      ok, p', box' := ReadPoints(dbl, b, p', box);
    } else if kind == 3 {
      var n;
      ok, n, p' := ReadCount(b, p', WKB_MAX_RINGS);
      if !ok { return false, p', box; }
      ok, p', box' := ReadRings(dbl, b, p', n, box);
    } else if 4 <= kind <= 7 {
      var n;
      ok, n, p' := ReadCount(b, p', WKB_MAX_GEOMS);
      if !ok { return false, p', box; }
      ok, p', box' := ReadParts(dbl, b, p', n, box);
    } else {
      return false, p', box;
    }
  }

  // Where the loop over `n` parts stands: `acc` is parsed, `left` parts wait at
  // `rest`, and the box has taken in every point of `acc`.
  ghost predicate PartsAt(dbl: Decode, all: Parsed<seq<Geom>>, box: Box, acc: seq<Geom>, rest: Bytes, left: nat, box': Box) {
    && (forall j :: 0 <= j < |acc| ==> Fits(acc[j]))
    && box' == Widen(dbl, box, PartPoints(acc))
    && Extends(all, acc, ParseAll(rest, left))
  }

  lemma PartsStep(dbl: Decode, all: Parsed<seq<Geom>>, box: Box, acc: seq<Geom>, rest: Bytes, left: nat, box': Box)
    requires left > 0 && PartsAt(dbl, all, box, acc, rest, left, box')
    ensures Parse(rest).Fail? ==> all.Fail?
    ensures Parse(rest).Ok? && Fits(Parse(rest).value) ==>
              var g := Parse(rest).value;
              PartsAt(dbl, all, box, acc + [g], Parse(rest).rest, left - 1, Widen(dbl, box', PointsOf(g)))
  {
    PartsOne(rest, left, acc, all);
    if Parse(rest).Ok? && Fits(Parse(rest).value) {
      var g := Parse(rest).value;
      WidenAppend(dbl, box, PartPoints(acc), PointsOf(g));
      PartPointsSnoc(acc, g);
    }
  }

  lemma PartsStart(dbl: Decode, b: Bytes, n: nat, box: Box)
    ensures PartsAt(dbl, ParseAll(b, n), box, [], b, n, box)
  {
    ExtendsNil(ParseAll(b, n));
  }

  lemma PartsEnd(dbl: Decode, all: Parsed<seq<Geom>>, box: Box, acc: seq<Geom>, rest: Bytes, box': Box)
    requires PartsAt(dbl, all, box, acc, rest, 0, box')
    ensures all == Ok(acc, rest) && (forall j :: 0 <= j < |acc| ==> Fits(acc[j])) && box' == Widen(dbl, box, PartPoints(acc))
  {
    ExtendsDone(all, acc, rest);
  }

  method ReadParts(dbl: Decode, b: Bytes, p: nat, n: nat, box: Box) returns (ok: bool, p': nat, box': Box)
    requires p <= |b|
    ensures p <= p' <= |b| && (ok <==> ParseAll(b[p..], n).Ok?)
    ensures ok ==> forall i :: 0 <= i < |ParseAll(b[p..], n).value| ==> Fits(ParseAll(b[p..], n).value[i])
    ensures ok ==> b[p'..] == ParseAll(b[p..], n).rest && box' == Widen(dbl, box, PartPoints(ParseAll(b[p..], n).value))
    decreases |b| - p, 2
  {
    ghost var all := ParseAll(b[p..], n);
    ghost var acc: seq<Geom> := [];
    p', box' := p, box;
    PartsStart(dbl, b[p..], n, box);
    for i := 0 to n
      invariant p <= p' <= |b| && PartsAt(dbl, all, box, acc, b[p'..], n - i, box')
    {
      PartsStep(dbl, all, box, acc, b[p'..], n - i, box');
      acc := if Parse(b[p'..]).Ok? then acc + [Parse(b[p'..]).value] else acc;
      ok, p', box' := ParseGeometry(dbl, b, p', box');
      if !ok { return; }
    }
    ok := true;
    PartsEnd(dbl, all, box, acc, b[p'..], box');
  }

  // ----- The box is the tight one -----

  // DBL_MAX bounds every finite value read.
  ghost predicate Bounded(dbl: Decode, max: real) {
    max > 0.0 && forall b :: dbl(b).Finite? ==> -max <= dbl(b).r <= max
  }

  predicate FinitePoint(dbl: Decode, p: Bytes)
    requires |p| == POINT_SIZE
  {
    dbl(p[..8]).Finite? && dbl(p[8..]).Finite?
  }

  predicate AnyFinite(dbl: Decode, ps: seq<Bytes>)
    requires AllPoints(ps)
  {
    exists i :: 0 <= i < |ps| && FinitePoint(dbl, ps[i])
  }

  function X(dbl: Decode, p: Bytes): real
    requires |p| == POINT_SIZE && FinitePoint(dbl, p)
  {
    dbl(p[..8]).r
  }

  function Y(dbl: Decode, p: Bytes): real
    requires |p| == POINT_SIZE && FinitePoint(dbl, p)
  {
    dbl(p[8..]).r
  }

  ghost predicate Encloses(dbl: Decode, ps: seq<Bytes>, box: Box)
    requires AllPoints(ps)
  {
    forall i :: 0 <= i < |ps| && FinitePoint(dbl, ps[i]) ==>
      box.mnx <= X(dbl, ps[i]) <= box.mxx && box.mny <= Y(dbl, ps[i]) <= box.mxy
  }

  ghost predicate AtX(dbl: Decode, ps: seq<Bytes>, v: real)
    requires AllPoints(ps)
  {
    exists i :: 0 <= i < |ps| && FinitePoint(dbl, ps[i]) && X(dbl, ps[i]) == v
  }

  ghost predicate AtY(dbl: Decode, ps: seq<Bytes>, v: real)
    requires AllPoints(ps)
  {
    exists i :: 0 <= i < |ps| && FinitePoint(dbl, ps[i]) && Y(dbl, ps[i]) == v
  }

  // Every side passes through one of the points.
  ghost predicate Touches(dbl: Decode, ps: seq<Bytes>, box: Box)
    requires AllPoints(ps)
  {
    AtX(dbl, ps, box.mnx) && AtX(dbl, ps, box.mxx) && AtY(dbl, ps, box.mny) && AtY(dbl, ps, box.mxy)
  }

  function Nothing(max: real): Box { Box(max, max, -max, -max) }

  ghost predicate Tight(dbl: Decode, max: real, ps: seq<Bytes>, box: Box)
    requires AllPoints(ps)
  {
    if AnyFinite(dbl, ps) then Encloses(dbl, ps, box) && Touches(dbl, ps, box) else box == Nothing(max)
  }

  lemma WidenLast(dbl: Decode, max: real, ps: seq<Bytes>, p: Bytes, box: Box)
    requires Bounded(dbl, max) && AllPoints(ps) && |p| == POINT_SIZE && Tight(dbl, max, ps, box)
    ensures Tight(dbl, max, ps + [p], WidenPoint(dbl, box, p))
  {
    var all := ps + [p];
    assert all[|ps|] == p && forall i :: 0 <= i < |ps| ==> all[i] == ps[i];
    if AnyFinite(dbl, all) {
      AtKept(dbl, ps, p);
      EnclosesLast(dbl, max, ps, p, box);
    }
  }

  lemma EnclosesLast(dbl: Decode, max: real, ps: seq<Bytes>, p: Bytes, box: Box)
    requires Bounded(dbl, max) && AllPoints(ps) && |p| == POINT_SIZE && Tight(dbl, max, ps, box)
    ensures Encloses(dbl, ps + [p], WidenPoint(dbl, box, p))
  {
    var all, box' := ps + [p], WidenPoint(dbl, box, p);
    forall i | 0 <= i < |all| && FinitePoint(dbl, all[i])
      ensures box'.mnx <= X(dbl, all[i]) <= box'.mxx && box'.mny <= Y(dbl, all[i]) <= box'.mxy
    {
      if i < |ps| { assert all[i] == ps[i]; }
    }
  }

  lemma {:induction false} WidenTight(dbl: Decode, max: real, ps: seq<Bytes>)
    requires Bounded(dbl, max) && AllPoints(ps)
    ensures Tight(dbl, max, ps, Widen(dbl, Nothing(max), ps))
    decreases |ps|
  {
    if ps != [] {
      var front, last := ps[..|ps| - 1], ps[|ps| - 1];
      WidenTight(dbl, max, front);
      WidenLast(dbl, max, front, last, Widen(dbl, Nothing(max), front));
      assert ps == front + [last];
    }
  }

  lemma AtKept(dbl: Decode, ps: seq<Bytes>, p: Bytes)
    requires AllPoints(ps) && |p| == POINT_SIZE
    ensures forall v :: AtX(dbl, ps, v) ==> AtX(dbl, ps + [p], v)
    ensures forall v :: AtY(dbl, ps, v) ==> AtY(dbl, ps + [p], v)
    ensures FinitePoint(dbl, p) ==> AtX(dbl, ps + [p], X(dbl, p)) && AtY(dbl, ps + [p], Y(dbl, p))
  {
    var all := ps + [p];
    assert forall i :: 0 <= i < |ps| ==> all[i] == ps[i];
    assert all[|ps|] == p;
  }

  // The box of a geometry: every finite point is in it, and every side passes through one.
  ghost predicate Surrounds(dbl: Decode, g: Geom, box: Box) {
    forall p :: HasPoint(g, p) && |p| == POINT_SIZE && FinitePoint(dbl, p) ==>
      box.mnx <= X(dbl, p) <= box.mxx && box.mny <= Y(dbl, p) <= box.mxy
  }

  ghost predicate AtGeomX(dbl: Decode, g: Geom, v: real) {
    exists p :: HasPoint(g, p) && |p| == POINT_SIZE && FinitePoint(dbl, p) && X(dbl, p) == v
  }

  ghost predicate AtGeomY(dbl: Decode, g: Geom, v: real) {
    exists p :: HasPoint(g, p) && |p| == POINT_SIZE && FinitePoint(dbl, p) && Y(dbl, p) == v
  }

  ghost predicate HasFinite(dbl: Decode, g: Geom) {
    exists p :: HasPoint(g, p) && |p| == POINT_SIZE && FinitePoint(dbl, p)
  }

  ghost predicate LeastBox(dbl: Decode, g: Geom, box: Box) {
    && Surrounds(dbl, g, box)
    && AtGeomX(dbl, g, box.mnx) && AtGeomX(dbl, g, box.mxx) && AtGeomY(dbl, g, box.mny) && AtGeomY(dbl, g, box.mxy)
  }

  lemma FiniteIn(dbl: Decode, g: Geom)
    requires Fits(g)
    ensures AnyFinite(dbl, PointsOf(g)) <==> HasFinite(dbl, g)
  {
    forall p ensures p in PointsOf(g) <==> HasPoint(g, p) { PointsOfExactly(g, p); }
    if AnyFinite(dbl, PointsOf(g)) {
      var i :| 0 <= i < |PointsOf(g)| && FinitePoint(dbl, PointsOf(g)[i]);
      assert PointsOf(g)[i] in PointsOf(g);
    }
  }

  lemma AtIn(dbl: Decode, g: Geom, v: real)
    requires Fits(g)
    ensures AtX(dbl, PointsOf(g), v) ==> AtGeomX(dbl, g, v)
    ensures AtY(dbl, PointsOf(g), v) ==> AtGeomY(dbl, g, v)
  {
    forall p ensures p in PointsOf(g) <==> HasPoint(g, p) { PointsOfExactly(g, p); }
    if AtX(dbl, PointsOf(g), v) {
      var i :| 0 <= i < |PointsOf(g)| && FinitePoint(dbl, PointsOf(g)[i]) && X(dbl, PointsOf(g)[i]) == v;
      assert PointsOf(g)[i] in PointsOf(g);
    }
    if AtY(dbl, PointsOf(g), v) {
      var i :| 0 <= i < |PointsOf(g)| && FinitePoint(dbl, PointsOf(g)[i]) && Y(dbl, PointsOf(g)[i]) == v;
      assert PointsOf(g)[i] in PointsOf(g);
    }
  }

  lemma LeastIn(dbl: Decode, g: Geom, box: Box)
    requires Fits(g) && Encloses(dbl, PointsOf(g), box) && Touches(dbl, PointsOf(g), box)
    ensures LeastBox(dbl, g, box)
  {
    AtIn(dbl, g, box.mnx);
    AtIn(dbl, g, box.mxx);
    AtIn(dbl, g, box.mny);
    AtIn(dbl, g, box.mxy);
    forall p | HasPoint(g, p) && |p| == POINT_SIZE && FinitePoint(dbl, p)
      ensures box.mnx <= X(dbl, p) <= box.mxx && box.mny <= Y(dbl, p) <= box.mxy
    {
      PointsOfExactly(g, p);
    }
  }

  /** spatial_compute_mbr: yields a box exactly for a well-formed value that has a
      finite point, and then the least box around its finite points. */
  method ComputeMbr(dbl: Decode, max: real, data: Bytes) returns (ok: bool, box: Box)
    requires Bounded(dbl, max)
    ensures ok <==> |data| >= SRID_SIZE && Parse(data[SRID_SIZE..]).Ok? && HasFinite(dbl, Parse(data[SRID_SIZE..]).value)
    ensures ok ==> Fits(Parse(data[SRID_SIZE..]).value) && LeastBox(dbl, Parse(data[SRID_SIZE..]).value, box)
  {
    box := Nothing(max);
    if |data| < SRID_SIZE + HEADER_SIZE { return false, box; }
    var p;
    ok, p, box := ParseGeometry(dbl, data, SRID_SIZE, box);
    if ok {
      ghost var g := Parse(data[SRID_SIZE..]).value;
      WidenTight(dbl, max, PointsOf(g));
      FiniteIn(dbl, g);
      ok := box.mnx <= box.mxx && box.mny <= box.mxy;
      if ok { LeastIn(dbl, g, box); }
    }
  }

  /** On the encoding of any geometry within the limits, whatever follows it. */
  method MbrOfEncoding(dbl: Decode, max: real, g: Geom, srid: Bytes, rest: Bytes) returns (ok: bool, box: Box)
    requires Bounded(dbl, max) && Fits(g) && |srid| == SRID_SIZE
    ensures ok <==> HasFinite(dbl, g)
    ensures ok ==> LeastBox(dbl, g, box)
  {
    ParseEnc(g, rest);
    assert (srid + (Enc(g) + rest))[SRID_SIZE..] == Enc(g) + rest;
    ok, box := ComputeMbr(dbl, max, srid + (Enc(g) + rest));
  }
}
