/** The wire form of a transaction identifier (XID, section 4.2 of the X/Open XA
    specification) that a prepared batch is logged under. */
module Xid {
  import opened ByteOrder

  const DATA_SIZE := 128
  const MAX_PART := 64
  const HEADER_SIZE := 16
  const I64_MIN := -0x8000_0000_0000_0000
  const I64_LIMIT := 0x8000_0000_0000_0000
  const WORD := 0x1_0000_0000

  // The server's struct: both lengths as it hands them over, and the fixed buffer.
  datatype Id = Id(format: int, gtrid: int, bqual: int, data: Bytes)

  // What the C type can hold.
  predicate Held(x: Id) {
    I64_MIN <= x.format < I64_LIMIT && |x.data| == DATA_SIZE
  }

  predicate LengthsValid(gtrid: int, bqual: int) {
    0 <= gtrid <= MAX_PART && 0 <= bqual <= MAX_PART && gtrid + bqual <= DATA_SIZE
  }

  // Two identifiers name the same transaction: the buffer counts only up to the payload.
  predicate Same(x: Id, y: Id)
    requires Held(x) && Held(y) && LengthsValid(x.gtrid, x.bqual)
  {
    && x.format == y.format && x.gtrid == y.gtrid && x.bqual == y.bqual
    && x.data[..x.gtrid + x.bqual] == y.data[..x.gtrid + x.bqual]
  }

  // ----- Two's complement -----

  function Unsigned(v: int): (u: nat)
    requires I64_MIN <= v < I64_LIMIT
    ensures u < WORD * WORD
  {
    if v < 0 then v + WORD * WORD else v
  }

  function Signed64(u: nat): (v: int)
    requires u < WORD * WORD
    ensures I64_MIN <= v < I64_LIMIT && Unsigned(v) == u
  {
    if u < I64_LIMIT then u else u - WORD * WORD
  }

  function Signed32(u: nat): int
    requires u < WORD
  {
    if u < 0x8000_0000 then u else u - WORD
  }

  lemma Words()
    ensures Pow256(4) == WORD && Pow256(8) == WORD * WORD
  {
    assert Pow256(5) == 256 * Pow256(4) && Pow256(6) == 256 * Pow256(5);
    assert Pow256(7) == 256 * Pow256(6) && Pow256(8) == 256 * Pow256(7);
  }

  // ----- Specification -----

  function Encode(x: Id): (r: Option<Bytes>)
    requires Held(x)
    ensures r.Some? <==> LengthsValid(x.gtrid, x.bqual)
    ensures r.Some? ==> |r.value| == HEADER_SIZE + x.gtrid + x.bqual
  {
    Words();
    if !LengthsValid(x.gtrid, x.bqual) then None
    else Some(LE(8, Unsigned(x.format)) + LE(4, x.gtrid) + LE(4, x.bqual) + x.data[..x.gtrid + x.bqual])
  }

  function Decode(b: Bytes): (r: Option<Id>)
    ensures r.Some? ==> Held(r.value) && LengthsValid(r.value.gtrid, r.value.bqual)
  {
    if |b| < HEADER_SIZE then None
    else
      Words();
      var g, q := Signed32(FromLE(b[8..12])), Signed32(FromLE(b[12..16]));
      if !LengthsValid(g, q) || |b| != HEADER_SIZE + g + q then None
      else Some(Id(Signed64(FromLE(b[..8])), g, q, b[HEADER_SIZE..] + Zeros(DATA_SIZE - g - q)))
  }

  lemma Fields(f: Bytes, g: Bytes, q: Bytes, data: Bytes, b: Bytes)
    requires |f| == 8 && |g| == |q| == 4 && b == f + g + q + data
    ensures b[..8] == f && b[8..12] == g && b[12..16] == q && b[16..] == data
  {
  }

  /** Decoding an encoding gives back the same transaction, with a zero tail. */
  lemma DecodeEncode(x: Id)
    requires Held(x) && LengthsValid(x.gtrid, x.bqual)
    ensures var payload := x.gtrid + x.bqual;
            Decode(Encode(x).value) == Some(x.(data := x.data[..payload] + Zeros(DATA_SIZE - payload)))
  {
    Words();
    var b := Encode(x).value;
    Fields(LE(8, Unsigned(x.format)), LE(4, x.gtrid), LE(4, x.bqual), x.data[..x.gtrid + x.bqual], b);
    FromLEInverse(8, Unsigned(x.format));
    FromLEInverse(4, x.gtrid);
    FromLEInverse(4, x.bqual);
  }

  /** Where each part of an encoding is: the format in eight bytes, the two lengths in
      four each, global before branch, and the payload without its tail. */
  lemma EncodeLayout(x: Id)
    requires Held(x) && LengthsValid(x.gtrid, x.bqual)
    ensures var b := Encode(x).value;
            && FromLE(b[..8]) == (if x.format < 0 then x.format + WORD * WORD else x.format)
            && FromLE(b[8..12]) == x.gtrid && FromLE(b[12..16]) == x.bqual
            && b[16..16 + x.gtrid] == x.data[..x.gtrid] && b[16 + x.gtrid..] == x.data[x.gtrid..x.gtrid + x.bqual]
  {
    Words();
    var b := Encode(x).value;
    Fields(LE(8, Unsigned(x.format)), LE(4, x.gtrid), LE(4, x.bqual), x.data[..x.gtrid + x.bqual], b);
    FromLEInverse(8, Unsigned(x.format));
    FromLEInverse(4, x.gtrid);
    FromLEInverse(4, x.bqual);
  }

  /** Every accepted byte string is the encoding of what it decodes to. */
  lemma EncodeDecode(b: Bytes)
    requires Decode(b).Some?
    ensures Encode(Decode(b).value) == Some(b)
  {
    Words();
    var x := Decode(b).value;
    assert LE(8, Unsigned(x.format)) == b[..8] by { LEInverse(b[..8]); }
    assert LE(4, x.gtrid) == b[8..12] by { LEInverse(b[8..12]); }
    assert LE(4, x.bqual) == b[12..16] by { LEInverse(b[12..16]); }
    assert x.data[..x.gtrid + x.bqual] == b[16..];
    Rejoin(b);
  }

  lemma Rejoin(b: Bytes)
    requires |b| >= HEADER_SIZE
    ensures b == b[..8] + b[8..12] + b[12..16] + b[16..]
  {
  }

  /** Encodings are equal exactly for the same transaction, so comparing bytes
      compares identities. */
  lemma SameBytes(x: Id, y: Id)
    requires Held(x) && Held(y) && LengthsValid(x.gtrid, x.bqual) && LengthsValid(y.gtrid, y.bqual)
    ensures Encode(x) == Encode(y) <==> Same(x, y)
  {
    if Encode(x) == Encode(y) {
      DecodeEncode(x);
      DecodeEncode(y);
      var n := x.gtrid + x.bqual;
      assert (x.data[..n] + Zeros(DATA_SIZE - n))[..n] == x.data[..n];
      assert (y.data[..n] + Zeros(DATA_SIZE - n))[..n] == y.data[..n];
    }
  }

  // ----- The buffer writers -----

  lemma FourBytes(v: nat)
    requires v < WORD
    ensures LE(4, v) == [(v % 256) as byte, (v / 256 % 256) as byte, (v / 0x1_0000 % 256) as byte, (v / 0x100_0000 % 256) as byte]
  {
    assert v / 256 / 256 == v / 0x1_0000;
    assert v / 256 / 256 / 256 == v / 0x100_0000;
    assert LE(4, v) == [(v % 256) as byte] + LE(3, v / 256);
    assert LE(3, v / 256) == [(v / 256 % 256) as byte] + LE(2, v / 256 / 256);
    assert LE(2, v / 256 / 256) == [(v / 256 / 256 % 256) as byte] + LE(1, v / 256 / 256 / 256);
    assert LE(1, v / 0x100_0000) == [(v / 0x100_0000 % 256) as byte] + LE(0, v / 0x100_0000 / 256);
  }

  // `s` with `b` written over it at `p`.
  function Spliced(s: Bytes, p: nat, b: Bytes): (r: Bytes)
    requires p + |b| <= |s|
    ensures |r| == |s|
  {
    s[..p] + b + s[p + |b|..]
  }

  lemma SplicedTwice(s: Bytes, p: nat, a: Bytes, b: Bytes)
    requires p + |a| + |b| <= |s|
    ensures Spliced(Spliced(s, p, a), p + |a|, b) == Spliced(s, p, a + b)
  {
    var t := Spliced(s, p, a);
    assert t[..p + |a|] == s[..p] + a && t[p + |a| + |b|..] == s[p + |a| + |b|..];
  }

  method PutU32(out: array<byte>, p: nat, v: nat)
    requires p + 4 <= out.Length && v < WORD
    modifies out
    ensures Pow256(4) == WORD && out[..] == Spliced(old(out[..]), p, LE(4, v))
  {
    out[p] := (v % 256) as byte;
    out[p + 1] := (v / 256 % 256) as byte;
    out[p + 2] := (v / 0x1_0000 % 256) as byte;
    out[p + 3] := (v / 0x100_0000 % 256) as byte;
    FourBytes(v);
  }

  lemma FromLEWords(a: Bytes, b: Bytes)
    requires |a| == 4
    ensures FromLE(a + b) == FromLE(a) + WORD * FromLE(b)
  {
    var c := a + b;
    assert c[1..][0] == a[1] && c[1..][1..][0] == a[2] && c[1..][1..][1..][0] == a[3];
    assert c[1..][1..][1..][1..] == b && a[1..][1..][1..][1..] == [];
    assert FromLE(c) == a[0] as nat + 256 * FromLE(c[1..]);
    assert FromLE(c[1..]) == a[1] as nat + 256 * FromLE(c[1..][1..]);
    assert FromLE(c[1..][1..]) == a[2] as nat + 256 * FromLE(c[1..][1..][1..]);
    assert FromLE(c[1..][1..][1..]) == a[3] as nat + 256 * FromLE(b);
    assert FromLE(a) == a[0] as nat + 256 * FromLE(a[1..]);
    assert FromLE(a[1..]) == a[1] as nat + 256 * FromLE(a[1..][1..]);
    assert FromLE(a[1..][1..]) == a[2] as nat + 256 * FromLE(a[1..][1..][1..]);
  }

  lemma TwoWords(v: nat)
    requires v < WORD * WORD
    ensures Pow256(4) == WORD && Pow256(8) == WORD * WORD && v / WORD < WORD
    ensures LE(4, v % WORD) + LE(4, v / WORD) == LE(8, v)
  {
    Words();
    var lo, hi := LE(4, v % WORD), LE(4, v / WORD);
    FromLEInverse(4, v % WORD);
    FromLEInverse(4, v / WORD);
    FromLEWords(lo, hi);
    LEInverse(lo + hi);
  }

  method PutU64(out: array<byte>, p: nat, v: nat)
    requires p + 8 <= out.Length && v < WORD * WORD
    modifies out
    ensures Pow256(8) == WORD * WORD && out[..] == Spliced(old(out[..]), p, LE(8, v))
  {
    TwoWords(v);
    PutU32(out, p, v % WORD);
    PutU32(out, p + 4, v / WORD);
    SplicedTwice(old(out[..]), p, LE(4, v % WORD), LE(4, v / WORD));
  }

  /** tdb_xid_serialize: writes the encoding and nothing past it, or nothing at all. */
  method Serialize(x: Id, out: array<byte>) returns (n: nat)
    requires Held(x)
    modifies out
    ensures n == 0 <==> !LengthsValid(x.gtrid, x.bqual) || out.Length < HEADER_SIZE + x.gtrid + x.bqual
    ensures n == 0 ==> out[..] == old(out[..])
    ensures n > 0 ==> n <= out.Length && Encode(x) == Some(out[..n]) && out[n..] == old(out[n..])
  {
    if !LengthsValid(x.gtrid, x.bqual) { return 0; }
    var payload := x.gtrid + x.bqual;
    if out.Length < HEADER_SIZE + payload { return 0; }
    PutHeader(x, out);
    ghost var mid := out[..];
    n := HEADER_SIZE + payload;
    forall i | 0 <= i < payload {
      out[HEADER_SIZE + i] := x.data[i];
    }
    assert out[n..] == mid[n..] == mid[16..][payload..];
    assert out[..16] == mid[..16] && out[16..n] == x.data[..payload];
    assert out[..n] == out[..16] + out[16..n];
  }

  method PutHeader(x: Id, out: array<byte>)
    requires Held(x) && LengthsValid(x.gtrid, x.bqual) && out.Length >= HEADER_SIZE
    modifies out
    ensures Pow256(4) == WORD && Pow256(8) == WORD * WORD
    ensures out[..16] == LE(8, Unsigned(x.format)) + LE(4, x.gtrid) + LE(4, x.bqual)
    ensures out[16..] == old(out[16..])
  {
    PutU64(out, 0, Unsigned(x.format));
    PutU32(out, 8, x.gtrid);
    PutU32(out, 12, x.bqual);
    ghost var f, g, q := LE(8, Unsigned(x.format)), LE(4, x.gtrid), LE(4, x.bqual);
    SplicedTwice(old(out[..]), 0, f, g);
    SplicedTwice(old(out[..]), 0, f + g, q);
    assert out[..] == Spliced(old(out[..]), 0, f + g + q);
  }

  /** tdb_xid_deserialize: fills the 128-byte buffer, the tail zeroed, or leaves it. */
  method Deserialize(b: Bytes, data: array<byte>) returns (ok: bool, format: int, gtrid: int, bqual: int)
    requires data.Length == DATA_SIZE
    modifies data
    ensures ok <==> Decode(b).Some?
    ensures ok ==> Id(format, gtrid, bqual, data[..]) == Decode(b).value
    ensures !ok ==> data[..] == old(data[..])
  {
    format, gtrid, bqual := 0, 0, 0;
    if |b| < HEADER_SIZE { return false, 0, 0, 0; }
    Words();
    var g, q := Signed32(FromLE(b[8..12])), Signed32(FromLE(b[12..16]));
    if !LengthsValid(g, q) || |b| != HEADER_SIZE + g + q { return false, 0, 0, 0; }
    ok, format, gtrid, bqual := true, Signed64(FromLE(b[..8])), g, q;
    forall i | 0 <= i < DATA_SIZE {
      data[i] := 0;
    }
    forall i | 0 <= i < g + q {
      data[i] := b[HEADER_SIZE + i];
    }
    assert data[..] == b[HEADER_SIZE..] + Zeros(DATA_SIZE - g - q);
  }
}
