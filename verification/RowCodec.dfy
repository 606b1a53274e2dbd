/** The self-describing row format, and a row stored under one schema and read under
    another that adds columns at the end or has lost some there. */
module RowCodec {
  import opened ByteOrder

  const ROW_HEADER_MAGIC: byte := 0xFE
  const ROW_HEADER_SIZE := 5

  // ----- Null bits -----

  predicate BitOf(n: nat, k: nat) {
    if k == 0 then n % 2 == 1 else BitOf(n / 2, k - 1)
  }

  function Pow2(m: nat): (p: nat)
    ensures p > 0
  {
    if m == 0 then 1 else 2 * Pow2(m - 1)
  }

  // n |= 1 << k and n &= ~(1 << k), as an m-bit number.
  function PutBit(n: nat, k: nat, on: bool, m: nat): (r: nat)
    requires k < m && n < Pow2(m)
    ensures r < Pow2(m)
    decreases k
  {
    if k == 0 then 2 * (n / 2) + (if on then 1 else 0) else 2 * PutBit(n / 2, k - 1, on, m - 1) + n % 2
  }

  lemma {:induction false} PutBitReads(n: nat, k: nat, on: bool, m: nat, j: nat)
    requires k < m && n < Pow2(m)
    ensures BitOf(PutBit(n, k, on, m), j) == if j == k then on else BitOf(n, j)
    decreases k
  {
    if k > 0 && j > 0 { PutBitReads(n / 2, k - 1, on, m - 1, j - 1); }
  }

  predicate IsSet(b: byte, k: nat) { BitOf(b as int, k) }

  lemma ByteBits()
    ensures Pow2(8) == 256
  {
    assert Pow2(4) == 16;
    assert Pow2(6) == 64;
  }

  function WithBit(b: byte, k: nat, on: bool): byte
    requires k < 8
  {
    ByteBits();
    PutBit(b as int, k, on, 8) as byte
  }

  lemma WithBitReads(b: byte, k: nat, on: bool, j: nat)
    requires k < 8
    ensures IsSet(WithBit(b, k, on), j) == if j == k then on else IsSet(b, j)
  {
    ByteBits();
    PutBitReads(b as int, k, on, 8, j);
  }

  // ----- Schemas and records -----

  // A column: its null bit, and how its values are stored. A column with a width is
  // copied; the packing of any other is the server's, told only where the bytes start.
  datatype Field = Field(nullable: bool, nullByte: nat, nullBit: nat, width: Option<nat>,
                         valid: Bytes -> bool, pack: Bytes -> Bytes, unpack: Bytes -> Option<(Bytes, nat)>)

  function Packed(f: Field, v: Bytes): Bytes { if f.width.Some? then v else f.pack(v) }

  // The value read and the bytes it took, which for a packed column may be more than
  // there are: only a copied one is held against the end.
  function Read(f: Field, data: Bytes): Option<(Bytes, nat)> {
    if f.width.None? then f.unpack(data)
    else if |data| < f.width.value then None else Some((data[..f.width.value], f.width.value))
  }

  // A record buffer: the null bitmap and one slot a column.
  datatype Record = Record(nulls: Bytes, vals: seq<Bytes>)

  datatype Schema = Schema(fields: seq<Field>, nullBytes: nat, defaults: Record)

  // Stored values are not empty and end by themselves.
  predicate ReadsOne(f: Field, v: Bytes, rest: Bytes) {
    f.valid(v) ==> Packed(f, v) != [] && Read(f, Packed(f, v) + rest) == Some((v, |Packed(f, v)|))
  }

  ghost predicate Packs(f: Field) { forall v, rest :: ReadsOne(f, v, rest) }

  /** Of a copied column this asks exactly that its values have its width. */
  lemma CopiedPacks(f: Field)
    requires f.width.Some?
    ensures Packs(f) <==> forall v :: f.valid(v) ==> |v| == f.width.value > 0
  {
    forall v: Bytes, rest: Bytes ensures ReadsOne(f, v, rest) <==> (f.valid(v) ==> |v| == f.width.value > 0) {
      if |v| == f.width.value { assert (v + rest)[..|v|] == v; }
    }
    if Packs(f) {
      forall v | f.valid(v) ensures |v| == f.width.value > 0 { assert ReadsOne(f, v, []); }
    }
  }

  predicate Shaped(s: Schema, rec: Record) { |rec.nulls| == s.nullBytes && |rec.vals| == |s.fields| }

  ghost predicate SchemaOk(s: Schema) {
    && s.nullBytes < 0x1_0000 && |s.fields| < 0x1_0000 && Shaped(s, s.defaults)
    && (forall i :: 0 <= i < |s.fields| ==> Packs(s.fields[i]))
    && (forall i :: 0 <= i < |s.fields| && s.fields[i].nullable ==> s.fields[i].nullByte < s.nullBytes && s.fields[i].nullBit < 8)
    && (forall i, j :: 0 <= i < j < |s.fields| && s.fields[i].nullable && s.fields[j].nullable ==>
          s.fields[i].nullByte != s.fields[j].nullByte || s.fields[i].nullBit != s.fields[j].nullBit)
  }

  predicate IsNull(f: Field, nulls: Bytes) {
    f.nullable && f.nullByte < |nulls| && IsSet(nulls[f.nullByte], f.nullBit)
  }

  predicate RecordOk(s: Schema, rec: Record) {
    Shaped(s, rec) && forall i :: 0 <= i < |s.fields| && !IsNull(s.fields[i], rec.nulls) ==> s.fields[i].valid(rec.vals[i])
  }

  // ----- The format -----

  function PackFrom(fs: seq<Field>, rec: Record, i: nat): Bytes
    requires i <= |fs| == |rec.vals|
    decreases |fs| - i
  {
    if i == |fs| then []
    else (if IsNull(fs[i], rec.nulls) then [] else Packed(fs[i], rec.vals[i])) + PackFrom(fs, rec, i + 1)
  }

  function Encode(s: Schema, rec: Record): Bytes
    requires s.nullBytes < 0x1_0000 && |s.fields| < 0x1_0000 && Shaped(s, rec)
  {
    assert Pow256(2) == 0x1_0000;
    [ROW_HEADER_MAGIC] + LE(2, s.nullBytes) + LE(2, |s.fields|) + rec.nulls + PackFrom(s.fields, rec, 0)
  }

  // The default value and null bit of every column from `i` on.
  function Fill(s: Schema, rec: Record, i: nat): (r: Record)
    requires i <= |s.fields| && Shaped(s, rec) && Shaped(s, s.defaults)
    requires forall j :: 0 <= j < |s.fields| && s.fields[j].nullable ==> s.fields[j].nullByte < s.nullBytes && s.fields[j].nullBit < 8
    ensures Shaped(s, r)
    decreases |s.fields| - i
  {
    if i == |s.fields| then rec
    else
      var f := s.fields[i];
      var nulls := if f.nullable then rec.nulls[f.nullByte := WithBit(rec.nulls[f.nullByte], f.nullBit, IsNull(f, s.defaults.nulls))]
                   else rec.nulls;
      Fill(s, Record(nulls, rec.vals[i := s.defaults.vals[i]]), i + 1)
  }

  // What is left from `k` on: nothing, when a value was read past the end.
  function From(data: Bytes, k: nat): Bytes { if k > |data| then [] else data[k..] }

  // Unpacks columns `i` up to `n`, stopping where the bytes run out.
  function UnpackFrom(fs: seq<Field>, rec: Record, i: nat, n: nat, data: Bytes): (r: Record)
    requires i <= n <= |fs| == |rec.vals|
    ensures r.nulls == rec.nulls && |r.vals| == |rec.vals|
    decreases n - i
  {
    if i == n then rec
    else if IsNull(fs[i], rec.nulls) then UnpackFrom(fs, rec, i + 1, n, data)
    else if data == [] then rec
    else
      match Read(fs[i], data)
      case None => rec
      case Some((v, k)) => UnpackFrom(fs, rec.(vals := rec.vals[i := v]), i + 1, n, From(data, k))
  }

  function Min(a: nat, b: nat): nat { if a < b then a else b }

  // memset of the whole record.
  function Blank(s: Schema, buf: Record): Record
    requires Shaped(s, buf)
  {
    Record(Zeros(s.nullBytes), seq(|buf.vals|, i requires 0 <= i < |buf.vals| => Zeros(|buf.vals[i]|)))
  }

  // The stored bitmap as far as the schema has one, the default's beyond it.
  function StoredNulls(s: Schema, stored: Bytes): (nulls: Bytes)
    requires |s.defaults.nulls| == s.nullBytes
    ensures |nulls| == s.nullBytes
  {
    var n := Min(|stored|, s.nullBytes);
    stored[..n] + s.defaults.nulls[n..]
  }

  // The record after the bitmap and the added columns' defaults, before unpacking.
  ghost function Prepared(s: Schema, buf: Record, stored: Bytes, fields: nat): (r: Record)
    requires SchemaOk(s) && Shaped(s, buf)
    ensures Shaped(s, r)
  {
    var rec := Record(StoredNulls(s, stored), buf.vals);
    if fields < |s.fields| then Fill(s, rec, fields) else rec
  }

  ghost function Decode(s: Schema, buf: Record, row: Bytes): (r: Record)
    requires SchemaOk(s) && Shaped(s, buf)
    ensures Shaped(s, r)
  {
    if |row| < ROW_HEADER_SIZE || row[0] != ROW_HEADER_MAGIC then Blank(s, buf)
    else
      var nb, fc, rest := FromLE(row[1..3]), FromLE(row[3..5]), row[5..];
      if |rest| < nb then buf
      else UnpackFrom(s.fields, Prepared(s, buf, rest[..nb], fc), 0, Min(fc, |s.fields|), rest[nb..])
  }

  // ----- Reading a row under another schema -----

  // Filling the columns from `i` on gives them their defaults and leaves the others alone.
  lemma {:induction false} FillReads(s: Schema, rec: Record, i: nat, j: nat)
    requires SchemaOk(s) && i <= |s.fields| && j < |s.fields| && Shaped(s, rec)
    ensures var r := Fill(s, rec, i);
            if i <= j then r.vals[j] == s.defaults.vals[j] && IsNull(s.fields[j], r.nulls) == IsNull(s.fields[j], s.defaults.nulls)
            else r.vals[j] == rec.vals[j] && IsNull(s.fields[j], r.nulls) == IsNull(s.fields[j], rec.nulls)
    decreases |s.fields| - i
  {
    if i < |s.fields| {
      var f := s.fields[i];
      var on := IsNull(f, s.defaults.nulls);
      var nulls := if f.nullable then rec.nulls[f.nullByte := WithBit(rec.nulls[f.nullByte], f.nullBit, on)] else rec.nulls;
      if f.nullable { WithBitReads(rec.nulls[f.nullByte], f.nullBit, on, s.fields[j].nullBit); }
      var next := Record(nulls, rec.vals[i := s.defaults.vals[i]]);
      FillReads(s, next, i + 1, j);
      if i == j { FillKeeps(s, next, i + 1, j); }
    }
  }

  lemma {:induction false} FillKeeps(s: Schema, rec: Record, i: nat, j: nat)
    requires SchemaOk(s) && j < i <= |s.fields| && Shaped(s, rec)
    ensures Fill(s, rec, i).vals[j] == rec.vals[j] && IsNull(s.fields[j], Fill(s, rec, i).nulls) == IsNull(s.fields[j], rec.nulls)
    decreases |s.fields| - i
  {
    if i < |s.fields| {
      var f := s.fields[i];
      var on := IsNull(f, s.defaults.nulls);
      var nulls := if f.nullable then rec.nulls[f.nullByte := WithBit(rec.nulls[f.nullByte], f.nullBit, on)] else rec.nulls;
      if f.nullable { WithBitReads(rec.nulls[f.nullByte], f.nullBit, on, s.fields[j].nullBit); }
      FillKeeps(s, Record(nulls, rec.vals[i := s.defaults.vals[i]]), i + 1, j);
    }
  }

  // Column `k` is the same in both field lists, null in both or in neither, and the
  // stored value can be read back.
  ghost predicate AlikeAt(fs: seq<Field>, rec: Record, gs: seq<Field>, nulls: Bytes, k: nat) {
    && k < |fs| == |rec.vals| && k < |gs| && fs[k] == gs[k] && Packs(fs[k])
    && IsNull(fs[k], rec.nulls) == IsNull(fs[k], nulls) && (!IsNull(fs[k], rec.nulls) ==> fs[k].valid(rec.vals[k]))
  }

  ghost predicate Alike(fs: seq<Field>, rec: Record, gs: seq<Field>, nulls: Bytes, n: nat) {
    forall k :: 0 <= k < n ==> AlikeAt(fs, rec, gs, nulls, k)
  }

  // Unpacking what was packed, for the columns the two schemas share.
  lemma {:induction false} UnpackReads(fs: seq<Field>, rec: Record, gs: seq<Field>, out: Record, i: nat, n: nat, j: nat)
    requires i <= n <= |fs| == |rec.vals| && n <= |gs| == |out.vals| && j < |gs| && Alike(fs, rec, gs, out.nulls, n)
    ensures var r := UnpackFrom(gs, out, i, n, PackFrom(fs, rec, i));
            if i <= j < n && !IsNull(fs[j], rec.nulls) then r.vals[j] == rec.vals[j] else r.vals[j] == out.vals[j]
    decreases n - i
  {
    if i < n {
      UnpackOne(fs, rec, gs, out, i, n);
      UnpackReads(fs, rec, gs, if IsNull(fs[i], rec.nulls) then out else out.(vals := out.vals[i := rec.vals[i]]), i + 1, n, j);
    }
  }

  lemma UnpackOne(fs: seq<Field>, rec: Record, gs: seq<Field>, out: Record, i: nat, n: nat)
    requires i < n <= |fs| == |rec.vals| && n <= |gs| == |out.vals| && AlikeAt(fs, rec, gs, out.nulls, i)
    ensures UnpackFrom(gs, out, i, n, PackFrom(fs, rec, i)) ==
              UnpackFrom(gs, if IsNull(fs[i], rec.nulls) then out else out.(vals := out.vals[i := rec.vals[i]]), i + 1, n,
                         PackFrom(fs, rec, i + 1))
  {
    var rest := PackFrom(fs, rec, i + 1);
    if IsNull(fs[i], rec.nulls) {
      assert [] + rest == rest;
    } else {
      var p := Packed(fs[i], rec.vals[i]);
      assert ReadsOne(fs[i], rec.vals[i], rest);
      assert (p + rest)[|p|..] == rest;
    }
  }

  // One field list is a prefix of the other: columns were only added or dropped at the end.
  ghost predicate SharesPrefix(s1: Schema, s2: Schema) {
    var n := Min(|s1.fields|, |s2.fields|);
    s1.fields[..n] == s2.fields[..n]
  }

  lemma HeaderReads(s: Schema, rec: Record)
    requires SchemaOk(s) && Shaped(s, rec)
    ensures var row := Encode(s, rec);
            && |row| >= ROW_HEADER_SIZE && row[0] == ROW_HEADER_MAGIC
            && FromLE(row[1..3]) == s.nullBytes && FromLE(row[3..5]) == |s.fields|
            && row[5..] == rec.nulls + PackFrom(s.fields, rec, 0)
  {
    assert Pow256(2) == 0x1_0000;
    var row, body := Encode(s, rec), PackFrom(s.fields, rec, 0);
    FromLEInverse(2, s.nullBytes);
    FromLEInverse(2, |s.fields|);
    assert row[1..3] == LE(2, s.nullBytes) && row[3..5] == LE(2, |s.fields|);
    assert row[5..] == rec.nulls + body;
  }

  // Before unpacking, every shared column has its stored null bit and every added one
  // its default.
  lemma PreparedReads(s1: Schema, s2: Schema, rec: Record, buf: Record, j: nat)
    requires SchemaOk(s1) && SchemaOk(s2) && SharesPrefix(s1, s2) && Shaped(s1, rec) && Shaped(s2, buf) && j < |s2.fields|
    ensures var r, f := Prepared(s2, buf, rec.nulls, |s1.fields|), s2.fields[j];
            if j < |s1.fields| then IsNull(f, r.nulls) == IsNull(f, rec.nulls)
            else r.vals[j] == s2.defaults.vals[j] && IsNull(f, r.nulls) == IsNull(f, s2.defaults.nulls)
  {
    var nulls := StoredNulls(s2, rec.nulls);
    var start := Record(nulls, buf.vals);
    if j < |s1.fields| {
      assert s1.fields[j] == s1.fields[..Min(|s1.fields|, |s2.fields|)][j] == s2.fields[j];
    }
    if |s1.fields| < |s2.fields| { FillReads(s2, start, |s1.fields|, j); }
  }

  /** A row stored under one schema and read under another whose field list extends or
      cuts it at the end: the shared columns have their stored value and null bit, the
      added ones their default value and null bit. Equal schemas give a round trip. */
  lemma ReadsBack(s1: Schema, s2: Schema, rec: Record, buf: Record, j: nat)
    requires SchemaOk(s1) && SchemaOk(s2) && SharesPrefix(s1, s2) && RecordOk(s1, rec) && Shaped(s2, buf) && j < |s2.fields|
    ensures var out, f := Decode(s2, buf, Encode(s1, rec)), s2.fields[j];
            if j < |s1.fields| then
              IsNull(f, out.nulls) == IsNull(f, rec.nulls) && (!IsNull(f, rec.nulls) ==> out.vals[j] == rec.vals[j])
            else out.vals[j] == s2.defaults.vals[j] && IsNull(f, out.nulls) == IsNull(f, s2.defaults.nulls)
  {
    DecodeIs(s1, s2, rec, buf);
    SharedAlike(s1, s2, rec, buf);
    PreparedReads(s1, s2, rec, buf, j);
    UnpackReads(s1.fields, rec, s2.fields, Prepared(s2, buf, rec.nulls, |s1.fields|), 0, Min(|s1.fields|, |s2.fields|), j);
  }

  lemma DecodeIs(s1: Schema, s2: Schema, rec: Record, buf: Record)
    requires SchemaOk(s1) && SchemaOk(s2) && Shaped(s1, rec) && Shaped(s2, buf)
    ensures Decode(s2, buf, Encode(s1, rec)) ==
              UnpackFrom(s2.fields, Prepared(s2, buf, rec.nulls, |s1.fields|), 0, Min(|s1.fields|, |s2.fields|), PackFrom(s1.fields, rec, 0))
  {
    HeaderReads(s1, rec);
    var row, body := Encode(s1, rec), PackFrom(s1.fields, rec, 0);
    assert row[5..][..s1.nullBytes] == rec.nulls && row[5..][s1.nullBytes..] == body;
  }

  lemma SharedAlike(s1: Schema, s2: Schema, rec: Record, buf: Record)
    requires SchemaOk(s1) && SchemaOk(s2) && SharesPrefix(s1, s2) && RecordOk(s1, rec) && Shaped(s2, buf)
    ensures Alike(s1.fields, rec, s2.fields, Prepared(s2, buf, rec.nulls, |s1.fields|).nulls, Min(|s1.fields|, |s2.fields|))
  {
    var n := Min(|s1.fields|, |s2.fields|);
    forall k | 0 <= k < n
      ensures AlikeAt(s1.fields, rec, s2.fields, Prepared(s2, buf, rec.nulls, |s1.fields|).nulls, k)
    {
      assert s1.fields[..n][k] == s2.fields[..n][k];
      PreparedReads(s1, s2, rec, buf, k);
    }
  }

  // ----- Rows that are not whole -----

  /** A short or foreign header blanks the record: no column null, every byte zero. */
  lemma BadHeaderBlanks(s: Schema, buf: Record, row: Bytes, j: nat)
    requires SchemaOk(s) && Shaped(s, buf) && j < |s.fields| && (|row| < ROW_HEADER_SIZE || row[0] != ROW_HEADER_MAGIC)
    ensures var out := Decode(s, buf, row);
            !IsNull(s.fields[j], out.nulls) && |out.vals[j]| == |buf.vals[j]| && forall i :: 0 <= i < |out.vals[j]| ==> out.vals[j][i] == 0
  {
    NoBits(s.fields[j].nullBit);
  }

  lemma {:induction false} NoBits(k: nat)
    ensures !BitOf(0, k)
  {
    if k > 0 { NoBits(k - 1); }
  }

  // Columns `i` up to `m`, packed.
  function PackUpTo(fs: seq<Field>, rec: Record, i: nat, m: nat): Bytes
    requires i <= m <= |fs| == |rec.vals|
    decreases m - i
  {
    if i == m then [] else (if IsNull(fs[i], rec.nulls) then [] else Packed(fs[i], rec.vals[i])) + PackUpTo(fs, rec, i + 1, m)
  }

  lemma {:induction false} PackWhole(fs: seq<Field>, rec: Record, i: nat)
    requires i <= |fs| == |rec.vals|
    ensures PackUpTo(fs, rec, i, |fs|) == PackFrom(fs, rec, i)
    decreases |fs| - i
  {
    if i < |fs| { PackWhole(fs, rec, i + 1); }
  }

  // Past the cut nothing is read.
  lemma {:induction false} NothingLeft(fs: seq<Field>, out: Record, i: nat)
    requires i <= |fs| == |out.vals|
    ensures UnpackFrom(fs, out, i, |fs|, []) == out
    decreases |fs| - i
  {
    if i < |fs| && IsNull(fs[i], out.nulls) { NothingLeft(fs, out, i + 1); }
  }

  lemma {:induction false} CutReads(fs: seq<Field>, rec: Record, out: Record, i: nat, m: nat, j: nat, r: Record)
    requires i <= m <= |fs| == |rec.vals| == |out.vals| && j < |fs| && Alike(fs, rec, fs, out.nulls, m)
    requires r == UnpackFrom(fs, out, i, |fs|, PackUpTo(fs, rec, i, m))
    ensures |r.vals| == |fs|
    ensures r.vals[j] == if i <= j < m && !IsNull(fs[j], rec.nulls) then rec.vals[j] else out.vals[j]
    decreases m - i
  {
    if i == m {
      NothingLeft(fs, out, i);
    } else {
      CutOne(fs, rec, out, i, m);
      CutReads(fs, rec, After(fs, rec, out, i), i + 1, m, j, r);
    }
  }

  // The record once column `i` is read back.
  function After(fs: seq<Field>, rec: Record, out: Record, i: nat): (r: Record)
    requires i < |fs| == |rec.vals| == |out.vals|
    ensures r.nulls == out.nulls && |r.vals| == |out.vals|
  {
    if IsNull(fs[i], rec.nulls) then out else out.(vals := out.vals[i := rec.vals[i]])
  }

  lemma CutOne(fs: seq<Field>, rec: Record, out: Record, i: nat, m: nat)
    requires i < m <= |fs| == |rec.vals| == |out.vals| && AlikeAt(fs, rec, fs, out.nulls, i)
    ensures UnpackFrom(fs, out, i, |fs|, PackUpTo(fs, rec, i, m)) ==
              UnpackFrom(fs, After(fs, rec, out, i), i + 1, |fs|, PackUpTo(fs, rec, i + 1, m))
  {
    var rest := PackUpTo(fs, rec, i + 1, m);
    if IsNull(fs[i], rec.nulls) {
      assert [] + rest == rest;
    } else {
      var p := Packed(fs[i], rec.vals[i]);
      assert ReadsOne(fs[i], rec.vals[i], rest);
      assert (p + rest)[|p|..] == rest;
    }
  }

  // The row cut off after column `m`.
  function CutRow(s: Schema, rec: Record, m: nat): Bytes
    requires s.nullBytes < 0x1_0000 && |s.fields| < 0x1_0000 && Shaped(s, rec) && m <= |s.fields|
  {
    assert Pow256(2) == 0x1_0000;
    [ROW_HEADER_MAGIC] + LE(2, s.nullBytes) + LE(2, |s.fields|) + rec.nulls + PackUpTo(s.fields, rec, 0, m)
  }

  lemma CutDecodes(s: Schema, rec: Record, buf: Record, m: nat)
    requires SchemaOk(s) && Shaped(s, rec) && Shaped(s, buf) && m <= |s.fields|
    ensures Decode(s, buf, CutRow(s, rec, m)) ==
              UnpackFrom(s.fields, Record(StoredNulls(s, rec.nulls), buf.vals), 0, |s.fields|, PackUpTo(s.fields, rec, 0, m))
  {
    assert Pow256(2) == 0x1_0000;
    var row, body := CutRow(s, rec, m), PackUpTo(s.fields, rec, 0, m);
    FromLEInverse(2, s.nullBytes);
    FromLEInverse(2, |s.fields|);
    assert row[1..3] == LE(2, s.nullBytes) && row[3..5] == LE(2, |s.fields|);
    assert row[5..] == rec.nulls + body;
    assert row[5..][..s.nullBytes] == rec.nulls && row[5..][s.nullBytes..] == body;
  }

  /** A row cut off between two columns: those before the cut read back, those after it
      keep what the buffer held, and every null bit is the stored one. */
  lemma CutRowReads(s: Schema, rec: Record, buf: Record, m: nat, j: nat)
    requires SchemaOk(s) && RecordOk(s, rec) && Shaped(s, buf) && m <= |s.fields| && j < |s.fields|
    ensures var out, f := Decode(s, buf, CutRow(s, rec, m)), s.fields[j];
            && IsNull(f, out.nulls) == IsNull(f, rec.nulls)
            && out.vals[j] == (if j < m && !IsNull(f, rec.nulls) then rec.vals[j] else buf.vals[j])
    ensures m == |s.fields| ==> CutRow(s, rec, m) == Encode(s, rec)
  {
    PackWhole(s.fields, rec, 0);
    CutDecodes(s, rec, buf, m);
    var nulls := StoredNulls(s, rec.nulls);
    assert nulls == rec.nulls;
    assert Alike(s.fields, rec, s.fields, nulls, m);
    CutReads(s.fields, rec, Record(nulls, buf.vals), 0, m, j, Decode(s, buf, CutRow(s, rec, m)));
  }

  // ----- As the plugin runs it -----

  method SerializeRow(s: Schema, rec: Record) returns (row: Bytes)
    requires s.nullBytes < 0x1_0000 && |s.fields| < 0x1_0000 && Shaped(s, rec)
    ensures row == Encode(s, rec)
  {
    assert Pow256(2) == 0x1_0000;
    row := [ROW_HEADER_MAGIC] + LE(2, s.nullBytes) + LE(2, |s.fields|) + rec.nulls;
    ghost var whole := row + PackFrom(s.fields, rec, 0);
    for i := 0 to |s.fields|
      invariant row + PackFrom(s.fields, rec, i) == whole
    {
      ghost var rest := PackFrom(s.fields, rec, i + 1);
      if IsNull(s.fields[i], rec.nulls) {
        assert [] + rest == rest;
        continue;
      }
      var p := Packed(s.fields[i], rec.vals[i]);
      assert row + (p + rest) == row + p + rest;
      row := row + p;
    }
    assert row + [] == row;
  }

  method FillDefaults(s: Schema, rec: Record, from: nat) returns (r: Record)
    requires SchemaOk(s) && Shaped(s, rec) && from <= |s.fields|
    ensures r == Fill(s, rec, from)
  {
    r := rec;
    for i := from to |s.fields|
      invariant Shaped(s, r) && Fill(s, r, i) == Fill(s, rec, from)
    {
      var f := s.fields[i];
      var nulls := r.nulls;
      if f.nullable {
        nulls := nulls[f.nullByte := WithBit(nulls[f.nullByte], f.nullBit, IsNull(f, s.defaults.nulls))];
      }
      r := Record(nulls, r.vals[i := s.defaults.vals[i]]);
    }
  }

  method UnpackFields(s: Schema, rec: Record, n: nat, data: Bytes) returns (r: Record)
    requires SchemaOk(s) && Shaped(s, rec) && n <= |s.fields|
    ensures r == UnpackFrom(s.fields, rec, 0, n, data)
  {
    r := rec;
    var rest := data;
    for i := 0 to n
      invariant Shaped(s, r)
      invariant UnpackFrom(s.fields, r, i, n, rest) == UnpackFrom(s.fields, rec, 0, n, data)
    {
      if IsNull(s.fields[i], r.nulls) { continue; }
      if rest == [] { return; }
      var got := Read(s.fields[i], rest);
      if got.None? { return; }
      r := r.(vals := r.vals[i := got.value.0]);
      rest := From(rest, got.value.1);
    }
  }

  method DeserializeRow(s: Schema, buf: Record, row: Bytes) returns (r: Record)
    requires SchemaOk(s) && Shaped(s, buf)
    ensures r == Decode(s, buf, row)
  {
    if |row| < ROW_HEADER_SIZE || row[0] != ROW_HEADER_MAGIC { return Blank(s, buf); }
    var nb, fc := FromLE(row[1..3]), FromLE(row[3..5]);
    var rest := row[5..];
    if |rest| < nb { return buf; }
    r := Record(StoredNulls(s, rest[..nb]), buf.vals);
    if fc < |s.fields| { r := FillDefaults(s, r, fc); }
    r := UnpackFields(s, r, Min(fc, |s.fields|), rest[nb..]);
  }

  /** The guard of an instant DROP COLUMN: it passes exactly when the remaining columns
      are the first ones of the table, the case ReadsBack covers. */
  method TrailingDropOnly(names: seq<string>, altered: seq<string>) returns (ok: bool)
    ensures ok <==> altered <= names
  {
    for i := 0 to |altered|
      invariant i <= |names| && altered[..i] == names[..i]
    {
      if i >= |names| || altered[i] != names[i] { return false; }
    }
    ok := true;
  }
}
