/** Reverse reads: index_read_map with one of the four backward flags, on the primary
    key and on a secondary index, and which row comes back. */
module ReverseSeek {
  import opened ByteOrder

  const KEY_INF_HI_BYTE: byte := 0xFF

  datatype Flag = KeyOrPrev | BeforeKey | PrefixLast | PrefixLastOrPrev

  // The pushed index condition's answer for an entry.
  datatype Verdict = Pos | Neg | OutOfRange | Abort

  datatype Got = Row(i: nat) | NotFound | EndOfFile | Aborted

  // ----- Padded bounds -----

  function Pad(n: nat): (b: Bytes)
    ensures |b| == n && forall i :: 0 <= i < n ==> b[i] == KEY_INF_HI_BYTE
  {
    seq(n, i => KEY_INF_HI_BYTE)
  }

  /** A key with the prefix sorts above the padded prefix exactly when it extends it. */
  lemma {:induction false} AbovePad(k: Bytes, p: Bytes, n: nat)
    requires HasPrefix(k, p)
    ensures Less(p + Pad(n), k) <==> HasPrefix(k, p + Pad(n)) && |k| > |p| + n
    decreases |p| + n
  {
    var top := p + Pad(n);
    if top != [] && k != [] {
      PrefixTail(k, top);
      if p == [] {
        assert top[1..] == [] + Pad(n - 1) && HasPrefix(k[1..], []);
        AbovePad(k[1..], [], n - 1);
      } else {
        PrefixTail(k, p);
        assert top[1..] == p[1..] + Pad(n);
        AbovePad(k[1..], p[1..], n);
      }
    }
  }

  // A key not above the padded prefix has it or sorts below it.
  lemma UnderPad(k: Bytes, p: Bytes, n: nat)
    requires !Less(p + Pad(n), k)
    ensures HasPrefix(k, p) <==> !Less(k, p)
  {
    var top := p + Pad(n);
    assert HasPrefix(top, p);
    LessTotal(k, top);
    if HasPrefix(k, p) {
      PrefixNotLess(k, p);
    } else if k != top && !Less(k, p) {
      PrefixContiguous(p, k, top);
    }
  }

  // And a key below the prefix is below the padded prefix.
  lemma BelowPad(k: Bytes, p: Bytes, n: nat)
    requires Less(k, p)
    ensures !Less(p + Pad(n), k) && !HasPrefix(k, p)
  {
    var top := p + Pad(n);
    assert HasPrefix(top, p);
    PrefixNotLess(top, p);
    if Less(top, k) { LessTransitive(top, k, p); }
    if HasPrefix(k, p) { PrefixNotLess(k, p); }
  }

  // ----- The primary key -----

  // The data column family: every row's key has the full length.
  ghost predicate DataFamily(ks: seq<Bytes>, full: nat) {
    SortedKeys(ks) && forall i :: 0 <= i < |ks| && IsDataKey(ks[i]) ==> |ks[i]| == 1 + full
  }

  function SeekKey(comp: Bytes): Bytes { [KEY_NS_DATA] + comp }

  function Bound(comp: Bytes, full: nat): Bytes
    requires |comp| <= full
  {
    SeekKey(comp) + Pad(full - |comp|)
  }

  // iter_read_current from position `i`, or from an iterator that is not valid: the
  // first row from there on, metadata stepped over forwards.
  function Current(ks: seq<Bytes>, i: int): Got
    requires i <= |ks|
    decreases |ks| - i
  {
    if i < 0 || i == |ks| then EndOfFile else if IsDataKey(ks[i]) then Row(i) else Current(ks, i + 1)
  }

  // Only a full key steps over its own entry, and only for BeforeKey.
  predicate Strict(comp: Bytes, full: nat, flag: Flag) { |comp| == full && flag == BeforeKey }

  predicate Guarded(comp: Bytes, full: nat, flag: Flag) { |comp| < full && flag == PrefixLast }

  function Landing(ks: seq<Bytes>, comp: Bytes, full: nat, flag: Flag): (i: int)
    requires |comp| <= full
    ensures -1 <= i < |ks|
  {
    var i := SeekForPrev(ks, Bound(comp, full));
    if Strict(comp, full, flag) && i >= 0 && ks[i] == SeekKey(comp) then i - 1 else i
  }

  function ReadReverse(ks: seq<Bytes>, comp: Bytes, full: nat, flag: Flag): Got
    requires |comp| <= full
  {
    var i := Landing(ks, comp, full, flag);
    if Guarded(comp, full, flag) && i >= 0 && !HasPrefix(ks[i], SeekKey(comp)) then NotFound else Current(ks, i)
  }

  method ReadCurrent(ks: seq<Bytes>, at: int) returns (got: Got)
    requires at <= |ks|
    ensures got == Current(ks, at)
  {
    var i := at;
    while 0 <= i < |ks|
      invariant i <= |ks| && Current(ks, i) == Current(ks, at)
      decreases |ks| - i
    {
      if IsDataKey(ks[i]) { return Row(i); }
      i := i + 1;
    }
    got := EndOfFile;
  }

  method IndexReadReverse(ks: seq<Bytes>, comp: Bytes, full: nat, flag: Flag) returns (got: Got)
    requires |comp| <= full
    ensures got == ReadReverse(ks, comp, full, flag)
  {
    var seekKey := [KEY_NS_DATA] + comp;
    var i;
    if |comp| < full {
      var upper := seekKey + Pad(full - |comp|);
      i := SeekForPrev(ks, upper);
      if flag == PrefixLast && i >= 0 {
        if |ks[i]| < |seekKey| || ks[i][..|seekKey|] != seekKey { return NotFound; }
      }
    } else {
      assert Bound(comp, full) == seekKey;
      i := SeekForPrev(ks, seekKey);
      if flag == BeforeKey && i >= 0 && ks[i] == seekKey { i := i - 1; }
    }
    got := ReadCurrent(ks, i);
  }

  // ----- Which row it is -----

  // The keys a backward read may return.
  predicate Within(k: Bytes, comp: Bytes, full: nat, flag: Flag)
    requires |comp| <= full
  {
    !Less(Bound(comp, full), k) && !(Strict(comp, full, flag) && k == SeekKey(comp))
  }

  lemma LandingSplits(ks: seq<Bytes>, comp: Bytes, full: nat, flag: Flag, i: nat)
    requires SortedKeys(ks) && |comp| <= full && i < |ks|
    ensures i <= Landing(ks, comp, full, flag) <==> Within(ks[i], comp, full, flag)
  {
    var bound := Bound(comp, full);
    var r := SeekForPrev(ks, bound);
    SeekForPrevSplits(ks, bound, i);
    if Strict(comp, full, flag) {
      assert bound == SeekKey(comp);
      LessIrreflexive(bound);
      if i < r { Ordered(ks, |ks|, i, r); }
    }
  }

  lemma {:induction false} CurrentIs(ks: seq<Bytes>, i: nat, j: nat)
    requires i <= |ks|
    ensures Current(ks, i) == Row(j) <==> i <= j < |ks| && IsDataKey(ks[j]) && forall h :: i <= h < j ==> !IsDataKey(ks[h])
    ensures Current(ks, i).Row? || Current(ks, i) == EndOfFile
    decreases |ks| - i
  {
    if i < |ks| && !IsDataKey(ks[i]) { CurrentIs(ks, i + 1, j); }
  }

  // Metadata not above a row's bound sorts below every row.
  lemma MetaBelow(k: Bytes, d: Bytes, comp: Bytes, full: nat)
    requires |comp| <= full && !IsDataKey(k) && IsDataKey(d) && !Less(Bound(comp, full), k)
    ensures Less(k, d)
  {
  }

  // The last row a backward read may return.
  ghost predicate LastWithin(ks: seq<Bytes>, comp: Bytes, full: nat, flag: Flag, j: nat)
    requires |comp| <= full
  {
    && j < |ks| && IsDataKey(ks[j]) && Within(ks[j], comp, full, flag)
    && forall h :: j < h < |ks| && IsDataKey(ks[h]) ==> !Within(ks[h], comp, full, flag)
  }

  // There is none, but metadata to land on, and `j` is the first row of the table.
  ghost predicate TurnsForward(ks: seq<Bytes>, comp: Bytes, full: nat, flag: Flag, j: nat)
    requires |comp| <= full
  {
    && j < |ks| && IsDataKey(ks[j]) && (forall h :: 0 <= h < j ==> !IsDataKey(ks[h]))
    && (forall h :: 0 <= h < |ks| && IsDataKey(ks[h]) ==> !Within(ks[h], comp, full, flag))
    && exists h :: 0 <= h < |ks| && Within(ks[h], comp, full, flag)
  }

  /** Without the guard a backward read returns the last row it may, and where there is
      none, but the metadata has a key, the first row of the table. */
  lemma ReverseExact(ks: seq<Bytes>, comp: Bytes, full: nat, flag: Flag, j: nat)
    requires SortedKeys(ks) && |comp| <= full && !Guarded(comp, full, flag)
    ensures ReadReverse(ks, comp, full, flag) == Row(j) <==>
              LastWithin(ks, comp, full, flag, j) || TurnsForward(ks, comp, full, flag, j)
  {
    var i := Landing(ks, comp, full, flag);
    forall h | 0 <= h < |ks| ensures h <= i <==> Within(ks[h], comp, full, flag) { LandingSplits(ks, comp, full, flag, h); }
    if i >= 0 {
      CurrentIs(ks, i, j);
      if !IsDataKey(ks[i]) { NoRowBefore(ks, comp, full, i); }
    }
  }

  lemma NoRowBefore(ks: seq<Bytes>, comp: Bytes, full: nat, i: nat)
    requires SortedKeys(ks) && |comp| <= full && i < |ks| && !IsDataKey(ks[i]) && !Less(Bound(comp, full), ks[i])
    ensures forall h :: 0 <= h <= i ==> !IsDataKey(ks[h])
  {
    forall h | 0 <= h < i ensures !IsDataKey(ks[h]) {
      if IsDataKey(ks[h]) {
        Ordered(ks, |ks|, h, i);
        MetaBelow(ks[i], ks[h], comp, full);
        assert false;
      }
    }
  }

  ghost predicate LastOf(ks: seq<Bytes>, p: Bytes, j: nat) {
    j < |ks| && HasPrefix(ks[j], p) && forall h :: j < h < |ks| ==> !HasPrefix(ks[h], p)
  }

  /** HA_READ_PREFIX_LAST with part of the primary key returns the last row of the group,
      and no row when the group is empty. */
  lemma PartialLast(ks: seq<Bytes>, comp: Bytes, full: nat, j: nat)
    requires DataFamily(ks, full) && |comp| < full
    ensures ReadReverse(ks, comp, full, PrefixLast) == Row(j) <==> LastOf(ks, SeekKey(comp), j)
  {
    var p, i := SeekKey(comp), Landing(ks, comp, full, PrefixLast);
    forall h | 0 <= h < |ks| && HasPrefix(ks[h], p) ensures h <= i && HasPrefix(ks[i], p) { InGroup(ks, comp, full, h, i); }
    if i >= 0 && HasPrefix(ks[i], p) { assert ks[i][0] == p[0]; }
  }

  /** The full key with the other flags: BeforeKey returns the last row strictly below it,
      KeyOrPrev the row itself or the last below it, wherever there is one. */
  lemma FullBefore(ks: seq<Bytes>, comp: Bytes, full: nat, flag: Flag, j: nat)
    requires DataFamily(ks, full) && |comp| == full && j < |ks| && IsDataKey(ks[j])
    requires if flag == BeforeKey then Less(ks[j], SeekKey(comp)) else !Less(SeekKey(comp), ks[j])
    ensures var got := ReadReverse(ks, comp, full, flag);
            && got.Row? && got.i < |ks| && IsDataKey(ks[got.i]) && j <= got.i
            && (if flag == BeforeKey then Less(ks[got.i], SeekKey(comp)) else !Less(SeekKey(comp), ks[got.i]))
  {
    var key, i := SeekKey(comp), Landing(ks, comp, full, flag);
    assert Bound(comp, full) == key;
    LessIrreflexive(key);
    forall h | 0 <= h < |ks|
      ensures h <= i <==> (if flag == BeforeKey then Less(ks[h], key) else !Less(key, ks[h]))
    {
      LandingSplits(ks, comp, full, flag, h);
      LessTotal(ks[h], key);
      if Less(ks[h], key) && Less(key, ks[h]) { LessTransitive(key, ks[h], key); }
    }
    if !IsDataKey(ks[i]) {
      NoRowBefore(ks, comp, full, i);
      assert false;
    }
  }

  /** BeforeKey with part of the key is padded like the others, so it returns the last row
      of the group, not the row before it, if and only if the group has a row. */
  lemma PartialBefore(ks: seq<Bytes>, comp: Bytes, full: nat, j: nat)
    requires DataFamily(ks, full) && |comp| < full
    ensures LastOf(ks, SeekKey(comp), j) ==> ReadReverse(ks, comp, full, BeforeKey) == Row(j)
    ensures ReadReverse(ks, comp, full, BeforeKey) == Row(j) ==>
              j < |ks| && (HasPrefix(ks[j], SeekKey(comp)) <==> exists h :: 0 <= h < |ks| && HasPrefix(ks[h], SeekKey(comp)))
  {
    PartialLast(ks, comp, full, j);
    if Landing(ks, comp, full, BeforeKey) >= 0 { CurrentIs(ks, Landing(ks, comp, full, BeforeKey), j); }
    var p, i := SeekKey(comp), Landing(ks, comp, full, BeforeKey);
    assert i == Landing(ks, comp, full, PrefixLast);
    if h :| 0 <= h < |ks| && HasPrefix(ks[h], p) {
      InGroup(ks, comp, full, h, i);
      assert ks[i][0] == p[0];
    }
  }

  // A row not above the padded key, past a row of the group, is of the group.
  lemma InGroup(ks: seq<Bytes>, comp: Bytes, full: nat, h: nat, i: int)
    requires DataFamily(ks, full) && |comp| < full && i == Landing(ks, comp, full, PrefixLast)
    requires h < |ks| && HasPrefix(ks[h], SeekKey(comp))
    ensures h <= i < |ks| && HasPrefix(ks[i], SeekKey(comp))
  {
    var p := SeekKey(comp);
    assert ks[h][0] == p[0];
    AbovePad(ks[h], p, full - |comp|);
    LandingSplits(ks, comp, full, PrefixLast, h);
    LandingSplits(ks, comp, full, PrefixLast, i);
    UnderPad(ks[i], p, full - |comp|);
    if h < i && Less(ks[i], p) {
      Ordered(ks, |ks|, h, i);
      LessTransitive(ks[h], ks[i], p);
      PrefixNotLess(ks[h], p);
    }
  }

  // A row other than the one asked for.
  predicate Foreign(ks: seq<Bytes>, comp: Bytes, got: Got) {
    got.Row? && got.i < |ks| && ks[got.i] != SeekKey(comp)
  }

  /** With the full primary key there is no guard. The row comes back if it is there. A
      foreign row comes back if and only if it is not, the table has a row, and the column
      family has a key below it. */
  lemma FullLast(ks: seq<Bytes>, comp: Bytes, full: nat, got: Got)
    requires DataFamily(ks, full) && |comp| == full && got == ReadReverse(ks, comp, full, PrefixLast)
    ensures (exists j :: 0 <= j < |ks| && got == Row(j) && ks[j] == SeekKey(comp)) <==> SeekKey(comp) in ks
    ensures Foreign(ks, comp, got) <==>
              && SeekKey(comp) !in ks && (exists i :: 0 <= i < |ks| && IsDataKey(ks[i]))
              && exists i :: 0 <= i < |ks| && Less(ks[i], SeekKey(comp))
  {
    var key := SeekKey(comp);
    assert Bound(comp, full) == key;
    LessIrreflexive(key);
    var i := Landing(ks, comp, full, PrefixLast);
    forall h | 0 <= h < |ks| ensures h <= i <==> ks[h] == key || Less(ks[h], key) {
      LandingSplits(ks, comp, full, PrefixLast, h);
      LessTotal(ks[h], key);
      if Less(ks[h], key) && Less(key, ks[h]) { LessTransitive(key, ks[h], key); }
    }
    forall h | 0 <= h < |ks| && ks[h] == key ensures h == i {
      if h < i {
        Ordered(ks, |ks|, h, i);
        assert false;
      }
    }
    if i >= 0 { FoundFrom(ks, comp, full, i); }
  }

  // From a landing position a row is found unless the table has none.
  lemma FoundFrom(ks: seq<Bytes>, comp: Bytes, full: nat, i: nat)
    requires SortedKeys(ks) && |comp| <= full && i < |ks| && !Less(Bound(comp, full), ks[i])
    ensures Current(ks, i).Row? <==> exists h :: 0 <= h < |ks| && IsDataKey(ks[h])
    ensures Current(ks, i).Row? ==> i <= Current(ks, i).i < |ks| && (IsDataKey(ks[i]) ==> Current(ks, i) == Row(i))
  {
    if !IsDataKey(ks[i]) { NoRowBefore(ks, comp, full, i); }
    SomeFrom(ks, i);
  }

  lemma {:induction false} SomeFrom(ks: seq<Bytes>, i: nat)
    requires i <= |ks|
    ensures Current(ks, i).Row? <==> exists h :: i <= h < |ks| && IsDataKey(ks[h])
    ensures Current(ks, i).Row? ==> i <= Current(ks, i).i < |ks| && IsDataKey(ks[Current(ks, i).i])
    decreases |ks| - i
  {
    if i < |ks| && !IsDataKey(ks[i]) { SomeFrom(ks, i + 1); }
  }

  /** Rows 3 and 5, the last row with key 4: row 3 comes back. With metadata and row 5
      only, row 5 comes back, which is not even before the key. */
  lemma FullKeyForeign(rows: seq<Bytes>, meta: seq<Bytes>)
    requires rows == [[1, 3], [1, 5]] && meta == [[0, 9], [1, 5]]
    ensures DataFamily(rows, 1) && ReadReverse(rows, [4], 1, PrefixLast) == Row(0) && Foreign(rows, [4], Row(0))
    ensures DataFamily(meta, 1) && ReadReverse(meta, [4], 1, PrefixLast) == Row(1) && Foreign(meta, [4], Row(1))
  {
    assert Bound([4], 1) == [1, 4];
    TwoKeys(rows, [1, 4]);
    TwoKeys(meta, [1, 4]);
    assert Current(meta, 0) == Current(meta, 1);
  }

  // Two keys with the bound between them.
  lemma TwoKeys(ks: seq<Bytes>, bound: Bytes)
    requires |ks| == 2 && |ks[0]| == |ks[1]| == |bound| == 2 && Less(ks[0], bound) && Less(bound, ks[1])
    ensures SortedKeys(ks) && SeekForPrev(ks, bound) == 0
  {
    LessTransitive(ks[0], bound, ks[1]);
    assert Ascends(ks, 0) && Ascends(ks, 1) && Ascends(ks, 2);
    if Less(bound, ks[0]) {
      LessTransitive(ks[0], bound, ks[0]);
      LessIrreflexive(ks[0]);
    }
  }

  // ----- Secondary indexes -----

  // Every entry: the index bytes, then the primary key.
  ghost predicate IndexFamily(ks: seq<Bytes>, idxLen: nat, pkLen: nat) {
    SortedKeys(ks) && pkLen > 0 && forall i :: 0 <= i < |ks| ==> |ks[i]| == idxLen + pkLen
  }

  // The entries skipped by the pushed condition, backwards from `i`.
  function Down(ks: seq<Bytes>, i: int, icp: Bytes -> Verdict): Got
    requires i < |ks|
    decreases i + 1
  {
    if i < 0 then NotFound
    else
      match icp(ks[i])
      case Neg => Down(ks, i - 1, icp)
      case Pos => Row(i)
      case OutOfRange => EndOfFile
      case Abort => Aborted
  }

  // No guard, for any key length and flag.
  function ReadSecondary(ks: seq<Bytes>, comp: Bytes, pkLen: nat, icp: Bytes -> Verdict): Got {
    Down(ks, SeekForPrev(ks, comp + Pad(pkLen)), icp)
  }

  method IndexReadSecondary(ks: seq<Bytes>, comp: Bytes, idxLen: nat, pkLen: nat, icp: Bytes -> Verdict) returns (got: Got)
    requires IndexFamily(ks, idxLen, pkLen)
    ensures got == ReadSecondary(ks, comp, pkLen, icp)
  {
    var upper := comp + Pad(pkLen);
    var i := SeekForPrev(ks, upper);
    while i >= 0
      invariant -1 <= i < |ks| && Down(ks, i, icp) == ReadSecondary(ks, comp, pkLen, icp)
      decreases i + 1
    {
      if |ks[i]| <= idxLen { return NotFound; }
      var v := icp(ks[i]);
      if v == OutOfRange { return EndOfFile; }
      if v == Abort { return Aborted; }
      if v == Pos { return Row(i); }
      i := i - 1;
    }
    got := NotFound;
  }

  lemma {:induction false} DownIs(ks: seq<Bytes>, i: int, icp: Bytes -> Verdict, j: nat)
    requires i < |ks|
    ensures Down(ks, i, icp) == Row(j) <==> j <= i && icp(ks[j]) == Pos && forall h :: j < h <= i ==> icp(ks[h]) == Neg
    decreases i + 1
  {
    if i >= 0 { DownIs(ks, i - 1, icp, j); }
  }

  /** The entry returned is the last one not above the bound that the pushed condition
      does not skip. */
  lemma SecondaryExact(ks: seq<Bytes>, comp: Bytes, pkLen: nat, icp: Bytes -> Verdict, j: nat)
    requires SortedKeys(ks)
    ensures ReadSecondary(ks, comp, pkLen, icp) == Row(j) <==>
              && j < |ks| && !Less(comp + Pad(pkLen), ks[j]) && icp(ks[j]) == Pos
              && forall h :: j < h < |ks| && !Less(comp + Pad(pkLen), ks[h]) ==> icp(ks[h]) == Neg
  {
    var bound := comp + Pad(pkLen);
    forall h | 0 <= h < |ks| ensures h <= SeekForPrev(ks, bound) <==> !Less(bound, ks[h]) { SeekForPrevSplits(ks, bound, h); }
    DownIs(ks, SeekForPrev(ks, bound), icp, j);
  }

  /** Which entries of the group the bound leaves out: those that extend it, so none
      when the whole index key is given. */
  lemma GroupAbove(k: Bytes, comp: Bytes, idxLen: nat, pkLen: nat)
    requires HasPrefix(k, comp) && |k| == idxLen + pkLen && |comp| <= idxLen
    ensures Less(comp + Pad(pkLen), k) <==> |comp| < idxLen && HasPrefix(k, comp + Pad(pkLen))
  {
    AbovePad(k, comp, pkLen);
  }

  // An entry of the group that the bound does not leave out.
  ghost predicate Reachable(ks: seq<Bytes>, comp: Bytes, idxLen: nat, pkLen: nat, i: nat) {
    i < |ks| && HasPrefix(ks[i], comp) && !(|comp| < idxLen && HasPrefix(ks[i], comp + Pad(pkLen)))
  }

  /** PREFIX_LAST on a secondary index, nothing skipped: the last reachable entry of the
      group; a foreign one if and only if none is reachable and an entry sorts below. */
  lemma SecondaryLast(ks: seq<Bytes>, comp: Bytes, idxLen: nat, pkLen: nat, icp: Bytes -> Verdict, got: Got)
    requires IndexFamily(ks, idxLen, pkLen) && |comp| <= idxLen && (forall k :: icp(k) == Pos)
    requires got == ReadSecondary(ks, comp, pkLen, icp)
    ensures got.Row? ==> got.i < |ks|
    ensures (got.Row? && HasPrefix(ks[got.i], comp)) <==> exists i :: Reachable(ks, comp, idxLen, pkLen, i)
    ensures got.Row? && HasPrefix(ks[got.i], comp) ==> forall i :: got.i < i < |ks| ==> !Reachable(ks, comp, idxLen, pkLen, i)
    ensures (got.Row? && !HasPrefix(ks[got.i], comp)) <==>
              (forall i :: !Reachable(ks, comp, idxLen, pkLen, i)) && exists i :: 0 <= i < |ks| && Less(ks[i], comp)
  {
    var i := SeekForPrev(ks, comp + Pad(pkLen));
    forall h | 0 <= h < |ks| ensures h <= i <==> Reachable(ks, comp, idxLen, pkLen, h) || Less(ks[h], comp) {
      UpToBound(ks, comp, idxLen, pkLen, h);
    }
    forall h | 0 <= h < i && Less(ks[i], comp) ensures Less(ks[h], comp) { LowerStill(ks, comp, h, i); }
    forall h | 0 <= h < |ks| && Less(ks[h], comp) ensures !HasPrefix(ks[h], comp) { BelowPad(ks[h], comp, pkLen); }
  }

  lemma UpToBound(ks: seq<Bytes>, comp: Bytes, idxLen: nat, pkLen: nat, h: nat)
    requires IndexFamily(ks, idxLen, pkLen) && |comp| <= idxLen && h < |ks|
    ensures h <= SeekForPrev(ks, comp + Pad(pkLen)) <==> Reachable(ks, comp, idxLen, pkLen, h) || Less(ks[h], comp)
  {
    SeekForPrevSplits(ks, comp + Pad(pkLen), h);
    AtBound(ks[h], comp, idxLen, pkLen);
  }

  lemma LowerStill(ks: seq<Bytes>, comp: Bytes, h: nat, i: nat)
    requires SortedKeys(ks) && h < i < |ks| && Less(ks[i], comp)
    ensures Less(ks[h], comp)
  {
    Ordered(ks, |ks|, h, i);
    LessTransitive(ks[h], ks[i], comp);
  }

  lemma AtBound(k: Bytes, comp: Bytes, idxLen: nat, pkLen: nat)
    requires |k| == idxLen + pkLen && |comp| <= idxLen
    ensures !Less(comp + Pad(pkLen), k) <==>
              Less(k, comp) || (HasPrefix(k, comp) && !(|comp| < idxLen && HasPrefix(k, comp + Pad(pkLen))))
  {
    if Less(k, comp) {
      BelowPad(k, comp, pkLen);
    } else if HasPrefix(k, comp) {
      GroupAbove(k, comp, idxLen, pkLen);
    } else if !Less(comp + Pad(pkLen), k) {
      UnderPad(k, comp, pkLen);
    }
  }

  /** Index value 3 only, the last entry with value 4: value 3 comes back. And a two-part
      index whose second part starts with as many 0xFF as a primary key has bytes: the
      group has an entry and none comes back. */
  lemma SecondaryForeign(icp: Bytes -> Verdict)
    requires forall k :: icp(k) == Pos
    ensures IndexFamily([[3, 7]], 1, 1) && ReadSecondary([[3, 7]], [4], 1, icp) == Row(0) && !HasPrefix([3, 7], [4])
    ensures IndexFamily([[4, 255, 7]], 2, 1) && ReadSecondary([[4, 255, 7]], [4], 1, icp) == NotFound && HasPrefix([4, 255, 7], [4])
  {
    assert [4] + Pad(1) == [4, 255];
    OneKey([3, 7]);
    OneKey([4, 255, 7]);
    assert !Less([4, 255], [3, 7]) && Less([4, 255], [4, 255, 7]);
  }

  lemma OneKey(k: Bytes)
    ensures SortedKeys([k])
  {
    assert Ascends([k], 0) && Ascends([k], 1);
  }
}
