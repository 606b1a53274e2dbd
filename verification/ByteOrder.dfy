/** Byte strings, their memcmp order, iterator seeks over sorted keys, and the
    fixed-width integer encodings the plugin writes into keys and values. */
module ByteOrder {

  newtype byte = x: int | 0 <= x < 256

  type Bytes = seq<byte>

  datatype Option<+T> = None | Some(value: T)

  function Zeros(n: nat): (z: Bytes)
    ensures |z| == n
  {
    seq(n, i => 0)
  }

  // memcmp order, a proper prefix first.
  predicate Less(a: Bytes, b: Bytes) {
    b != [] && (a == [] || a[0] < b[0] || (a[0] == b[0] && Less(a[1..], b[1..])))
  }

  lemma {:induction false} LessIrreflexive(a: Bytes)
    ensures !Less(a, a)
  {
    if a != [] { LessIrreflexive(a[1..]); }
  }

  lemma {:induction false} LessTransitive(a: Bytes, b: Bytes, c: Bytes)
    requires Less(a, b) && Less(b, c)
    ensures Less(a, c)
  {
    if a != [] && a[0] == b[0] == c[0] { LessTransitive(a[1..], b[1..], c[1..]); }
  }

  lemma {:induction false} LessTotal(a: Bytes, b: Bytes)
    ensures a == b || Less(a, b) || Less(b, a)
  {
    if a != [] && b != [] && a[0] == b[0] {
      LessTotal(a[1..], b[1..]);
      assert a == [a[0]] + a[1..] && b == [b[0]] + b[1..];
    }
  }

  predicate HasPrefix(k: Bytes, p: Bytes) {
    |p| <= |k| && k[..|p|] == p
  }

  lemma PrefixTail(k: Bytes, p: Bytes)
    requires k != [] && p != []
    ensures HasPrefix(k, p) <==> k[0] == p[0] && HasPrefix(k[1..], p[1..])
  {
    if |p| <= |k| {
      assert k[..|p|] == [k[0]] + k[1..][..|p| - 1];
      assert p == [p[0]] + p[1..];
    }
  }

  // Keys with a prefix do not sort below it.
  lemma {:induction false} PrefixNotLess(k: Bytes, p: Bytes)
    requires HasPrefix(k, p)
    ensures !Less(k, p)
  {
    if p != [] {
      PrefixTail(k, p);
      PrefixNotLess(k[1..], p[1..]);
    }
  }

  // Nothing without the prefix sorts between it and a key that has it.
  lemma {:induction false} PrefixContiguous(p: Bytes, a: Bytes, k: Bytes)
    requires HasPrefix(k, p) && !Less(a, p) && Less(a, k)
    ensures HasPrefix(a, p)
  {
    if p != [] && a != [] {
      PrefixTail(k, p);
      PrefixTail(a, p);
      if a[0] == k[0] { PrefixContiguous(p[1..], a[1..], k[1..]); }
    }
  }

  // ----- Iterators over a sorted column family -----

  datatype Item<V> = Item(key: Bytes, value: V)

  function KeysOf<V>(es: seq<Item<V>>): (ks: seq<Bytes>)
    ensures |ks| == |es|
  {
    seq(|es|, i requires 0 <= i < |es| => es[i].key)
  }

  // The first n keys ascend.
  ghost predicate Ascends(ks: seq<Bytes>, n: nat)
    requires n <= |ks|
  {
    n == 0 || (Ascends(ks, n - 1) && forall i :: 0 <= i < n - 1 ==> Less(ks[i], ks[n - 1]))
  }

  ghost predicate SortedKeys(ks: seq<Bytes>) { Ascends(ks, |ks|) }

  lemma {:induction false} Ordered(ks: seq<Bytes>, n: nat, i: nat, j: nat)
    requires i < j < n <= |ks| && Ascends(ks, n)
    ensures Less(ks[i], ks[j])
    decreases n
  {
    if j < n - 1 { Ordered(ks, n - 1, i, j); }
  }

  // tidesdb_iter_seek: the first key not below the target.
  function Seek(ks: seq<Bytes>, key: Bytes): (r: nat)
    ensures r <= |ks|
    ensures forall i :: 0 <= i < r ==> Less(ks[i], key)
    ensures r < |ks| ==> !Less(ks[r], key)
  {
    if ks == [] || !Less(ks[0], key) then 0 else 1 + Seek(ks[1..], key)
  }

  // tidesdb_iter_seek_for_prev: the last key not above the target, or -1.
  function SeekForPrev(ks: seq<Bytes>, key: Bytes): (r: int)
    ensures -1 <= r < |ks|
    ensures r >= 0 ==> !Less(key, ks[r])
    ensures forall i :: r < i < |ks| ==> Less(key, ks[i])
  {
    if ks == [] then -1
    else if !Less(key, ks[|ks| - 1]) then |ks| - 1
    else SeekForPrev(ks[..|ks| - 1], key)
  }

  // In a sorted list the keys from the seek on are the keys not below it.
  lemma SeekSplits(ks: seq<Bytes>, key: Bytes, i: nat)
    requires SortedKeys(ks) && i < |ks|
    ensures i >= Seek(ks, key) <==> !Less(ks[i], key)
  {
    var r := Seek(ks, key);
    if i > r && Less(ks[i], key) {
      Ordered(ks, |ks|, r, i);
      LessTransitive(ks[r], ks[i], key);
    }
  }

  // In a sorted list the keys up to the seek for prev are the keys not above it.
  lemma SeekForPrevSplits(ks: seq<Bytes>, key: Bytes, i: nat)
    requires SortedKeys(ks) && i < |ks|
    ensures i <= SeekForPrev(ks, key) <==> !Less(key, ks[i])
  {
    var r := SeekForPrev(ks, key);
    if i < r && Less(key, ks[i]) {
      Ordered(ks, |ks|, i, r);
      LessTransitive(key, ks[i], ks[r]);
    }
  }

  // The data column family holds rows under one leading byte and metadata under another.
  const KEY_NS_DATA: byte := 1

  predicate IsDataKey(k: Bytes) { k != [] && k[0] == KEY_NS_DATA }

  // ----- Integers -----

  function Pow256(n: nat): (r: nat)
    ensures r >= 1
  {
    if n == 0 then 1 else 256 * Pow256(n - 1)
  }

  // n bytes, most significant first.
  function BE(n: nat, v: nat): (b: Bytes)
    requires v < Pow256(n)
    ensures |b| == n
  {
    if n == 0 then [] else BE(n - 1, v / 256) + [(v % 256) as byte]
  }

  function FromBE(b: Bytes): (v: nat)
    ensures v < Pow256(|b|)
  {
    if b == [] then 0 else FromBE(b[..|b| - 1]) * 256 + b[|b| - 1] as nat
  }

  lemma {:induction false} FromBEInverse(n: nat, v: nat)
    requires v < Pow256(n)
    ensures FromBE(BE(n, v)) == v
  {
    if n > 0 {
      FromBEInverse(n - 1, v / 256);
      assert BE(n, v)[..n - 1] == BE(n - 1, v / 256);
    }
  }

  lemma {:induction false} BEInverse(b: Bytes)
    ensures BE(|b|, FromBE(b)) == b
  {
    if b != [] {
      BEInverse(b[..|b| - 1]);
      assert b == b[..|b| - 1] + [b[|b| - 1]];
    }
  }

  // n bytes, least significant first.
  function LE(n: nat, v: nat): (b: Bytes)
    requires v < Pow256(n)
    ensures |b| == n
  {
    if n == 0 then [] else [(v % 256) as byte] + LE(n - 1, v / 256)
  }

  function FromLE(b: Bytes): (v: nat)
    ensures v < Pow256(|b|)
  {
    if b == [] then 0 else b[0] as nat + 256 * FromLE(b[1..])
  }

  lemma {:induction false} FromLEInverse(n: nat, v: nat)
    requires v < Pow256(n)
    ensures FromLE(LE(n, v)) == v
  {
    if n > 0 {
      FromLEInverse(n - 1, v / 256);
      assert LE(n, v)[1..] == LE(n - 1, v / 256);
    }
  }

  lemma {:induction false} LEInverse(b: Bytes)
    ensures LE(|b|, FromLE(b)) == b
  {
    if b != [] {
      LEInverse(b[1..]);
      assert b == [b[0]] + b[1..];
    }
  }

  // Big-endian keys sort as their numbers, whatever follows them.
  lemma {:induction false} BEOrder(n: nat, u: nat, v: nat, p: Bytes, q: Bytes)
    requires u < v < Pow256(n)
    ensures Less(BE(n, u) + p, BE(n, v) + q)
  {
    var a, b := (u % 256) as byte, (v % 256) as byte;
    assert BE(n, u) + p == BE(n - 1, u / 256) + ([a] + p);
    assert BE(n, v) + q == BE(n - 1, v / 256) + ([b] + q);
    if u / 256 < v / 256 {
      BEOrder(n - 1, u / 256, v / 256, [a] + p, [b] + q);
    } else {
      SamePrefixLess(BE(n - 1, u / 256), [a] + p, [b] + q);
    }
  }

  lemma {:induction false} SamePrefixLess(x: Bytes, p: Bytes, q: Bytes)
    ensures Less(x + p, x + q) <==> Less(p, q)
  {
    if x == [] {
      assert x + p == p && x + q == q;
    } else {
      SamePrefixLess(x[1..], p, q);
      assert (x + p)[1..] == x[1..] + p && (x + q)[1..] == x[1..] + q;
    }
  }

  // A key that starts with a big-endian number is below another such number
  // exactly when its own is smaller.
  lemma NumberedLess(n: nat, key: Bytes, v: nat)
    requires n <= |key| && v < Pow256(n)
    ensures Less(key, BE(n, v)) <==> FromBE(key[..n]) < v
  {
    assert key[..n] + key[n..] == key;
    NumberHead(n, key[..n], v, key[n..]);
  }

  lemma NumberHead(n: nat, head: Bytes, v: nat, tail: Bytes)
    requires |head| == n && v < Pow256(n)
    ensures Less(head + tail, BE(n, v)) <==> FromBE(head) < v
  {
    BEInverse(head);
    NumberLess(n, FromBE(head), v, tail);
  }

  lemma NumberLess(n: nat, u: nat, v: nat, tail: Bytes)
    requires u < Pow256(n) && v < Pow256(n)
    ensures Less(BE(n, u) + tail, BE(n, v)) <==> u < v
  {
    assert BE(n, v) == BE(n, v) + [];
    if u < v {
      BEOrder(n, u, v, tail, []);
    } else if u == v {
      SamePrefixLess(BE(n, v), tail, []);
    } else {
      BEOrder(n, v, u, [], tail);
      LessAsymmetric(BE(n, v), BE(n, u) + tail);
    }
  }

  lemma LessAsymmetric(a: Bytes, b: Bytes)
    requires Less(a, b)
    ensures !Less(b, a)
  {
    LessIrreflexive(a);
    if Less(b, a) { LessTransitive(a, b, a); }
  }
}
