/** The in-doubt list: prepared transactions found at open, handed to the server in
    pieces and resolved one identifier at a time. */
module Recovery {
  import opened ByteOrder
  import opened Xid

  // An encoded identifier and the prepared handle behind it.
  datatype Entry = Entry(xid: Bytes, txn: nat)

  datatype Status = XaOk | XaRmerr | XaNota

  predicate Decodable(e: Entry) { Decode(e.xid).Some? }

  // ----- Specification -----

  // The identifiers the entries from `a` up to `b` yield, in order.
  function Named(es: seq<Entry>, a: nat, b: nat): (r: seq<Id>)
    requires a <= b <= |es|
    decreases b
  {
    if a == b then []
    else Named(es, a, b - 1) + if Decodable(es[b - 1]) then [Decode(es[b - 1].xid).value] else []
  }

  // Where a call for `len` identifiers leaves the cursor.
  function Stop(es: seq<Entry>, cursor: nat, len: nat): (c: nat)
    requires cursor <= |es|
    ensures cursor <= c <= |es|
    decreases |es| - cursor
  {
    if len == 0 || cursor == |es| then cursor
    else Stop(es, cursor + 1, if Decodable(es[cursor]) then len - 1 else len)
  }

  lemma StopNext(es: seq<Entry>, cursor: nat, len: nat)
    requires cursor < |es| && len > 0
    ensures Stop(es, cursor, len) == Stop(es, cursor + 1, if Decodable(es[cursor]) then len - 1 else len)
  {
  }

  // The first entry under these bytes, or the end of the list.
  function Find(es: seq<Entry>, key: Bytes): (i: nat)
    ensures i <= |es| && (forall j :: 0 <= j < i ==> es[j].xid != key)
    ensures i < |es| ==> es[i].xid == key
  {
    if es == [] || es[0].xid == key then 0 else 1 + Find(es[1..], key)
  }

  function Erase(es: seq<Entry>, i: nat): (r: seq<Entry>)
    requires i < |es|
    ensures |r| == |es| - 1
  {
    es[..i] + es[i + 1..]
  }

  // Where Resolve looks: the entry encoded like `x`, if `x` can be encoded.
  function Target(es: seq<Entry>, x: Id): (i: nat)
    requires Held(x)
    ensures i <= |es|
  {
    if Encode(x).None? then |es| else Find(es, Encode(x).value)
  }

  /** The entry found is the first that names the same transaction as the server's
      identifier; none is found exactly when no entry does. */
  lemma TargetIsSame(es: seq<Entry>, x: Id)
    requires Held(x) && LengthsValid(x.gtrid, x.bqual)
    ensures var i := Target(es, x);
            && (i < |es| ==> Decodable(es[i]) && Same(x, Decode(es[i].xid).value))
            && (forall j :: 0 <= j < i && Decodable(es[j]) ==> !Same(x, Decode(es[j].xid).value))
  {
    var i := Target(es, x);
    if i < |es| {
      DecodeEncode(x);
      SameBytes(x, Decode(es[i].xid).value);
      EncodeDecode(es[i].xid);
    }
    forall j | 0 <= j < i && Decodable(es[j]) ensures !Same(x, Decode(es[j].xid).value) {
      EncodeDecode(es[j].xid);
      SameBytes(x, Decode(es[j].xid).value);
    }
  }

  // Every encoded identifier names one entry.
  ghost predicate NamesApart(es: seq<Entry>) {
    forall i, j :: 0 <= i < j < |es| ==> es[i].xid != es[j].xid
  }

  lemma NameFindsEntry(es: seq<Entry>, i: nat)
    requires i < |es| && Decodable(es[i])
    ensures var x := Decode(es[i].xid).value;
            && Held(x) && Target(es, x) < |es| && es[Target(es, x)].xid == es[i].xid
            && (NamesApart(es) ==> Target(es, x) == i)
  {
    EncodeDecode(es[i].xid);
  }

  // `x` is the `k`th identifier handed out from entries `a` up to `b`.
  ghost predicate ComesFrom(es: seq<Entry>, a: nat, b: nat, k: nat, x: Id, i: nat)
    requires a <= b <= |es|
  {
    && a <= i < b && Decodable(es[i]) && x == Decode(es[i].xid).value
    && |Named(es, a, i)| == k
  }

  /** Each identifier handed out comes from one entry, in the order of the entries, and
      given back it finds an entry under the same bytes: that entry itself where no two
      share a name. */
  lemma {:induction false} HandedOutFinds(es: seq<Entry>, a: nat, b: nat, k: nat) returns (i: nat)
    requires a <= b <= |es| && k < |Named(es, a, b)|
    ensures ComesFrom(es, a, b, k, Named(es, a, b)[k], i)
    ensures Held(Named(es, a, b)[k])
    ensures var j := Target(es, Named(es, a, b)[k]); j < |es| && es[j].xid == es[i].xid && (NamesApart(es) ==> j == i)
    decreases b
  {
    var front := Named(es, a, b - 1);
    if k < |front| {
      assert Named(es, a, b)[k] == front[k];
      i := HandedOutFinds(es, a, b - 1, k);
    } else {
      i := b - 1;
      NameFindsEntry(es, i);
    }
  }

  /** And every entry with a readable name is handed out. */
  lemma {:induction false} HandsOutAll(es: seq<Entry>, a: nat, b: nat, i: nat)
    requires a <= i < b <= |es| && Decodable(es[i])
    ensures var k := |Named(es, a, i)|; k < |Named(es, a, b)| && Named(es, a, b)[k] == Decode(es[i].xid).value
    decreases b
  {
    if i < b - 1 { HandsOutAll(es, a, b - 1, i); }
  }

  // ----- The list as the plugin keeps it -----

  method Name(e: Entry) returns (r: Option<Id>)
    ensures r == Decode(e.xid)
  {
    var data := new byte[DATA_SIZE];
    var ok, format, gtrid, bqual := Deserialize(e.xid, data);
    r := if ok then Some(Id(format, gtrid, bqual, data[..])) else None;
  }

  class InDoubt {
    var entries: seq<Entry>
    var cursor: nat

    ghost predicate Valid() reads this { cursor <= |entries| }

    constructor (found: seq<(Bytes, nat)>)
      ensures Valid() && cursor == 0 && entries == Collected(found)
    {
      entries, cursor := [], 0;
      new;
      for i := 0 to |found|
        invariant cursor == 0 && entries == Collected(found[..i])
      {
        assert found[..i + 1][..i] == found[..i];
        if found[i].0 != [] {
          entries := entries + [Entry(found[i].0, found[i].1)];
        }
      }
      assert found[..|found|] == found;
    }

    method Recover(len: nat) returns (out: seq<Id>)
      requires Valid()
      modifies `cursor
      ensures Valid() && cursor == Stop(entries, old(cursor), len)
      ensures out == Named(entries, old(cursor), cursor) && |out| <= len
      ensures |out| < len ==> cursor == |entries|
    {
      out := [];
      ghost var es, from := entries, cursor;
      while |out| < len && cursor < |entries|
        invariant entries == es && from <= cursor <= |es| && |out| <= len
        invariant out == Named(es, from, cursor)
        invariant Stop(es, cursor, len - |out|) == Stop(es, from, len)
        decreases |entries| - cursor
      {
        var e := entries[cursor];
        StopNext(es, cursor, len - |out|);
        cursor := cursor + 1;
        var name := Name(e);
        if name.None? { continue; }
        out := out + [name.value];
      }
    }

    // `ends` is what the engine answers when asked to commit or roll back.
    method Resolve(x: Id, ends: bool) returns (status: Status, hit: Option<nat>)
      requires Valid() && Held(x)
      modifies this
      ensures Valid()
      ensures status == XaNota <==> Target(old(entries), x) == |old(entries)|
      ensures status != XaNota ==> hit == Some(old(entries)[Target(old(entries), x)].txn) && (status == XaOk <==> ends)
      ensures status != XaOk ==> entries == old(entries) && cursor == old(cursor)
      ensures status == XaOk ==> var i := Target(old(entries), x);
                && entries == Erase(old(entries), i)
                && cursor == if old(cursor) > i then old(cursor) - 1 else old(cursor)
    {
      hit := None;
      var buf := new byte[HEADER_SIZE + DATA_SIZE];
      var n := Serialize(x, buf);
      if n == 0 { return XaNota, None; }
      var key := buf[..n];
      var i := 0;
      while i < |entries|
        invariant i <= |entries| && forall j :: 0 <= j < i ==> entries[j].xid != key
        invariant entries == old(entries) && cursor == old(cursor)
      {
        if entries[i].xid == key {
          hit := Some(entries[i].txn);
          if !ends { return XaRmerr, hit; }
          entries := entries[..i] + entries[i + 1..];
          if cursor > i { cursor := cursor - 1; }
          return XaOk, hit;
        }
        i := i + 1;
      }
      status := XaNota;
    }
  }

  // What tidesdb_collect_prepared keeps of the engine's answer.
  function Collected(found: seq<(Bytes, nat)>): (es: seq<Entry>)
    ensures |es| <= |found|
  {
    if found == [] then []
    else
      var f := found[|found| - 1];
      Collected(found[..|found| - 1]) + if f.0 == [] then [] else [Entry(f.0, f.1)]
  }

  // ----- Any interleaving of calls -----

  // The list with its history: what was collected, which transactions have been
  // handed out, in order, and which have been resolved.
  datatype List = List(entries: seq<Entry>, cursor: nat, all: seq<Entry>, handed: seq<nat>, gone: set<nat>)

  datatype Call =
    | Recover(len: nat)
    | Resolve(x: Id, ends: bool)

  // The transactions behind those identifiers.
  function Txns(es: seq<Entry>, a: nat, b: nat): (r: seq<nat>)
    requires a <= b <= |es|
    ensures |r| == |Named(es, a, b)|
    decreases b
  {
    if a == b then [] else Txns(es, a, b - 1) + if Decodable(es[b - 1]) then [es[b - 1].txn] else []
  }

  lemma {:induction false} TxnsMembers(es: seq<Entry>, a: nat, b: nat)
    requires a <= b <= |es|
    ensures forall t :: t in Txns(es, a, b) ==> exists i :: a <= i < b && Decodable(es[i]) && es[i].txn == t
    ensures forall i :: a <= i < b && Decodable(es[i]) ==> es[i].txn in Txns(es, a, b)
    decreases b
  {
    if a < b { TxnsMembers(es, a, b - 1); }
  }

  predicate Callable(l: List, c: Call) {
    l.cursor <= |l.entries| && (c.Resolve? ==> Held(c.x))
  }

  function Do(l: List, c: Call): List
    requires Callable(l, c)
  {
    match c
    case Recover(len) =>
      var to := Stop(l.entries, l.cursor, len);
      l.(cursor := to, handed := l.handed + Txns(l.entries, l.cursor, to))
    case Resolve(x, ends) =>
      var i := Target(l.entries, x);
      if i == |l.entries| || !ends then l
      else l.(entries := Erase(l.entries, i), gone := l.gone + {l.entries[i].txn},
              cursor := if l.cursor > i then l.cursor - 1 else l.cursor)
  }

  function Opened(found: seq<(Bytes, nat)>): List {
    List(Collected(found), 0, Collected(found), [], {})
  }

  ghost predicate Distinct(es: seq<Entry>) {
    forall i, j :: 0 <= i < j < |es| ==> es[i].txn != es[j].txn
  }

  ghost predicate OnceEach(ts: seq<nat>) {
    forall i, j :: 0 <= i < j < |ts| ==> ts[i] != ts[j]
  }

  ghost predicate Ok(l: List) {
    && l.cursor <= |l.entries| && Distinct(l.entries)
    // every collected entry is still listed or was resolved, never both
    && (forall e :: e in l.all ==> (e in l.entries <==> e.txn !in l.gone))
    && (forall e :: e in l.entries ==> e in l.all)
    // no transaction was handed out twice, and none waiting was handed out
    && OnceEach(l.handed)
    && (forall i :: l.cursor <= i < |l.entries| ==> l.entries[i].txn !in l.handed)
    // none passed over was skipped, unless it cannot be named
    && (forall i :: 0 <= i < l.cursor && Decodable(l.entries[i]) ==> l.entries[i].txn in l.handed)
  }

  lemma OnceAppend(ts: seq<nat>, us: seq<nat>)
    requires OnceEach(ts) && OnceEach(us) && forall u :: u in us ==> u !in ts
    ensures OnceEach(ts + us)
  {
    forall i, j | 0 <= i < |ts| && 0 <= j < |us| ensures ts[i] != us[j] {
      assert us[j] in us;
    }
    var all := ts + us;
    forall i, j | 0 <= i < j < |all| ensures all[i] != all[j] {
      if i < |ts| <= j { assert ts[i] != us[j - |ts|]; }
    }
  }

  lemma {:induction false} TxnsOnce(es: seq<Entry>, a: nat, b: nat)
    requires a <= b <= |es| && Distinct(es)
    ensures OnceEach(Txns(es, a, b))
    decreases b
  {
    if a < b && Decodable(es[b - 1]) {
      TxnsOnce(es, a, b - 1);
      TxnsMembers(es, a, b - 1);
      OnceAppend(Txns(es, a, b - 1), [es[b - 1].txn]);
    } else if a < b {
      TxnsOnce(es, a, b - 1);
    }
  }

  lemma RecoverOk(l: List, len: nat)
    requires Ok(l)
    ensures Ok(Do(l, Recover(len)))
  {
    var to := Stop(l.entries, l.cursor, len);
    TxnsOnce(l.entries, l.cursor, to);
    TxnsMembers(l.entries, l.cursor, to);
    OnceAppend(l.handed, Txns(l.entries, l.cursor, to));
  }

  lemma EraseMembers(es: seq<Entry>, i: nat)
    requires i < |es| && Distinct(es)
    ensures Distinct(Erase(es, i))
    ensures forall e :: e in Erase(es, i) <==> e in es && e.txn != es[i].txn
  {
    var r := Erase(es, i);
    forall j | 0 <= j < |r| ensures r[j] == es[if j < i then j else j + 1] {}
    forall e | e in es && e.txn != es[i].txn ensures e in r {
      var k :| 0 <= k < |es| && es[k] == e;
      assert k != i;
      assert r[if k < i then k else k - 1] == e;
    }
  }

  lemma ResolveOk(l: List, x: Id, ends: bool)
    requires Ok(l) && Held(x)
    ensures Ok(Do(l, Resolve(x, ends)))
  {
    var i := Target(l.entries, x);
    if i < |l.entries| && ends {
      var l' := Do(l, Resolve(x, ends));
      EraseMembers(l.entries, i);
      EraseAround(l.entries, i, l.cursor, l.handed);
    }
  }

  lemma EraseAround(es: seq<Entry>, i: nat, cursor: nat, handed: seq<nat>)
    requires i < |es| && cursor <= |es|
    requires forall j :: cursor <= j < |es| ==> es[j].txn !in handed
    requires forall j :: 0 <= j < cursor && Decodable(es[j]) ==> es[j].txn in handed
    ensures var c := if cursor > i then cursor - 1 else cursor;
            && (forall j :: c <= j < |es| - 1 ==> Erase(es, i)[j].txn !in handed)
            && (forall j :: 0 <= j < c && Decodable(Erase(es, i)[j]) ==> Erase(es, i)[j].txn in handed)
  {
    var c := if cursor > i then cursor - 1 else cursor;
    var r := Erase(es, i);
    forall j | c <= j < |es| - 1 ensures r[j].txn !in handed {
      if j < i { assert r[j] == es[j]; } else { assert r[j] == es[j + 1]; }
    }
    forall j | 0 <= j < c && Decodable(r[j]) ensures r[j].txn in handed {
      if j < i { assert r[j] == es[j]; } else { assert r[j] == es[j + 1]; }
    }
  }

  function DoAll(l: List, cs: seq<Call>): List
    requires l.cursor <= |l.entries| && forall i :: 0 <= i < |cs| ==> cs[i].Resolve? ==> Held(cs[i].x)
    decreases |cs|
  {
    if cs == [] then l
    else
      var l' := Do(l, cs[0]);
      DoAll(l', cs[1..])
  }

  /** Whatever the server asks and in whatever order. */
  lemma {:induction false} AllCallsOk(l: List, cs: seq<Call>)
    requires Ok(l) && forall i :: 0 <= i < |cs| ==> cs[i].Resolve? ==> Held(cs[i].x)
    ensures Ok(DoAll(l, cs)) && DoAll(l, cs).all == l.all
    decreases |cs|
  {
    if cs != [] {
      match cs[0] {
        case Recover(len) => RecoverOk(l, len);
        case Resolve(x, ends) => ResolveOk(l, x, ends);
      }
      AllCallsOk(Do(l, cs[0]), cs[1..]);
    }
  }

  lemma {:induction false} StopShort(es: seq<Entry>, cursor: nat, len: nat, to: nat)
    requires cursor <= |es| && to == Stop(es, cursor, len)
    ensures |Txns(es, cursor, to)| <= len && (|Txns(es, cursor, to)| < len ==> to == |es|)
    decreases |es| - cursor
  {
    if len > 0 && cursor < |es| {
      TxnsCons(es, cursor, to);
      if Decodable(es[cursor]) {
        StopShort(es, cursor + 1, len - 1, to);
      } else {
        StopShort(es, cursor + 1, len, to);
      }
    }
  }

  lemma {:induction false} TxnsCons(es: seq<Entry>, a: nat, b: nat)
    requires a < b <= |es|
    ensures |Txns(es, a, b)| == |Txns(es, a + 1, b)| + if Decodable(es[a]) then 1 else 0
    decreases b
  {
    if a + 1 < b { TxnsCons(es, a, b - 1); }
  }

  /** A short count means nothing is left: every nameable transaction found at open
      has been handed out or resolved. */
  lemma ShortCountExhausts(l: List, len: nat)
    requires Ok(l)
    requires |Do(l, Recover(len)).handed| < |l.handed| + len
    ensures forall e :: e in l.all && Decodable(e) ==> e.txn in Do(l, Recover(len)).handed || e.txn in l.gone
  {
    StopShort(l.entries, l.cursor, len, Stop(l.entries, l.cursor, len));
    var l' := Do(l, Recover(len));
    RecoverOk(l, len);
    forall e | e in l.all && Decodable(e) && e.txn !in l.gone ensures e.txn in l'.handed {
      var i :| 0 <= i < |l'.entries| && l'.entries[i] == e;
    }
  }

  lemma {:induction false} OpenedOk(found: seq<(Bytes, nat)>)
    requires forall i, j :: 0 <= i < j < |found| ==> found[i].1 != found[j].1
    ensures Ok(Opened(found))
  {
    CollectedDistinct(found);
  }

  lemma {:induction false} CollectedDistinct(found: seq<(Bytes, nat)>)
    requires forall i, j :: 0 <= i < j < |found| ==> found[i].1 != found[j].1
    ensures Distinct(Collected(found))
    ensures forall e :: e in Collected(found) <==> e.xid != [] && (e.xid, e.txn) in found
  {
    if found != [] {
      var n := |found| - 1;
      CollectedDistinct(found[..n]);
      assert found == found[..n] + [found[n]];
      forall e | e in Collected(found[..n]) ensures e.txn != found[n].1 {
        var k :| 0 <= k < n && found[..n][k] == (e.xid, e.txn);
      }
    }
  }
}
