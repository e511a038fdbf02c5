/** The keys of a layered tree in order, and those a scan has to visit.
  Sources: masstree_scan.hh, masstree_key.hh. */
module ScanModel {
  import opened KeySlices

  type Value = nat

  /** What an entry leads to. */
  datatype Slot = Plain(v: Value) | Suffix(rest: Key, v: Value) | Sub(layer: Layer)

  /** An entry of a leaf: a slice, the key length within it (9 for a longer key). */
  datatype Item = Item(ikey: nat, len: nat, slot: Slot)

  /** A leaf: where its entries begin in the layer, and where its slices do. */
  datatype Leaf = Leaf(bound: nat, start: nat)

  /** A layer: its entries from left to right, cut into linked leaves. */
  datatype Layer = Layer(items: seq<Item>, leaves: seq<Leaf>)

  type Pair = (Key, Value)

  // ----- well-formed trees

  predicate ItemOk(i: Item, top: bool) {
    && i.ikey < 0x1_0000_0000_0000_0000
    && match i.slot
       case Plain(_) => i.len <= IKEY_SIZE && (top || i.len > 0) && Ikey(Bytes(i.ikey)[..i.len]) == i.ikey
       case Suffix(rest, _) => i.len == IKEY_SIZE + 1 && rest != []
       case Sub(layer) => i.len == IKEY_SIZE + 1 && Valid(layer, false)
  }

  predicate Ordered(items: seq<Item>) {
    forall i, j :: 0 <= i < j < |items| ==> CompareSpot(items[i].ikey, items[i].len, items[j].ikey, items[j].len) < 0
  }

  /** The bounds of the leaves divide slices as the leaves divide entries. */
  predicate LeavesOk(t: Layer) {
    && t.leaves != [] && t.leaves[0] == Leaf(0, 0)
    && (forall n :: 0 <= n < |t.leaves| ==> t.leaves[n].start <= |t.items|)
    && (forall m, n :: 0 <= m < n < |t.leaves| ==> t.leaves[m].start <= t.leaves[n].start && t.leaves[m].bound < t.leaves[n].bound)
    && (forall n, j :: 0 <= n < |t.leaves| && 0 <= j < |t.items| ==>
          (j < t.leaves[n].start <==> t.items[j].ikey < t.leaves[n].bound))
  }

  /** Entries ascend, within leaves and from each to the next; only the top layer can hold the empty key. */
  predicate Valid(t: Layer, top: bool) {
    LeavesOk(t) && Ordered(t.items) && forall i :: i in t.items ==> ItemOk(i, top)
  }

  /** No key is longer than `room`. */
  predicate Fits(t: Layer, room: int) {
    forall i :: i in t.items ==>
      match i.slot
      case Plain(_) => i.len <= room
      case Suffix(rest, _) => IKEY_SIZE + |rest| <= room
      case Sub(layer) => IKEY_SIZE < room && Fits(layer, room - IKEY_SIZE)
  }

  // ----- all keys, in order

  function Prefixed(p: Key, ps: seq<Pair>): (r: seq<Pair>)
    ensures |r| == |ps| && forall i :: 0 <= i < |r| ==> r[i] == (p + ps[i].0, ps[i].1)
  {
    seq(|ps|, i requires 0 <= i < |ps| => (p + ps[i].0, ps[i].1))
  }

  /** The keys behind one entry. */
  function Emit(i: Item): seq<Pair> {
    match i.slot
    case Plain(v) => [(Bytes(i.ikey)[..if i.len <= IKEY_SIZE then i.len else IKEY_SIZE], v)]
    case Suffix(rest, v) => [(Bytes(i.ikey) + rest, v)]
    case Sub(layer) => Prefixed(Bytes(i.ikey), EmitAll(layer.items))
  }

  function EmitAll(items: seq<Item>): seq<Pair> {
    if items == [] then [] else Emit(items[0]) + EmitAll(items[1..])
  }

  function AllKeys(t: Layer): seq<Pair> { EmitAll(t.items) }

  predicate Ascending(ps: seq<Pair>) {
    forall i, j :: 0 <= i < j < |ps| ==> Less(ps[i].0, ps[j].0)
  }

  // ----- the order of what entries emit

  /** A key behind an entry has the entry's slice and length. */
  ghost predicate SpotIs(k: Key, i: Item) {
    && Ikey(k) == i.ikey
    && if i.len > IKEY_SIZE then |k| > IKEY_SIZE && k[..IKEY_SIZE] == Bytes(i.ikey) else |k| == i.len
  }

  lemma {:induction false} EmitsSpot(i: Item, top: bool, n: nat)
    requires ItemOk(i, top) && n < |Emit(i)|
    ensures SpotIs(Emit(i)[n].0, i) && (!top ==> Emit(i)[n].0 != [])
    decreases i, 1
  {
    var k := Emit(i)[n].0;
    IkeyOfBytes(i.ikey);
    if i.len > IKEY_SIZE {
      if i.slot.Sub? {
        EmitAllNonempty(i.slot.layer.items, n);
      }
      assert k[..IKEY_SIZE] == Bytes(i.ikey);
      SlicePrefix(k, Bytes(i.ikey));
    }
  }

  lemma {:induction false} EmitAllNonempty(items: seq<Item>, n: nat)
    requires n < |EmitAll(items)| && forall i :: i in items ==> ItemOk(i, false)
    ensures EmitAll(items)[n].0 != []
    decreases items, 0
  {
    if n < |Emit(items[0])| {
      EmitsSpot(items[0], false, n);
    } else {
      EmitAllNonempty(items[1..], n - |Emit(items[0])|);
    }
  }

  /** A pair behind a list of entries is behind one of them. */
  lemma {:induction false} EmitAllOne(items: seq<Item>, n: nat) returns (m: nat, l: nat)
    requires n < |EmitAll(items)|
    ensures m < |items| && l < |Emit(items[m])| && EmitAll(items)[n] == Emit(items[m])[l]
  {
    if n < |Emit(items[0])| {
      m, l := 0, n;
    } else {
      m, l := EmitAllOne(items[1..], n - |Emit(items[0])|);
      m := m + 1;
    }
  }

  lemma {:induction false} LessByPrefix(p: Key, a: Key, b: Key)
    ensures Less(p + a, p + b) <==> Less(a, b)
  {
    if p == [] {
      assert p + a == a && p + b == b;
    } else {
      LessByPrefix(p[1..], a, b);
      assert (p + a)[1..] == p[1..] + a && (p + b)[1..] == p[1..] + b;
    }
  }

  lemma SpotsAreOrdered(a: Key, i: Item, b: Key, j: Item)
    requires SpotIs(a, i) && SpotIs(b, j) && CompareSpot(i.ikey, i.len, j.ikey, j.len) < 0
    ensures Less(a, b)
  {
    CompareIsOrder(a, b);
  }

  lemma {:induction false} EmitAscends(i: Item, top: bool)
    requires ItemOk(i, top)
    ensures Ascending(Emit(i))
    decreases i, 1
  {
    if i.slot.Sub? {
      var ps := EmitAll(i.slot.layer.items);
      EmitAllAscends(i.slot.layer.items, false);
      forall m, n | 0 <= m < n < |ps|
        ensures Less(Emit(i)[m].0, Emit(i)[n].0)
      {
        LessByPrefix(Bytes(i.ikey), ps[m].0, ps[n].0);
      }
    }
  }

  /** A tree's keys are in strictly increasing byte-string order. */
  lemma {:induction false} EmitAllAscends(items: seq<Item>, top: bool)
    requires Ordered(items) && forall i :: i in items ==> ItemOk(i, top)
    ensures Ascending(EmitAll(items))
    decreases items, 0
  {
    if items != [] {
      var first, rest := Emit(items[0]), EmitAll(items[1..]);
      EmitAscends(items[0], top);
      EmitAllAscends(items[1..], top);
      forall m, n | 0 <= m < |first| && 0 <= n < |rest|
        ensures Less(first[m].0, rest[n].0)
      {
        var j, l := EmitAllOne(items[1..], n);
        EmitsSpot(items[0], top, m);
        EmitsSpot(items[1..][j], top, l);
        SpotsAreOrdered(first[m].0, items[0], rest[n].0, items[j + 1]);
      }
    }
  }

  // ----- the keys from a given one on

  predicate FromOn(k: Key, key: Key, incl: bool) {
    Less(k, key) || (incl && key == k)
  }

  /** The pairs whose key comes after `k`, or is `k` if `incl`. */
  function Above(ps: seq<Pair>, k: Key, incl: bool): seq<Pair> {
    if ps == [] then [] else (if FromOn(k, ps[0].0, incl) then [ps[0]] else []) + Above(ps[1..], k, incl)
  }

  lemma {:induction false} AboveJoin(a: seq<Pair>, b: seq<Pair>, k: Key, incl: bool)
    ensures Above(a + b, k, incl) == Above(a, k, incl) + Above(b, k, incl)
  {
    if a == [] {
      assert a + b == b;
    } else {
      hide FromOn;
      var head := if FromOn(k, a[0].0, incl) then [a[0]] else [];
      assert (a + b)[0] == a[0] && (a + b)[1..] == a[1..] + b;
      AboveJoin(a[1..], b, k, incl);
      assert head + (Above(a[1..], k, incl) + Above(b, k, incl)) == (head + Above(a[1..], k, incl)) + Above(b, k, incl);
    }
  }

  lemma {:induction false} AboveNone(ps: seq<Pair>, k: Key, incl: bool)
    requires forall i :: 0 <= i < |ps| ==> Less(ps[i].0, k)
    ensures Above(ps, k, incl) == []
  {
    if ps != [] {
      LessIsAsymmetric(ps[0].0, k);
      AboveNone(ps[1..], k, incl);
    }
  }

  lemma {:induction false} AboveAll(ps: seq<Pair>, k: Key, incl: bool)
    requires forall i :: 0 <= i < |ps| ==> Less(k, ps[i].0)
    ensures Above(ps, k, incl) == ps
  {
    if ps != [] {
      AboveAll(ps[1..], k, incl);
    }
  }

  lemma FromOnPrefixed(p: Key, k: Key, key: Key, incl: bool)
    ensures FromOn(p + k, p + key, incl) <==> FromOn(k, key, incl)
  {
    LessByPrefix(p, k, key);
    assert (p + key)[|p|..] == key && (p + k)[|p|..] == k;
  }

  lemma {:induction false} AbovePrefixed(p: Key, ps: seq<Pair>, k: Key, incl: bool)
    ensures Above(Prefixed(p, ps), p + k, incl) == Prefixed(p, Above(ps, k, incl))
  {
    if ps != [] {
      var rs := Prefixed(p, ps);
      FromOnPrefixed(p, k, ps[0].0, incl);
      assert rs[1..] == Prefixed(p, ps[1..]);
      AbovePrefixed(p, ps[1..], k, incl);
      var head := if FromOn(k, ps[0].0, incl) then [ps[0]] else [];
      PrefixedJoin(p, head, Above(ps[1..], k, incl));
      assert Prefixed(p, head) == if FromOn(p + k, rs[0].0, incl) then [rs[0]] else [];
      hide FromOn, Prefixed;
    }
  }

  lemma PrefixedJoin(p: Key, a: seq<Pair>, b: seq<Pair>)
    ensures Prefixed(p, a + b) == Prefixed(p, a) + Prefixed(p, b)
  {
  }

  /** How a key, given by slice and length, compares with an entry. */
  function CompareItem(ikey: nat, len: nat, i: Item): int { CompareSpot(ikey, len, i.ikey, i.len) }

  lemma {:induction false} ItemsBelow(items: seq<Item>, top: bool, k: Key, incl: bool)
    requires forall i :: i in items ==> ItemOk(i, top) && CompareItem(Ikey(k), |k|, i) > 0
    ensures Above(EmitAll(items), k, incl) == []
  {
    forall n | 0 <= n < |EmitAll(items)|
      ensures Less(EmitAll(items)[n].0, k)
    {
      var m, l := EmitAllOne(items, n);
      EmitsSpot(items[m], top, l);
      CompareIsOrder(EmitAll(items)[n].0, k);
    }
    AboveNone(EmitAll(items), k, incl);
  }

  lemma {:induction false} ItemsAbove(items: seq<Item>, top: bool, k: Key, incl: bool)
    requires forall i :: i in items ==> ItemOk(i, top) && CompareItem(Ikey(k), |k|, i) < 0
    ensures Above(EmitAll(items), k, incl) == EmitAll(items)
  {
    forall n | 0 <= n < |EmitAll(items)|
      ensures Less(k, EmitAll(items)[n].0)
    {
      var m, l := EmitAllOne(items, n);
      EmitsSpot(items[m], top, l);
      CompareIsOrder(k, EmitAll(items)[n].0);
    }
    AboveAll(EmitAll(items), k, incl);
  }

  lemma {:induction false} EmitAllJoin(a: seq<Item>, b: seq<Item>)
    ensures EmitAll(a + b) == EmitAll(a) + EmitAll(b)
  {
    if a == [] {
      assert a + b == b;
    } else {
      assert (a + b)[1..] == a[1..] + b;
      EmitAllJoin(a[1..], b);
    }
  }

  lemma EmitFrom(items: seq<Item>, i: nat)
    requires i < |items|
    ensures EmitAll(items[i..]) == Emit(items[i]) + EmitAll(items[i + 1..])
  {
    assert items[i..][1..] == items[i + 1..];
  }

  /** The result of `lower`: where the key stands, or belongs. */
  ghost predicate LowerIs(items: seq<Item>, ikey: nat, len: nat, i: nat, found: bool) {
    && i <= |items|
    && (found ==> i < |items| && CompareItem(ikey, len, items[i]) == 0)
    && (forall j :: 0 <= j < i ==> CompareItem(ikey, len, items[j]) > 0)
    && (forall j :: (if found then i + 1 else i) <= j < |items| ==> CompareItem(ikey, len, items[j]) < 0)
  }

  /** In a layer the scan has to visit what remains of the entry at the key, and all later ones. */
  lemma AboveInLayer(t: Layer, top: bool, k: Key, incl: bool, i: nat, found: bool)
    requires Valid(t, top) && LowerIs(t.items, Ikey(k), |k|, i, found)
    ensures Above(AllKeys(t), k, incl) ==
      if found then Above(Emit(t.items[i]), k, incl) + EmitAll(t.items[i + 1..]) else EmitAll(t.items[i..])
  {
    var a, b := t.items[..i], t.items[i..];
    assert t.items == a + b;
    EmitAllJoin(a, b);
    AboveJoin(EmitAll(a), EmitAll(b), k, incl);
    ItemsBelow(a, top, k, incl);
    if found {
      EmitFrom(t.items, i);
      AboveJoin(Emit(t.items[i]), EmitAll(t.items[i + 1..]), k, incl);
      ItemsAbove(t.items[i + 1..], top, k, incl);
    } else {
      ItemsAbove(b, top, k, incl);
    }
  }

  lemma LongKey(k: Key)
    requires |k| > IKEY_SIZE
    ensures k == Bytes(Ikey(k)) + Rest(k)
  {
    BytesOfIkey(k);
  }

  /** What remains of the entry at the key. */
  lemma AboveInItem(i: Item, top: bool, k: Key, incl: bool)
    requires ItemOk(i, top) && CompareItem(Ikey(k), |k|, i) == 0
    ensures i.slot.Plain? ==> Emit(i) == [(k, i.slot.v)] && Above(Emit(i), k, incl) == if incl then Emit(i) else []
    ensures !i.slot.Plain? ==> |k| > IKEY_SIZE && k == Bytes(i.ikey) + Rest(k)
    ensures i.slot.Suffix? ==>
      Above(Emit(i), k, incl) == if FromOn(Rest(k), i.slot.rest, incl) then Emit(i) else []
    ensures i.slot.Sub? ==>
      Above(Emit(i), k, incl) == Prefixed(Bytes(i.ikey), Above(AllKeys(i.slot.layer), Rest(k), incl))
  {
    match i.slot
    case Plain(v) =>
      BytesOfIkey(k);
      assert k[..|k|] == k;
      if Less(k, k) {
        LessIsAsymmetric(k, k);
      }
    case Suffix(rest, v) =>
      LongKey(k);
      LessByPrefix(Bytes(i.ikey), Rest(k), rest);
      assert (Bytes(i.ikey) + rest)[IKEY_SIZE..] == rest;
    case Sub(layer) =>
      LongKey(k);
      AbovePrefixed(Bytes(i.ikey), EmitAll(layer.items), Rest(k), incl);
  }

  // ----- what is listed is what is stored

  datatype Found = Absent | Present(v: Value)

  function FindAt(i: Item, k: Key): Found {
    match i.slot
    case Plain(v) => Present(v)
    case Suffix(rest, v) => if |k| > IKEY_SIZE && Rest(k) == rest then Present(v) else Absent
    case Sub(layer) => if |k| > IKEY_SIZE then FindIn(layer.items, Rest(k)) else Absent
  }

  /** A point lookup. */
  function FindIn(items: seq<Item>, k: Key): Found {
    if items == [] then Absent
    else if CompareItem(Ikey(k), |k|, items[0]) == 0 then FindAt(items[0], k)
    else FindIn(items[1..], k)
  }

  lemma {:induction false} ListedInItem(i: Item, top: bool, k: Key, v: Value)
    requires ItemOk(i, top) && CompareItem(Ikey(k), |k|, i) == 0
    ensures (k, v) in Emit(i) <==> FindAt(i, k) == Present(v)
    decreases i, 1
  {
    AboveInItem(i, top, k, true);
    if i.slot.Suffix? {
      assert Emit(i) == [(Bytes(i.ikey) + i.slot.rest, i.slot.v)];
      assert (Bytes(i.ikey) + i.slot.rest)[IKEY_SIZE..] == i.slot.rest;
    } else if i.slot.Sub? {
      ListedIffStored(i.slot.layer.items, false, Rest(k), v);
      InPrefixed(Bytes(i.ikey), EmitAll(i.slot.layer.items), Rest(k), v);
    }
  }

  /** A tree lists exactly the pairs that lookups find. */
  lemma {:induction false} ListedIffStored(items: seq<Item>, top: bool, k: Key, v: Value)
    requires Ordered(items) && forall i :: i in items ==> ItemOk(i, top)
    ensures (k, v) in EmitAll(items) <==> FindIn(items, k) == Present(v)
    decreases items, 0
  {
    if items != [] {
      if CompareItem(Ikey(k), |k|, items[0]) == 0 {
        ListedInItem(items[0], top, k, v);
        NotListedAbove(items[1..], top, k, v);
      } else {
        ListedIffStored(items[1..], top, k, v);
        NotListedApart(items[0], top, k, v);
      }
    }
  }

  lemma InPrefixed(p: Key, ps: seq<Pair>, k: Key, v: Value)
    ensures (p + k, v) in Prefixed(p, ps) <==> (k, v) in ps
  {
    var r := Prefixed(p, ps);
    if (p + k, v) in r {
      var n :| 0 <= n < |r| && r[n] == (p + k, v);
      assert ps[n].0 == (p + ps[n].0)[|p|..] == (p + k)[|p|..] == k;
      assert ps[n] == (k, v);
    }
    if (k, v) in ps {
      var n :| 0 <= n < |ps| && ps[n] == (k, v);
      assert r[n] == (p + k, v);
    }
  }

  lemma NotListedApart(i: Item, top: bool, k: Key, v: Value)
    requires ItemOk(i, top) && CompareItem(Ikey(k), |k|, i) != 0
    ensures (k, v) !in Emit(i)
  {
    forall n | 0 <= n < |Emit(i)|
      ensures Emit(i)[n] != (k, v)
    {
      EmitsSpot(i, top, n);
    }
  }

  lemma NotListedAbove(items: seq<Item>, top: bool, k: Key, v: Value)
    requires forall i :: i in items ==> ItemOk(i, top) && CompareItem(Ikey(k), |k|, i) < 0
    ensures (k, v) !in EmitAll(items)
  {
    forall n | 0 <= n < |EmitAll(items)|
      ensures EmitAll(items)[n] != (k, v)
    {
      var m, l := EmitAllOne(items, n);
      EmitsSpot(items[m], top, l);
    }
  }

  // ----- what a scan is for

  function Take(ps: seq<Pair>, limit: nat): seq<Pair> { if |ps| <= limit then ps else ps[..limit] }

  /** The result of a scan, in terms of lookups: the stored keys from `first` on, in order, each with its value, and
      none left out but behind the last one when the limit is reached. */
  ghost predicate ScanIs(t: Layer, first: Key, emitFirst: bool, limit: nat, out: seq<Pair>) {
    && |out| <= limit && Ascending(out)
    && (forall k: Key, v: Value :: (k, v) in out ==> FindIn(t.items, k) == Present(v) && (Less(first, k) || (emitFirst && k == first)))
    && (forall k: Key, v: Value :: FindIn(t.items, k) == Present(v) && (Less(first, k) || (emitFirst && k == first)) ==>
          (k, v) in out || (|out| == limit && forall i :: 0 <= i < limit ==> Less(out[i].0, k)))
  }

  lemma {:induction false} AboveIs(ps: seq<Pair>, k: Key, incl: bool)
    requires Ascending(ps)
    ensures Ascending(Above(ps, k, incl))
    ensures forall pair :: pair in Above(ps, k, incl) <==> pair in ps && FromOn(k, pair.0, incl)
  {
    if ps != [] {
      AboveIs(ps[1..], k, incl);
      hide FromOn, Less;
      assert forall pair :: pair in ps <==> pair == ps[0] || pair in ps[1..];
      var rest := Above(ps[1..], k, incl);
      forall j | 0 <= j < |rest|
        ensures Less(ps[0].0, rest[j].0)
      {
        assert rest[j] in ps[1..];
        var n :| 0 <= n < |ps[1..]| && ps[1..][n] == rest[j];
        assert ps[n + 1] == rest[j];
      }
    }
  }

  lemma TakeIs(ps: seq<Pair>, limit: nat)
    requires Ascending(ps)
    ensures |Take(ps, limit)| <= limit && Ascending(Take(ps, limit))
    ensures forall pair :: pair in Take(ps, limit) ==> pair in ps
    ensures forall pair :: pair in ps ==>
      pair in Take(ps, limit) || (|Take(ps, limit)| == limit && forall i :: 0 <= i < limit ==> Less(Take(ps, limit)[i].0, pair.0))
  {
    hide Less;
    var out := Take(ps, limit);
    forall pair | pair in ps
      ensures pair in out || (|out| == limit && forall i :: 0 <= i < limit ==> Less(out[i].0, pair.0))
    {
      var n :| 0 <= n < |ps| && ps[n] == pair;
      assert n < |out| ==> out[n] == pair;
    }
  }

  lemma ScanResult(t: Layer, first: Key, emitFirst: bool, limit: nat)
    requires Valid(t, true)
    ensures ScanIs(t, first, emitFirst, limit, Take(Above(AllKeys(t), first, emitFirst), limit))
  {
    var all := AllKeys(t);
    EmitAllAscends(t.items, true);
    AboveIs(all, first, emitFirst);
    TakeIs(Above(all, first, emitFirst), limit);
    forall k: Key, v: Value
      ensures (k, v) in all <==> FindIn(t.items, k) == Present(v)
    {
      ListedIffStored(t.items, true, k, v);
    }
    hide Above, Take, Less, Valid, FindIn, AllKeys, Ascending;
  }
}
