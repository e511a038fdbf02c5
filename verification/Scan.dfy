/** A forward scan: the loop over a stack of layers, with the full key rebuilt in one buffer.
  Sources: masstree_scan.hh, masstree_key.hh. */
module Scan {
  import opened KeySlices
  import opened ScanModel

  const MAXKEYLEN := 255
  const KEYBUF := 256

  // ----- searching a layer

  lemma CompareThrough(ikey: nat, len: nat, i: Item, j: Item)
    requires CompareSpot(i.ikey, i.len, j.ikey, j.len) < 0
    ensures CompareItem(ikey, len, i) <= 0 ==> CompareItem(ikey, len, j) < 0
    ensures CompareItem(ikey, len, j) >= 0 ==> CompareItem(ikey, len, i) > 0
  {
  }

  /** `key_lower_bound`. */
  method Lower(items: seq<Item>, ikey: nat, len: nat) returns (i: nat, found: bool)
    requires Ordered(items)
    ensures LowerIs(items, ikey, len, i, found)
  {
    var l, r := 0, |items|;
    while l < r
      invariant l <= r <= |items|
      invariant forall j :: 0 <= j < l ==> CompareItem(ikey, len, items[j]) > 0
      invariant forall j :: r <= j < |items| ==> CompareItem(ikey, len, items[j]) < 0
    {
      var m := (l + r) / 2;
      var cmp := CompareItem(ikey, len, items[m]);
      forall j | 0 <= j < |items| && j != m
        ensures j > m && cmp <= 0 ==> CompareItem(ikey, len, items[j]) < 0
        ensures j < m && cmp >= 0 ==> CompareItem(ikey, len, items[j]) > 0
      {
        if j > m {
          CompareThrough(ikey, len, items[m], items[j]);
        } else {
          CompareThrough(ikey, len, items[j], items[m]);
        }
      }
      if cmp < 0 {
        r := m;
      } else if cmp == 0 {
        return m, true;
      } else {
        l := m + 1;
      }
    }
    return l, false;
  }

  lemma LowerAt(items: seq<Item>, ikey: nat, len: nat, i: nat, found: bool, at: nat)
    requires LowerIs(items, ikey, len, i, found) && at < |items| && CompareItem(ikey, len, items[at]) == 0
    ensures i == at && found
  {
  }

  /** The entries after one that equals the key are above it. */
  lemma LaterAbove(items: seq<Item>, ikey: nat, len: nat, at: nat)
    requires Ordered(items) && at < |items| && CompareItem(ikey, len, items[at]) == 0
    ensures forall j :: at < j < |items| ==> CompareItem(ikey, len, items[j]) < 0
  {
    forall j | at < j < |items|
      ensures CompareItem(ikey, len, items[j]) < 0
    {
      CompareThrough(ikey, len, items[at], items[j]);
    }
  }

  // ----- leaves of a layer

  function Start(t: Layer, n: nat): nat {
    if n < |t.leaves| then t.leaves[n].start else |t.items|
  }

  predicate IsLeaf(t: Layer, n: nat) {
    n < |t.leaves| && Start(t, n) <= Start(t, n + 1) <= |t.items|
  }

  function Entries(t: Layer, n: nat): seq<Item>
    requires IsLeaf(t, n)
  {
    t.items[Start(t, n)..Start(t, n + 1)]
  }

  /** Position `ki` of leaf `n`; the end counts. */
  predicate Inside(t: Layer, n: nat, ki: nat) {
    IsLeaf(t, n) && Start(t, n) + ki <= Start(t, n + 1)
  }

  lemma AllAreLeaves(t: Layer, n: nat)
    requires LeavesOk(t) && n < |t.leaves|
    ensures IsLeaf(t, n)
  {
  }

  predicate Responsible(t: Layer, n: nat, ikey: nat) {
    IsLeaf(t, n) && t.leaves[n].bound <= ikey && (n + 1 < |t.leaves| ==> ikey < t.leaves[n + 1].bound)
  }

  /** `reach_leaf`: the leaf responsible for a slice. */
  method ReachLeaf(t: Layer, ikey: nat) returns (n: nat)
    requires LeavesOk(t)
    ensures Responsible(t, n, ikey)
  {
    n := |t.leaves| - 1;
    while ikey < t.leaves[n].bound
      invariant n < |t.leaves| && (n + 1 < |t.leaves| ==> ikey < t.leaves[n + 1].bound)
    {
      n := n - 1;
    }
    AllAreLeaves(t, n);
  }

  lemma EntriesOrdered(t: Layer, n: nat)
    requires Ordered(t.items) && IsLeaf(t, n)
    ensures Ordered(Entries(t, n))
  {
  }

  /** A search in the responsible leaf finds the place in the whole layer. */
  lemma LowerInLeaf(t: Layer, n: nat, ikey: nat, len: nat, i: nat, found: bool)
    requires LeavesOk(t) && Responsible(t, n, ikey) && LowerIs(Entries(t, n), ikey, len, i, found)
    ensures LowerIs(t.items, ikey, len, Start(t, n) + i, found) && Inside(t, n, if found then i + 1 else i)
  {
    var a, b := Start(t, n), Start(t, n + 1);
    forall j | 0 <= j < |t.items|
      ensures j < a + i ==> CompareItem(ikey, len, t.items[j]) > 0
      ensures j >= (if found then a + i + 1 else a + i) ==> CompareItem(ikey, len, t.items[j]) < 0
    {
      if a <= j < b {
        assert Entries(t, n)[j - a] == t.items[j];
      } else if j >= b {
        assert t.items[j].ikey >= t.leaves[n + 1].bound;
      }
    }
  }

  /** An entry of the leaf that equals the key is found. */
  lemma LowerHeld(t: Layer, n: nat, ikey: nat, len: nat, i: nat, found: bool, at: nat)
    requires IsLeaf(t, n) && LowerIs(Entries(t, n), ikey, len, i, found)
    requires Start(t, n) <= at < Start(t, n + 1) && CompareItem(ikey, len, t.items[at]) == 0
    ensures Start(t, n) + i == at && Inside(t, n, i)
  {
    assert Entries(t, n)[at - Start(t, n)] == t.items[at];
    LowerAt(Entries(t, n), ikey, len, i, found, at - Start(t, n));
  }

  /** `key_lower_bound` and what it finds, in one leaf. */
  method LowerIn(t: Layer, n: nat, ikey: nat, len: nat) returns (i: nat, found: bool)
    requires Ordered(t.items) && IsLeaf(t, n)
    ensures LowerIs(Entries(t, n), ikey, len, i, found) && Inside(t, n, if found then i + 1 else i)
  {
    EntriesOrdered(t, n);
    i, found := Lower(Entries(t, n), ikey, len);
  }

  // ----- the key with its buffer

  /** `key` over the scan's buffer: `base` bytes lead to the current layer, the key of the
      current layer is `len` bytes from there, `ikey` its slice. */
  class ScanKey {
    const buf: array<Byte>
    var base: nat
    var len: nat
    var ikey: nat

    constructor (first: Key)
      requires |first| <= MAXKEYLEN
      ensures fresh(buf) && buf.Length == KEYBUF && base == 0 && len == |first| && ikey == Ikey(first)
      ensures Current() == first
    {
      base, len, ikey := 0, |first|, Ikey(first);
      buf := new Byte[KEYBUF];
      new;
      Write(0, first);
      assert buf[base..base + len] == buf[..len] == first;
    }

    method Write(at: nat, bytes: Key)
      requires at + |bytes| <= buf.Length
      modifies buf
      ensures buf[..] == old(buf[..at]) + bytes + old(buf[at + |bytes|..])
    {
      var i := 0;
      while i < |bytes|
        invariant i <= |bytes|
        invariant forall j :: 0 <= j < buf.Length ==> buf[j] == if at <= j < at + i then bytes[j - at] else old(buf[j])
      {
        buf[at + i] := bytes[i];
        i := i + 1;
      }
    }

    /** The key of the current layer. */
    function Current(): Key
      requires base + len <= buf.Length
      reads this, buf
    {
      buf[base..base + len]
    }

    /** The bytes that lead to the current layer. */
    function Prefix(): Key
      requires base <= buf.Length
      reads this, buf
    {
      buf[..base]
    }

    /** The slice as it stands in the buffer. */
    function Slice(): Key
      requires base + IKEY_SIZE <= buf.Length
      reads this, buf
    {
      buf[base..base + IKEY_SIZE]
    }

    /** `full_string`. */
    function Full(): Key
      requires base + len <= buf.Length
      reads this, buf
    {
      buf[..base + len]
    }

    method Shift()
      requires len > IKEY_SIZE && base + len <= buf.Length
      modifies this
      ensures base == old(base) + IKEY_SIZE && len == old(len) - IKEY_SIZE && ikey == Ikey(Current())
      ensures Full() == old(Full()) && Current() == Rest(old(Current()))
    {
      base, len := base + IKEY_SIZE, len - IKEY_SIZE;
      ikey := Ikey(Current());
    }

    method Unshift()
      requires IKEY_SIZE <= base <= buf.Length
      modifies this
      ensures base == old(base) - IKEY_SIZE && len == IKEY_SIZE + 1 && ikey == Ikey(buf[base..base + IKEY_SIZE])
    {
      base := base - IKEY_SIZE;
      ikey := Ikey(buf[base..base + IKEY_SIZE]);
      len := IKEY_SIZE + 1;
    }

    method ShiftClear()
      modifies this
      ensures base == old(base) + IKEY_SIZE && len == 0 && ikey == 0
    {
      ikey, len, base := 0, 0, base + IKEY_SIZE;
    }

    method AssignStoreIkey(k: nat)
      requires base + IKEY_SIZE <= buf.Length
      modifies this`ikey, buf
      ensures ikey == k && buf[..] == old(buf[..base]) + Bytes(k) + old(buf[base + IKEY_SIZE..])
    {
      ikey := k;
      Write(base, Bytes(k));
    }

    method AssignStoreSuffix(s: Key) returns (keylen: nat)
      requires base + IKEY_SIZE + |s| <= buf.Length
      modifies buf
      ensures keylen == IKEY_SIZE + |s|
      ensures buf[..] == old(buf[..base + IKEY_SIZE]) + s + old(buf[base + keylen..])
    {
      Write(base + IKEY_SIZE, s);
      keylen := IKEY_SIZE + |s|;
    }
  }

  // ----- what is still to come

  /** An outer layer of the stack, and the entry through which the scan left it. */
  datatype Frame = Frame(layer: Layer, at: nat)

  /** The frames lead to `layer` by the bytes `p`. */
  ghost predicate FramesOk(frames: seq<Frame>, layer: Layer, p: Key) {
    if frames == [] then p == [] && Valid(layer, true) && Fits(layer, MAXKEYLEN)
    else
      var f, init := frames[|frames| - 1], frames[..|frames| - 1];
      && |p| >= IKEY_SIZE && f.at < |f.layer.items| && f.layer.items[f.at].slot == Sub(layer)
      && Bytes(f.layer.items[f.at].ikey) == p[|p| - IKEY_SIZE..]
      && FramesOk(init, f.layer, p[..|p| - IKEY_SIZE])
  }

  lemma {:induction false} FramesLead(frames: seq<Frame>, layer: Layer, p: Key)
    requires FramesOk(frames, layer, p)
    ensures Valid(layer, frames == []) && Fits(layer, MAXKEYLEN - |p|)
    ensures |p| == IKEY_SIZE * |frames|
  {
    if frames != [] {
      var f, init := frames[|frames| - 1], frames[..|frames| - 1];
      FramesLead(init, f.layer, p[..|p| - IKEY_SIZE]);
      var room := MAXKEYLEN - (|p| - IKEY_SIZE);
      assert ItemOk(f.layer.items[f.at], init == []) && Fits(f.layer, room);
      assert Fits(layer, room - IKEY_SIZE);
    }
  }

  /** What the outer layers still have to emit. */
  ghost function Later(frames: seq<Frame>, p: Key): seq<Pair> {
    if frames == [] || |p| < IKEY_SIZE then []
    else
      var f, init, q := frames[|frames| - 1], frames[..|frames| - 1], p[..|p| - IKEY_SIZE];
      (if f.at < |f.layer.items| then Prefixed(q, EmitAll(f.layer.items[f.at + 1..])) else []) + Later(init, q)
  }

  /** What is to come from entry `i` of the current layer on. */
  ghost function ToCome(frames: seq<Frame>, layer: Layer, p: Key, i: nat): seq<Pair>
    requires i <= |layer.items|
  {
    Prefixed(p, EmitAll(layer.items[i..])) + Later(frames, p)
  }

  lemma PrefixedTwice(p: Key, q: Key, ps: seq<Pair>)
    ensures Prefixed(p, Prefixed(q, ps)) == Prefixed(p + q, ps)
  {
    var a, b := Prefixed(p, Prefixed(q, ps)), Prefixed(p + q, ps);
    forall i | 0 <= i < |ps|
      ensures a[i] == b[i]
    {
      assert p + (q + ps[i].0) == (p + q) + ps[i].0;
    }
  }

  lemma ToComeFirst(frames: seq<Frame>, layer: Layer, p: Key, i: nat)
    requires i < |layer.items|
    ensures ToCome(frames, layer, p, i) == Prefixed(p, Emit(layer.items[i])) + ToCome(frames, layer, p, i + 1)
  {
    EmitFrom(layer.items, i);
    PrefixedJoin(p, Emit(layer.items[i]), EmitAll(layer.items[i + 1..]));
  }

  lemma FramesDown(frames: seq<Frame>, layer: Layer, p: Key, i: nat)
    requires i < |layer.items| && layer.items[i].slot.Sub? && FramesOk(frames, layer, p)
    ensures FramesOk(frames + [Frame(layer, i)], layer.items[i].slot.layer, p + Bytes(layer.items[i].ikey))
  {
    hide Valid, Fits, Bytes;
    var b, all := Bytes(layer.items[i].ikey), frames + [Frame(layer, i)];
    assert all[..|all| - 1] == frames && (p + b)[..|p|] == p && (p + b)[|p|..] == b;
  }

  lemma LaterDown(frames: seq<Frame>, layer: Layer, p: Key, i: nat)
    requires i < |layer.items|
    ensures Later(frames + [Frame(layer, i)], p + Bytes(layer.items[i].ikey)) == ToCome(frames, layer, p, i + 1)
  {
    hide EmitAll, Bytes;
    var b, all := Bytes(layer.items[i].ikey), frames + [Frame(layer, i)];
    assert all[..|all| - 1] == frames && (p + b)[..|p|] == p;
  }

  /** Going down: the inner layer's keys first, then the rest of this one. */
  lemma ToComeDown(frames: seq<Frame>, layer: Layer, p: Key, i: nat)
    requires i < |layer.items| && layer.items[i].slot.Sub? && FramesOk(frames, layer, p)
    ensures
      var b, sub := Bytes(layer.items[i].ikey), layer.items[i].slot.layer;
      && ToCome(frames, layer, p, i) == ToCome(frames + [Frame(layer, i)], sub, p + b, 0)
      && FramesOk(frames + [Frame(layer, i)], sub, p + b)
      && Later(frames + [Frame(layer, i)], p + b) == ToCome(frames, layer, p, i + 1)
  {
    hide FramesOk, Later, EmitAll, Bytes;
    var b, sub := Bytes(layer.items[i].ikey), layer.items[i].slot.layer;
    FramesDown(frames, layer, p, i);
    LaterDown(frames, layer, p, i);
    ToComeFirst(frames, layer, p, i);
    PrefixedTwice(p, b, EmitAll(sub.items));
    assert sub.items[0..] == sub.items;
  }

  /** Going up: the outer layer goes on after the entry it was left through. */
  lemma LaterUp(frames: seq<Frame>, layer: Layer, p: Key)
    requires FramesOk(frames, layer, p) && frames != []
    ensures
      var f, init, q := frames[|frames| - 1], frames[..|frames| - 1], p[..|p| - IKEY_SIZE];
      Later(frames, p) == ToCome(init, f.layer, q, f.at + 1)
  {
  }

  // ----- a measure

  ghost function Weight(items: seq<Item>): nat {
    if items == [] then 0 else WeightOf(items[0]) + Weight(items[1..])
  }

  ghost function WeightOf(i: Item): nat {
    match i.slot
    case Plain(_) => 1
    case Suffix(_, _) => 1
    case Sub(layer) => 1 + Weight(layer.items)
  }

  ghost function LaterWeight(frames: seq<Frame>): nat {
    if frames == [] then 0
    else
      var f := frames[|frames| - 1];
      (if f.at < |f.layer.items| then Weight(f.layer.items[f.at + 1..]) else 0) + LaterWeight(frames[..|frames| - 1])
  }

  lemma WeightFirst(items: seq<Item>, i: nat)
    requires i < |items|
    ensures Weight(items[i..]) == WeightOf(items[i]) + Weight(items[i + 1..])
  {
    assert items[i..][1..] == items[i + 1..];
  }

  // ----- the states of the loop

  datatype State = ScanEmit | ScanFindNext | ScanDown | ScanUp

  /** The entry that `find_next` stops at: a duplicate is skipped. */
  function Skip(items: seq<Item>, ki: nat, ikey: nat, len: nat): nat {
    if ki < |items| && CompareItem(ikey, len, items[ki]) >= 0 then ki + 1 else ki
  }

  /** At `find_next`: entry `ki` may equal the key, all later ones are above it. */
  ghost predicate AtFindNext(frames: seq<Frame>, layer: Layer, ki: nat, ikey: nat, len: nat, p: Key, out: seq<Pair>, all: seq<Pair>) {
    && FramesOk(frames, layer, p) && ki <= |layer.items|
    && var s := Skip(layer.items, ki, ikey, len);
    && (forall j :: s <= j < |layer.items| ==> CompareItem(ikey, len, layer.items[j]) < 0)
    && out + ToCome(frames, layer, p, s) == all
  }

  /** At `scan_emit`: the buffer holds the key of entry `ki`. */
  ghost predicate AtEmit(frames: seq<Frame>, layer: Layer, ki: nat, ikey: nat, len: nat, p: Key, full: Key, v: Value,
                         out: seq<Pair>, all: seq<Pair>)
  {
    && FramesOk(frames, layer, p) && ki < |layer.items| && !layer.items[ki].slot.Sub?
    && CompareItem(ikey, len, layer.items[ki]) == 0
    && Prefixed(p, Emit(layer.items[ki])) == [(full, v)]
    && out + ToCome(frames, layer, p, ki) == all
  }

  /** At `scan_down`: the buffer holds the slice of entry `ki`, which leads to a layer. */
  ghost predicate AtDown(frames: seq<Frame>, layer: Layer, ki: nat, p: Key, slice: Key, out: seq<Pair>, all: seq<Pair>) {
    && FramesOk(frames, layer, p) && ki < |layer.items| && layer.items[ki].slot.Sub?
    && slice == Bytes(layer.items[ki].ikey)
    && out + ToCome(frames, layer, p, ki) == all
  }

  ghost predicate AtUp(frames: seq<Frame>, layer: Layer, p: Key, out: seq<Pair>, all: seq<Pair>) {
    FramesOk(frames, layer, p) && out + Later(frames, p) == all
  }

  /** At `find_next` in position `ki` of leaf `n`; entry `at` of the layer comes next. */
  ghost predicate Seeking(frames: seq<Frame>, layer: Layer, n: nat, ki: nat, at: nat, ikey: nat, len: nat, p: Key, out: seq<Pair>, all: seq<Pair>) {
    && Inside(layer, n, ki) && AtFindNext(frames, layer, Start(layer, n) + ki, ikey, len, p, out, all)
    && at == Skip(layer.items, Start(layer, n) + ki, ikey, len)
  }

  /** The state of the scan in its current layer; `at` is the entry it stands at or comes to next. */
  ghost predicate Placed(k: ScanKey, state: State, frames: seq<Frame>, layer: Layer, n: nat, ki: nat, at: nat, entry: Value,
                         p: Key, out: seq<Pair>, all: seq<Pair>)
    reads k, k.buf
  {
    && k.buf.Length == KEYBUF && k.base <= KEYBUF && k.Prefix() == p && at <= |layer.items| && Inside(layer, n, ki)
    && match state
       case ScanEmit =>
         && Start(layer, n) + ki == at && Inside(layer, n, ki + 1)
         && k.base + k.len <= KEYBUF && AtEmit(frames, layer, at, k.ikey, k.len, p, k.Full(), entry, out, all)
       case ScanFindNext =>
         Seeking(frames, layer, n, ki, at, k.ikey, k.len, p, out, all)
       case ScanDown =>
         && Start(layer, n) + ki == at && Inside(layer, n, ki + 1)
         && k.base + IKEY_SIZE <= KEYBUF && AtDown(frames, layer, at, p, k.Slice(), out, all)
       case ScanUp => AtUp(frames, layer, p, out, all) && at == |layer.items|
  }

  /** How many leaves `find_next` can still look at in the layer. */
  ghost function LeavesLeft(state: State, layer: Layer, n: nat): nat {
    if state == ScanFindNext && n < |layer.leaves| then |layer.leaves| - n else 0
  }

  lemma ItemsAreOk(frames: seq<Frame>, layer: Layer, p: Key)
    requires FramesOk(frames, layer, p)
    ensures Ordered(layer.items) && LeavesOk(layer) && |p| == IKEY_SIZE * |frames| && Valid(layer, frames == [])
    ensures forall i :: 0 <= i < |layer.items| ==> ItemOk(layer.items[i], frames == [])
    ensures forall i :: 0 <= i < |layer.items| ==> Roomy(layer.items[i], |p|)
  {
    hide FramesOk, Fits, ItemOk, Roomy, Ordered, LeavesOk, Valid;
    FramesLead(frames, layer, p);
    ValidItems(layer, frames == []);
    ItemsFit(layer, MAXKEYLEN - |p|, |p|);
  }

  lemma ValidItems(layer: Layer, top: bool)
    requires Valid(layer, top)
    ensures Ordered(layer.items) && LeavesOk(layer) && forall i :: 0 <= i < |layer.items| ==> ItemOk(layer.items[i], top)
  {
  }

  lemma ItemsFit(layer: Layer, room: int, base: nat)
    requires Fits(layer, room) && base + room == MAXKEYLEN && base % IKEY_SIZE == 0
    ensures forall i :: 0 <= i < |layer.items| ==> Roomy(layer.items[i], base)
  {
    forall i | 0 <= i < |layer.items|
      ensures Roomy(layer.items[i], base)
    {
      FitsItem(layer, room, i, base);
    }
  }

  lemma FitsItem(layer: Layer, room: int, i: nat, base: nat)
    requires i < |layer.items| && Fits(layer, room) && base + room == MAXKEYLEN && base % IKEY_SIZE == 0
    ensures Roomy(layer.items[i], base)
  {
    assert layer.items[i] in layer.items;
  }

  /** The buffer holds an entry's full key once slice and suffix are stored. */
  lemma EmitsFull(i: Item, top: bool, p: Key, buf: Key, len: nat)
    requires ItemOk(i, top) && !i.slot.Sub? && |p| + len <= |buf| && |p| + IKEY_SIZE <= |buf|
    requires buf[..|p|] == p && buf[|p|..|p| + IKEY_SIZE] == Bytes(i.ikey)
    requires i.slot.Plain? ==> len == i.len
    requires i.slot.Suffix? ==> len == IKEY_SIZE + |i.slot.rest| && buf[|p| + IKEY_SIZE..|p| + len] == i.slot.rest
    ensures Prefixed(p, Emit(i)) == [(buf[..|p| + len], i.slot.v)]
  {
    if i.slot.Plain? {
      assert buf[|p|..|p| + len] == buf[|p|..|p| + IKEY_SIZE][..len];
      assert buf[..|p| + len] == p + Bytes(i.ikey)[..len];
    } else {
      assert buf[..|p| + len] == p + (Bytes(i.ikey) + i.slot.rest);
    }
  }

  predicate Roomy(i: Item, base: nat) {
    match i.slot
    case Plain(_) => base + i.len <= MAXKEYLEN && base % IKEY_SIZE == 0
    case Suffix(rest, _) => base + IKEY_SIZE + |rest| <= MAXKEYLEN
    case Sub(_) => base + IKEY_SIZE < MAXKEYLEN
  }

  /** The suffix of an entry, if it has one, stands behind the slice. */
  ghost predicate SuffixStored(k: ScanKey, i: Item, keylen: nat)
    reads k, k.buf
  {
    && k.buf.Length == KEYBUF && k.base + IKEY_SIZE <= KEYBUF && k.base + keylen <= KEYBUF
    && keylen == (if i.slot.Suffix? then IKEY_SIZE + |i.slot.rest| else i.len)
    && (i.slot.Suffix? ==> k.buf[k.base + IKEY_SIZE..k.base + keylen] == i.slot.rest)
  }

  /** Copies the suffix of an entry behind the slice, before it is known whether to use it. */
  method CopySuffix(k: ScanKey, i: Item, ghost top: bool) returns (keylen: nat)
    requires k.buf.Length == KEYBUF && Roomy(i, k.base) && ItemOk(i, top)
    modifies k.buf
    ensures SuffixStored(k, i, keylen) && k.Prefix() == old(k.Prefix())
  {
    hide Valid;
    keylen := i.len;
    if i.slot.Suffix? {
      keylen := k.AssignStoreSuffix(i.slot.rest);
    }
  }

  /** Stores slice and length; the buffer then holds the whole key of the entry. */
  method CommitSlice(k: ScanKey, i: Item, keylen: nat, ghost top: bool)
    requires SuffixStored(k, i, keylen) && ItemOk(i, top)
    modifies k`ikey, k`len, k.buf
    ensures k.base + IKEY_SIZE <= KEYBUF && k.ikey == i.ikey && k.Prefix() == old(k.Prefix()) && k.Slice() == Bytes(i.ikey)
    ensures !i.slot.Sub? ==>
      k.len == keylen && k.base + k.len <= KEYBUF && Prefixed(k.Prefix(), Emit(i)) == [(k.Full(), i.slot.v)]
    ensures keylen == (if i.slot.Suffix? then IKEY_SIZE + |i.slot.rest| else i.len)
  {
    hide Emit, Prefixed, Valid;
    ghost var p, tail := k.Prefix(), k.buf[..][k.base + IKEY_SIZE..];
    k.AssignStoreIkey(i.ikey);
    assert k.buf[..][k.base + IKEY_SIZE..] == tail;
    assert k.Prefix() == p && k.Slice() == Bytes(i.ikey);
    if !i.slot.Sub? {
      k.len := keylen;
      if i.slot.Suffix? {
        assert tail[..|i.slot.rest|] == i.slot.rest;
      }
      EmitsFull(i, top, p, k.buf[..], keylen);
    }
  }

  lemma SeekItems(frames: seq<Frame>, layer: Layer, n: nat, ki: nat, at: nat, ikey: nat, len: nat, p: Key, out: seq<Pair>, all: seq<Pair>)
    requires Seeking(frames, layer, n, ki, at, ikey, len, p, out, all)
    ensures Inside(layer, n, ki) && at <= |layer.items| && Ordered(layer.items) && LeavesOk(layer)
    ensures forall i :: 0 <= i < |Entries(layer, n)| ==> ItemOk(Entries(layer, n)[i], frames == []) && Roomy(Entries(layer, n)[i], |p|)
  {
    hide FramesOk, Later, EmitAll, Prefixed, ItemOk, Roomy, Ordered, LeavesOk;
    ItemsAreOk(frames, layer, p);
    assert forall i :: 0 <= i < |Entries(layer, n)| ==> Entries(layer, n)[i] == layer.items[Start(layer, n) + i];
  }

  lemma NextSkips(frames: seq<Frame>, layer: Layer, ki: nat, ikey: nat, len: nat, p: Key, out: seq<Pair>, all: seq<Pair>)
    requires AtFindNext(frames, layer, ki, ikey, len, p, out, all) && ki < |layer.items|
    requires CompareItem(ikey, len, layer.items[ki]) >= 0
    ensures AtFindNext(frames, layer, ki + 1, ikey, len, p, out, all)
    ensures Skip(layer.items, ki + 1, ikey, len) == Skip(layer.items, ki, ikey, len)
  {
  }

  lemma NextEmits(frames: seq<Frame>, layer: Layer, ki: nat, ikey: nat, len: nat, p: Key, out: seq<Pair>, all: seq<Pair>, keylen: nat, full: Key)
    requires AtFindNext(frames, layer, ki, ikey, len, p, out, all) && ki < |layer.items|
    requires CompareItem(ikey, len, layer.items[ki]) < 0
    requires var i := layer.items[ki];
      !i.slot.Sub? && keylen == (if i.slot.Suffix? then IKEY_SIZE + |i.slot.rest| else i.len) && Prefixed(p, Emit(i)) == [(full, i.slot.v)]
    ensures AtEmit(frames, layer, ki, layer.items[ki].ikey, keylen, p, full, layer.items[ki].slot.v, out, all)
  {
    hide FramesOk, Later, Emit, Prefixed;
    ItemsAreOk(frames, layer, p);
  }

  lemma NextGoesDown(frames: seq<Frame>, layer: Layer, ki: nat, ikey: nat, len: nat, p: Key, out: seq<Pair>, all: seq<Pair>)
    requires AtFindNext(frames, layer, ki, ikey, len, p, out, all) && ki < |layer.items|
    requires CompareItem(ikey, len, layer.items[ki]) < 0 && layer.items[ki].slot.Sub?
    ensures AtDown(frames, layer, ki, p, Bytes(layer.items[ki].ikey), out, all)
  {
  }

  lemma NextGoesUp(frames: seq<Frame>, layer: Layer, ki: nat, ikey: nat, len: nat, p: Key, out: seq<Pair>, all: seq<Pair>)
    requires AtFindNext(frames, layer, ki, ikey, len, p, out, all) && ki >= |layer.items|
    ensures AtUp(frames, layer, p, out, all) && Skip(layer.items, ki, ikey, len) == |layer.items|
  {
    assert layer.items[|layer.items|..] == [];
  }

  /** At the first entry of the next leaf, or behind it if it is no later than the key. */
  lemma NextLeaf(frames: seq<Frame>, layer: Layer, n: nat, ikey: nat, len: nat, p: Key, out: seq<Pair>, all: seq<Pair>, i: nat, found: bool)
    requires IsLeaf(layer, n) && AtFindNext(frames, layer, Start(layer, n), ikey, len, p, out, all)
    requires LowerIs(Entries(layer, n), ikey, len, i, found)
    ensures AtFindNext(frames, layer, Start(layer, n) + i, ikey, len, p, out, all)
    ensures Skip(layer.items, Start(layer, n) + i, ikey, len) == Skip(layer.items, Start(layer, n), ikey, len)
  {
    var a, e := Start(layer, n), Entries(layer, n);
    forall j | a <= j < a + i
      ensures j < |layer.items| && CompareItem(ikey, len, layer.items[j]) > 0
    {
      assert e[j - a] == layer.items[j];
    }
    if i > 0 {
      NextSkips(frames, layer, a, ikey, len, p, out, all);
    }
  }

  lemma SeekSkips(frames: seq<Frame>, layer: Layer, n: nat, ki: nat, at: nat, ikey: nat, len: nat, p: Key, out: seq<Pair>, all: seq<Pair>)
    requires Seeking(frames, layer, n, ki, at, ikey, len, p, out, all)
    requires ki < |Entries(layer, n)| && CompareItem(ikey, len, Entries(layer, n)[ki]) >= 0
    ensures Seeking(frames, layer, n, ki + 1, at, ikey, len, p, out, all)
  {
    NextSkips(frames, layer, Start(layer, n) + ki, ikey, len, p, out, all);
  }

  lemma SeekIsInside(frames: seq<Frame>, layer: Layer, n: nat, ki: nat, at: nat, ikey: nat, len: nat, p: Key, out: seq<Pair>, all: seq<Pair>)
    requires Seeking(frames, layer, n, ki, at, ikey, len, p, out, all)
    ensures Inside(layer, n, ki) && n < |layer.leaves| && at <= |layer.items|
  {
  }

  lemma SeekNextLeaf(frames: seq<Frame>, layer: Layer, n: nat, ki: nat, at: nat, ikey: nat, len: nat, p: Key, out: seq<Pair>, all: seq<Pair>,
                     i: nat, found: bool)
    requires Seeking(frames, layer, n, ki, at, ikey, len, p, out, all) && ki == |Entries(layer, n)| && n + 1 < |layer.leaves|
    requires Inside(layer, n + 1, i) && LowerIs(Entries(layer, n + 1), ikey, len, i, found)
    ensures Seeking(frames, layer, n + 1, i, at, ikey, len, p, out, all)
  {
    hide AtFindNext, LowerIs, Skip;
    assert Start(layer, n) + ki == Start(layer, n + 1);
    hide Entries;
    NextLeaf(frames, layer, n + 1, ikey, len, p, out, all, i, found);
  }

  lemma SeekEnds(frames: seq<Frame>, layer: Layer, n: nat, ki: nat, at: nat, ikey: nat, len: nat, p: Key, out: seq<Pair>, all: seq<Pair>)
    requires Seeking(frames, layer, n, ki, at, ikey, len, p, out, all) && ki == |Entries(layer, n)| && n + 1 >= |layer.leaves|
    ensures AtUp(frames, layer, p, out, all) && at == |layer.items|
  {
    hide AtFindNext, AtUp, Skip;
    NextGoesUp(frames, layer, Start(layer, n) + ki, ikey, len, p, out, all);
  }

  /** The entry is not a duplicate: it is emitted, or its layer entered. */
  method TakeEntry(k: ScanKey, layer: Layer, n: nat, ki: nat, keylen: nat, ghost frames: seq<Frame>, ghost at: nat, ghost p: Key,
                   ghost out: seq<Pair>, ghost all: seq<Pair>)
    returns (state: State, entry: Value)
    requires k.buf.Length == KEYBUF && Seeking(frames, layer, n, ki, at, k.ikey, k.len, p, out, all) && ki < |Entries(layer, n)|
    requires CompareItem(k.ikey, k.len, Entries(layer, n)[ki]) < 0 && ItemOk(Entries(layer, n)[ki], frames == [])
    requires k.base <= KEYBUF && k.Prefix() == p && SuffixStored(k, Entries(layer, n)[ki], keylen)
    modifies k`ikey, k`len, k.buf
    ensures Placed(k, state, frames, layer, n, ki, at, entry, p, out, all)
    ensures state == ScanEmit || state == ScanDown
  {
    ghost var ikey, len, g := k.ikey, k.len, Start(layer, n) + ki;
    var i := Entries(layer, n)[ki];
    assert i == layer.items[g] && Inside(layer, n, ki + 1) && at == g;
    hide AtFindNext, AtEmit, AtDown, Emit, Prefixed, ItemOk, SuffixStored, Valid, Bytes, Inside;
    hide ScanKey.Prefix, ScanKey.Full, ScanKey.Slice;
    entry := 0;
    CommitSlice(k, i, keylen, frames == []);
    if i.slot.Sub? {
      NextGoesDown(frames, layer, g, ikey, len, p, out, all);
      state := ScanDown;
    } else {
      NextEmits(frames, layer, g, ikey, len, p, out, all, keylen, k.Full());
      state, entry := ScanEmit, i.slot.v;
    }
  }

  /** At the end of leaf `n0`. */
  method LeaveLeaf(k: ScanKey, layer: Layer, n0: nat, ki0: nat, ghost frames: seq<Frame>, ghost at: nat, ghost p: Key,
                   ghost out: seq<Pair>, ghost all: seq<Pair>)
    returns (state: State, n: nat, ki: nat)
    requires k.buf.Length == KEYBUF && k.base <= KEYBUF && k.Prefix() == p
    requires Seeking(frames, layer, n0, ki0, at, k.ikey, k.len, p, out, all) && ki0 == |Entries(layer, n0)|
    requires LeavesOk(layer) && Ordered(layer.items)
    ensures Placed(k, state, frames, layer, n, ki, at, 0, p, out, all)
    ensures LeavesLeft(state, layer, n) < LeavesLeft(ScanFindNext, layer, n0)
  {
    hide Seeking, AtUp, Ordered, LowerIs, ScanKey.Prefix, LeavesOk, IsLeaf, Entries, Start;
    SeekIsInside(frames, layer, n0, ki0, at, k.ikey, k.len, p, out, all);
    if n0 + 1 < |layer.leaves| {
      n := n0 + 1;
      AllAreLeaves(layer, n);
      var found;
      ki, found := LowerIn(layer, n, k.ikey, k.len);
      SeekNextLeaf(frames, layer, n0, ki0, at, k.ikey, k.len, p, out, all, ki, found);
      state := ScanFindNext;
    } else {
      SeekEnds(frames, layer, n0, ki0, at, k.ikey, k.len, p, out, all);
      n, ki, state := n0, ki0, ScanUp;
    }
  }

  /** `find_next`: the next entry of leaf `n0` that is not a duplicate, its key stored in the buffer;
      at the end of the leaf the search for it goes on in the next one. */
  method FindNext(k: ScanKey, layer: Layer, n0: nat, ki0: nat, ghost frames: seq<Frame>, ghost at: nat, ghost p: Key,
                  ghost out: seq<Pair>, ghost all: seq<Pair>)
    returns (state: State, n: nat, ki: nat, entry: Value)
    requires k.buf.Length == KEYBUF && k.base <= KEYBUF && k.Prefix() == p
    requires Seeking(frames, layer, n0, ki0, at, k.ikey, k.len, p, out, all)
    modifies k`ikey, k`len, k.buf
    ensures Placed(k, state, frames, layer, n, ki, at, entry, p, out, all)
    ensures LeavesLeft(state, layer, n) < LeavesLeft(ScanFindNext, layer, n0)
  {
    assert |p| == k.base;
    hide Seeking, Placed, ItemOk, Ordered, CompareItem, SuffixStored, LeavesOk, Roomy, Entries, LeavesLeft, Start, ScanKey.Prefix;
    SeekItems(frames, layer, n0, ki0, at, k.ikey, k.len, p, out, all);
    n, ki, entry := n0, ki0, 0;
    while ki < |Entries(layer, n)|
      invariant ki <= |Entries(layer, n)| && n == n0 && k.Prefix() == p
      invariant k.ikey == old(k.ikey) && k.len == old(k.len) && Seeking(frames, layer, n, ki, at, k.ikey, k.len, p, out, all)
    {
      var keylen := CopySuffix(k, Entries(layer, n)[ki], frames == []);
      if CompareItem(k.ikey, k.len, Entries(layer, n)[ki]) < 0 {
        state, entry := TakeEntry(k, layer, n, ki, keylen, frames, at, p, out, all);
        return;
      }
      SeekSkips(frames, layer, n, ki, at, k.ikey, k.len, p, out, all);
      ki := ki + 1;
    }
    state, n, ki := LeaveLeaf(k, layer, n, ki, frames, at, p, out, all);
  }

  // ----- the first key

  /** The invariant of the loop around `find_initial`. */
  ghost predicate AtStart(frames: seq<Frame>, layer: Layer, p: Key, cur: Key, incl: bool, all: seq<Pair>) {
    FramesOk(frames, layer, p) && Prefixed(p, Above(AllKeys(layer), cur, incl)) + Later(frames, p) == all
  }

  lemma StartAt(frames: seq<Frame>, layer: Layer, p: Key, cur: Key, incl: bool, i: nat, found: bool, all: seq<Pair>)
    requires AtStart(frames, layer, p, cur, incl, all) && LowerIs(layer.items, Ikey(cur), |cur|, i, found)
    ensures all ==
      if found then Prefixed(p, Above(Emit(layer.items[i]), cur, incl)) + ToCome(frames, layer, p, i + 1)
      else ToCome(frames, layer, p, i)
  {
    hide FramesOk, Later, Emit, EmitAll, Above;
    ItemsAreOk(frames, layer, p);
    AboveInLayer(layer, frames == [], cur, incl, i, found);
    if found {
      PrefixedJoin(p, Above(Emit(layer.items[i]), cur, incl), EmitAll(layer.items[i + 1..]));
    }
  }

  /** The entry at the first key is a layer: the search goes on in it with the rest of the key. */
  lemma StartGoesDown(frames: seq<Frame>, layer: Layer, p: Key, cur: Key, incl: bool, i: nat, all: seq<Pair>)
    requires AtStart(frames, layer, p, cur, incl, all) && LowerIs(layer.items, Ikey(cur), |cur|, i, true) && layer.items[i].slot.Sub?
    ensures |cur| > IKEY_SIZE && cur[..IKEY_SIZE] == Bytes(layer.items[i].ikey)
    ensures
      var b, sub, more := Bytes(layer.items[i].ikey), layer.items[i].slot.layer, frames + [Frame(layer, i)];
      AtStart(more, sub, p + b, Rest(cur), incl, all)
  {
    hide FramesOk, Later, Emit, EmitAll, Above;
    StartAt(frames, layer, p, cur, incl, i, true, all);
    ItemsAreOk(frames, layer, p);
    AboveInItem(layer.items[i], frames == [], cur, incl);
    ToComeDown(frames, layer, p, i);
    PrefixedTwice(p, Bytes(layer.items[i].ikey), Above(AllKeys(layer.items[i].slot.layer), Rest(cur), incl));
  }

  predicate NotEmitted(i: Item, cur: Key, incl: bool) {
    match i.slot
    case Plain(_) => !incl
    case Suffix(rest, _) => |cur| > IKEY_SIZE ==> !FromOn(Rest(cur), rest, incl)
    case Sub(_) => false
  }

  /** The entry at the first key is not to be emitted, or there is none. */
  lemma StartSkips(frames: seq<Frame>, layer: Layer, p: Key, cur: Key, incl: bool, i: nat, found: bool, all: seq<Pair>)
    requires AtStart(frames, layer, p, cur, incl, all) && LowerIs(layer.items, Ikey(cur), |cur|, i, found)
    requires found ==> NotEmitted(layer.items[i], cur, incl)
    ensures AtFindNext(frames, layer, if found then i + 1 else i, Ikey(cur), |cur|, p, [], all)
  {
    hide FramesOk, Later, Emit, EmitAll, Above;
    StartAt(frames, layer, p, cur, incl, i, found, all);
    ItemsAreOk(frames, layer, p);
    if found {
      AboveInItem(layer.items[i], frames == [], cur, incl);
    }
  }

  /** The entry at the first key is the first to be emitted. */
  lemma StartEmits(frames: seq<Frame>, layer: Layer, p: Key, cur: Key, incl: bool, i: nat, all: seq<Pair>, full: Key)
    requires AtStart(frames, layer, p, cur, incl, all) && LowerIs(layer.items, Ikey(cur), |cur|, i, true) && !layer.items[i].slot.Sub?
    requires layer.items[i].slot.Plain? ==> incl && full == p + cur
    requires layer.items[i].slot.Suffix? && |cur| > IKEY_SIZE ==>
      FromOn(Rest(cur), layer.items[i].slot.rest, incl) && full == p + cur[..IKEY_SIZE] + layer.items[i].slot.rest
    ensures layer.items[i].slot.Suffix? ==> |cur| > IKEY_SIZE
    ensures
      var s := layer.items[i].slot;
      AtEmit(frames, layer, i, Ikey(cur), if s.Suffix? then IKEY_SIZE + |s.rest| else |cur|, p, full, s.v, [], all)
  {
    hide FramesOk, Later, EmitAll, Above;
    StartAt(frames, layer, p, cur, incl, i, true, all);
    ItemsAreOk(frames, layer, p);
    AboveInItem(layer.items[i], frames == [], cur, incl);
    ToComeFirst(frames, layer, p, i);
    if layer.items[i].slot.Suffix? {
      assert p + cur[..IKEY_SIZE] + layer.items[i].slot.rest == p + (Bytes(layer.items[i].ikey) + layer.items[i].slot.rest);
    }
  }

  /** What the stack of nodes holds for a layer above: its root, and the leaf the scan left. */
  datatype Held = Held(root: Layer, leaf: nat)

  ghost predicate HeldIs(h: Held, f: Frame) {
    h.root == f.layer && IsLeaf(h.root, h.leaf) && Start(h.root, h.leaf) <= f.at < Start(h.root, h.leaf + 1)
  }

  ghost predicate Stacked(stack: seq<Held>, frames: seq<Frame>) {
    |stack| == |frames| && forall i :: 0 <= i < |stack| ==> HeldIs(stack[i], frames[i])
  }

  lemma StartFacts(t: Layer, cur: Key, incl: bool)
    requires Valid(t, true) && Fits(t, MAXKEYLEN)
    ensures AtStart([], t, [], cur, incl, Above(AllKeys(t), cur, incl)) && Stacked([], [])
  {
    var ps := Above(AllKeys(t), cur, incl);
    assert FramesOk([], t, []);
    hide Valid, Fits, FramesOk, Above, EmitAll;
    forall i | 0 <= i < |ps|
      ensures Prefixed([], ps)[i] == ps[i]
    {
      assert [] + ps[i].0 == ps[i].0;
    }
  }

  lemma FullWithSuffix(buf: Key, p: Key, cur: Key, rest: Key)
    requires |p| + IKEY_SIZE + |rest| <= |buf| && |cur| > IKEY_SIZE
    requires buf[..|p| + IKEY_SIZE] == p + cur[..IKEY_SIZE]
    requires buf[|p| + IKEY_SIZE..|p| + IKEY_SIZE + |rest|] == rest
    ensures buf[..|p| + IKEY_SIZE + |rest|] == p + cur[..IKEY_SIZE] + rest
  {
  }

  ghost predicate KeyIs(k: ScanKey, p: Key, cur: Key)
    reads k, k.buf
  {
    && k.buf.Length == KEYBUF && k.base + k.len <= MAXKEYLEN && k.Prefix() == p
    && k.Current() == cur && k.ikey == Ikey(cur) && k.len == |cur|
  }

  lemma StackedMore(stack: seq<Held>, frames: seq<Frame>, layer: Layer, n: nat, ki: nat)
    requires Stacked(stack, frames) && Inside(layer, n, ki + 1)
    ensures Stacked(stack + [Held(layer, n)], frames + [Frame(layer, Start(layer, n) + ki)])
  {
  }

  /** The suffix at the first key replaces the rest of the key in the buffer. */
  method StartSuffix(k: ScanKey, rest: Key, ghost p: Key, ghost cur: Key)
    requires KeyIs(k, p, cur) && |cur| > IKEY_SIZE && k.base + IKEY_SIZE + |rest| <= MAXKEYLEN
    modifies k`len, k.buf
    ensures k.base + k.len <= KEYBUF && k.len == IKEY_SIZE + |rest| && k.Prefix() == p
    ensures k.Full() == p + cur[..IKEY_SIZE] + rest
  {
    assert k.buf[..k.base + IKEY_SIZE] == p + cur[..IKEY_SIZE];
    var keylen := k.AssignStoreSuffix(rest);
    k.len := keylen;
    FullWithSuffix(k.buf[..], p, cur, rest);
  }

  /** One step down with the rest of the first key. */
  method StartDown(k: ScanKey, ghost p: Key, ghost cur: Key)
    requires KeyIs(k, p, cur) && |cur| > IKEY_SIZE
    modifies k
    ensures KeyIs(k, p + cur[..IKEY_SIZE], Rest(cur)) && k.len < old(k.len)
  {
    k.Shift();
  }

  /** The entry `i` at the first key is emitted, with its own suffix if it has one. */
  method StartEmit(k: ScanKey, layer: Layer, i: Item, incl: bool, ghost frames: seq<Frame>, ghost p: Key, ghost cur: Key, ghost all: seq<Pair>,
                   ghost at: nat)
    returns (v: Value)
    requires KeyIs(k, p, cur) && AtStart(frames, layer, p, cur, incl, all) && LowerIs(layer.items, Ikey(cur), |cur|, at, true)
    requires at < |layer.items| && layer.items[at] == i && Roomy(i, |p|) && (i.slot.Plain? ==> incl) && !i.slot.Sub?
    requires i.slot.Suffix? ==> |cur| > IKEY_SIZE && FromOn(Rest(cur), i.slot.rest, incl)
    modifies k`len, k.buf
    ensures k.base + k.len <= KEYBUF && k.Prefix() == p
    ensures AtEmit(frames, layer, at, k.ikey, k.len, p, k.Full(), v, [], all)
  {
    hide AtEmit, Above, Later, FramesOk, Prefixed, EmitAll, Emit, FromOn, LowerIs, ItemOk;
    v := i.slot.v;
    if i.slot.Suffix? {
      StartSuffix(k, i.slot.rest, p, cur);
      StartEmits(frames, layer, p, cur, incl, at, all, p + cur[..IKEY_SIZE] + i.slot.rest);
    } else {
      assert k.Full() == p + cur;
      StartEmits(frames, layer, p, cur, incl, at, all, p + cur);
    }
  }

  lemma StartItems(frames: seq<Frame>, layer: Layer, p: Key, cur: Key, incl: bool, all: seq<Pair>)
    requires AtStart(frames, layer, p, cur, incl, all)
    ensures Ordered(layer.items) && LeavesOk(layer) && FramesOk(frames, layer, p)
    ensures forall i :: 0 <= i < |layer.items| ==> Roomy(layer.items[i], |p|)
  {
    hide FramesOk, Later;
    ItemsAreOk(frames, layer, p);
  }

  lemma StartLong(frames: seq<Frame>, layer: Layer, p: Key, cur: Key, i: nat)
    requires FramesOk(frames, layer, p) && LowerIs(layer.items, Ikey(cur), |cur|, i, true)
    ensures i < |layer.items| && (layer.items[i].slot.Suffix? ==> |cur| > IKEY_SIZE)
  {
    hide FramesOk;
    ItemsAreOk(frames, layer, p);
  }

  lemma KeyFacts(k: ScanKey, p: Key, cur: Key)
    requires KeyIs(k, p, cur)
    ensures k.buf.Length == KEYBUF && k.base + k.len <= MAXKEYLEN && k.Prefix() == p && k.Current() == cur
    ensures k.ikey == Ikey(cur) && k.len == |cur|
  {
  }

  /** The first key leads into the layer of entry `ki` of leaf `n`. */
  ghost predicate LeadsDown(layer: Layer, n: nat, ki: nat, cur: Key) {
    && Inside(layer, n, ki + 1) && layer.items[Start(layer, n) + ki].slot.Sub?
    && LowerIs(layer.items, Ikey(cur), |cur|, Start(layer, n) + ki, true)
  }

  /** `find_initial`: what to do at the first key in one layer. */
  method FindInitial(k: ScanKey, layer: Layer, incl: bool, ghost frames: seq<Frame>, ghost p: Key, ghost cur: Key, ghost all: seq<Pair>)
    returns (state: State, n: nat, ki: nat, entry: Value, ghost at: nat)
    requires AtStart(frames, layer, p, cur, incl, all) && KeyIs(k, p, cur)
    modifies k`len, k.buf
    ensures state == ScanDown ==> KeyIs(k, p, cur) && k.len == old(k.len) && LeadsDown(layer, n, ki, cur)
    ensures state == ScanEmit || state == ScanFindNext || state == ScanDown
    ensures state != ScanDown ==> Placed(k, state, frames, layer, n, ki, at, entry, p, [], all)
  {
    hide AtFindNext, AtEmit, AtStart, KeyIs, Above, FramesOk, Prefixed, EmitAll, Emit, FromOn, LowerIs, ItemOk, Fits, Valid, Bytes, CompareItem, Ordered;
    hide ScanKey.Prefix, ScanKey.Full, ScanKey.Slice, ScanKey.Current, LeavesOk;
    KeyFacts(k, p, cur);
    StartItems(frames, layer, p, cur, incl, all);
    var found;
    entry := 0;
    n := ReachLeaf(layer, k.ikey);
    ki, found := LowerIn(layer, n, k.ikey, k.len);
    LowerInLeaf(layer, n, k.ikey, k.len, ki, found);
    at := Start(layer, n) + ki;
    if found && Entries(layer, n)[ki].slot.Sub? {
      state := ScanDown;
    } else if found && if Entries(layer, n)[ki].slot.Plain? then incl
                       else k.len > IKEY_SIZE && FromOn(Rest(k.Current()), Entries(layer, n)[ki].slot.rest, incl) {
      StartLong(frames, layer, p, cur, at);
      entry := StartEmit(k, layer, Entries(layer, n)[ki], incl, frames, p, cur, all, at);
      state := ScanEmit;
    } else {
      StartSkips(frames, layer, p, cur, incl, at, found, all);
      ki := if found then ki + 1 else ki;
      at := Skip(layer.items, Start(layer, n) + ki, k.ikey, k.len);
      state := ScanFindNext;
    }
  }

  // ----- the whole scan

  /** After a visit the scan goes on behind the entry. */
  lemma Visited(frames: seq<Frame>, layer: Layer, ki: nat, ikey: nat, len: nat, p: Key, full: Key, v: Value, out: seq<Pair>, all: seq<Pair>)
    requires AtEmit(frames, layer, ki, ikey, len, p, full, v, out, all)
    ensures |out| < |all| && out + [(full, v)] == all[..|out| + 1]
    ensures AtFindNext(frames, layer, ki + 1, ikey, len, p, out + [(full, v)], all)
    ensures Skip(layer.items, ki + 1, ikey, len) == ki + 1 <= |layer.items|
    ensures Weight(layer.items[ki + 1..]) < Weight(layer.items[ki..])
  {
    hide FramesOk, Later, Emit, Prefixed;
    ItemsAreOk(frames, layer, p);
    ToComeFirst(frames, layer, p, ki);
    LaterAbove(layer.items, ikey, len, ki);
    WeightFirst(layer.items, ki);
    assert out + ([(full, v)] + ToCome(frames, layer, p, ki + 1)) == (out + [(full, v)]) + ToCome(frames, layer, p, ki + 1);
  }

  lemma ClearedIsBelow(items: seq<Item>, i: nat, found: bool)
    requires LowerIs(items, 0, 0, i, found) && forall j :: 0 <= j < |items| ==> ItemOk(items[j], false)
    ensures i == 0 && !found
  {
    assert items != [] ==> ItemOk(items[0], false);
  }

  /** In a fresh layer the cleared key is below all entries. */
  lemma WentDown(frames: seq<Frame>, layer: Layer, ki: nat, p: Key, slice: Key, out: seq<Pair>, all: seq<Pair>, i: nat, found: bool)
    requires AtDown(frames, layer, ki, p, slice, out, all)
    requires LowerIs(layer.items[ki].slot.layer.items, 0, 0, i, found)
    ensures
      var sub, more := layer.items[ki].slot.layer, frames + [Frame(layer, ki)];
      && AtFindNext(more, sub, i, 0, 0, p + slice, out, all)
      && i == Skip(sub.items, i, 0, 0) == 0
      && Weight(sub.items[i..]) + LaterWeight(more) < Weight(layer.items[ki..]) + LaterWeight(frames)
  {
    var sub, more := layer.items[ki].slot.layer, frames + [Frame(layer, ki)];
    ToComeDown(frames, layer, p, ki);
    FramesLead(more, sub, p + slice);
    WeightFirst(layer.items, ki);
    assert more[..|more| - 1] == frames && sub.items[0..] == sub.items;
    ClearedIsBelow(sub.items, i, found);
  }

  /** Back in the outer layer the key is found at the entry it was left through. */
  lemma WentUp(frames: seq<Frame>, layer: Layer, p: Key, out: seq<Pair>, all: seq<Pair>)
    requires AtUp(frames, layer, p, out, all) && frames != [] && |p| >= IKEY_SIZE
    ensures
      var f, init, q := frames[|frames| - 1], frames[..|frames| - 1], p[..|p| - IKEY_SIZE];
      && f.at < |f.layer.items| && CompareItem(Ikey(p[|p| - IKEY_SIZE..]), IKEY_SIZE + 1, f.layer.items[f.at]) == 0
      && AtFindNext(init, f.layer, f.at, Ikey(p[|p| - IKEY_SIZE..]), IKEY_SIZE + 1, q, out, all)
      && Skip(f.layer.items, f.at, Ikey(p[|p| - IKEY_SIZE..]), IKEY_SIZE + 1) == f.at + 1
      && Weight(f.layer.items[f.at + 1..]) + LaterWeight(init) == LaterWeight(frames)
  {
    hide Later, EmitAll, Weight;
    var f, init, q := frames[|frames| - 1], frames[..|frames| - 1], p[..|p| - IKEY_SIZE];
    LaterUp(frames, layer, p);
    ItemsAreOk(init, f.layer, q);
    IkeyOfBytes(f.layer.items[f.at].ikey);
    LaterAbove(f.layer.items, Ikey(p[|p| - IKEY_SIZE..]), IKEY_SIZE + 1, f.at);
  }

  lemma UpHasSlice(frames: seq<Frame>, layer: Layer, p: Key, out: seq<Pair>, all: seq<Pair>)
    requires AtUp(frames, layer, p, out, all)
    ensures |p| == IKEY_SIZE * |frames|
    ensures frames == [] ==> out == all
    ensures frames != [] ==> Ordered(frames[|frames| - 1].layer.items)
  {
    FramesLead(frames, layer, p);
    if frames != [] {
      FramesLead(frames[..|frames| - 1], frames[|frames| - 1].layer, p[..|p| - IKEY_SIZE]);
    }
  }

  lemma DownIsOrdered(frames: seq<Frame>, layer: Layer, ki: nat, p: Key, slice: Key, out: seq<Pair>, all: seq<Pair>)
    requires AtDown(frames, layer, ki, p, slice, out, all)
    ensures ki < |layer.items| && layer.items[ki].slot.Sub?
    ensures Ordered(layer.items[ki].slot.layer.items) && LeavesOk(layer.items[ki].slot.layer)
  {
    FramesLead(frames, layer, p);
    assert ItemOk(layer.items[ki], frames == []) && Valid(layer.items[ki].slot.layer, false);
  }

  /** The invariant of the loop of `scan`. */
  ghost predicate Ready(k: ScanKey, state: State, stack: seq<Held>, frames: seq<Frame>, layer: Layer, n: nat, ki: nat, at: nat, entry: Value,
                        p: Key, out: seq<Pair>, all: seq<Pair>)
    reads k, k.buf
  {
    Stacked(stack, frames) && Placed(k, state, frames, layer, n, ki, at, entry, p, out, all)
  }

  ghost function Work(frames: seq<Frame>, layer: Layer, at: nat): nat {
    (if at <= |layer.items| then Weight(layer.items[at..]) else 0) + LaterWeight(frames)
  }

  lemma EmitStep(k: ScanKey, stack: seq<Held>, frames: seq<Frame>, layer: Layer, n: nat, ki: nat, at: nat, entry: Value,
                 p: Key, out: seq<Pair>, all: seq<Pair>)
    requires Ready(k, ScanEmit, stack, frames, layer, n, ki, at, entry, p, out, all)
    ensures k.base + k.len <= k.buf.Length
    ensures out + [(k.Full(), entry)] <= all
    ensures Ready(k, ScanFindNext, stack, frames, layer, n, ki + 1, at + 1, entry, p, out + [(k.Full(), entry)], all)
    ensures Work(frames, layer, at + 1) < Work(frames, layer, at)
  {
    hide AtFindNext, AtEmit, Stacked, Weight, LaterWeight, ScanKey.Prefix, ScanKey.Full, Skip;
    Visited(frames, layer, at, k.ikey, k.len, p, k.Full(), entry, out, all);
  }

  lemma DownEntry(layer: Layer, n: nat, ki: nat, cur: Key)
    requires LeadsDown(layer, n, ki, cur)
    ensures n < |layer.leaves| && ki < |Entries(layer, n)| && Inside(layer, n, ki + 1)
    ensures
      var i := Start(layer, n) + ki;
      && i < |layer.items| && Entries(layer, n)[ki] == layer.items[i] && layer.items[i].slot.Sub?
      && LowerIs(layer.items, Ikey(cur), |cur|, i, true)
  {
    hide LowerIs;
  }

  /** The loop of `scan` around `find_initial`. */
  method Descend(k: ScanKey, t: Layer, incl: bool, ghost all: seq<Pair>)
    returns (state: State, stack: seq<Held>, layer: Layer, n: nat, ki: nat, entry: Value, ghost frames: seq<Frame>, ghost at: nat, ghost p: Key)
    requires Valid(t, true) && Fits(t, MAXKEYLEN)
    requires k.buf.Length == KEYBUF && k.base == 0 && k.len <= MAXKEYLEN && k.ikey == Ikey(k.Current())
    requires all == Above(AllKeys(t), k.Current(), incl)
    modifies k, k.buf
    ensures Ready(k, state, stack, frames, layer, n, ki, at, entry, p, [], all)
  {
    assert KeyIs(k, [], k.Current());
    hide Placed, AtStart, KeyIs, Above, LowerIs, Stacked, EmitAll, Valid, Fits, AllKeys, Entries, Start, Inside, LeadsDown, LeavesOk, ScanKey.Current;
    ghost var cur := k.Current();
    stack, layer, frames, p := [], t, [], [];
    StartFacts(t, cur, incl);
    while true
      invariant AtStart(frames, layer, p, cur, incl, all) && Stacked(stack, frames) && KeyIs(k, p, cur)
      decreases k.len
    {
      state, n, ki, entry, at := FindInitial(k, layer, incl, frames, p, cur, all);
      if state != ScanDown {
        return;
      }
      DownEntry(layer, n, ki, cur);
      at := Start(layer, n) + ki;
      StartGoesDown(frames, layer, p, cur, incl, at, all);
      StackedMore(stack, frames, layer, n, ki);
      frames, stack, layer := frames + [Frame(layer, at)], stack + [Held(layer, n)], Entries(layer, n)[ki].slot.layer;
      StartDown(k, p, cur);
      p, cur := p + cur[..IKEY_SIZE], Rest(cur);
    }
  }

  method NextStep(k: ScanKey, stack: seq<Held>, layer: Layer, n0: nat, ki0: nat, entry0: Value, ghost frames: seq<Frame>, ghost at: nat, ghost p: Key,
                  ghost out: seq<Pair>, ghost all: seq<Pair>)
    returns (state: State, n: nat, ki: nat, entry: Value)
    requires Ready(k, ScanFindNext, stack, frames, layer, n0, ki0, at, entry0, p, out, all)
    modifies k, k.buf
    ensures LeavesLeft(state, layer, n) < LeavesLeft(ScanFindNext, layer, n0)
    ensures Ready(k, state, stack, frames, layer, n, ki, at, entry, p, out, all)
  {
    hide Seeking, Stacked, ScanKey.Prefix, LeavesLeft;
    assert Placed(k, ScanFindNext, frames, layer, n0, ki0, at, entry0, p, out, all);
    hide Placed;
    state, n, ki, entry := FindNext(k, layer, n0, ki0, frames, at, p, out, all);
  }

  /** `scan_down` and the search that follows it. */
  method DownStep(k: ScanKey, stack: seq<Held>, layer: Layer, n: nat, ki: nat, entry: Value, ghost frames: seq<Frame>, ghost at: nat, ghost p: Key,
                  ghost out: seq<Pair>, ghost all: seq<Pair>)
    returns (stack': seq<Held>, layer': Layer, n': nat, ki': nat, ghost frames': seq<Frame>, ghost p': Key, ghost at': nat)
    requires Ready(k, ScanDown, stack, frames, layer, n, ki, at, entry, p, out, all)
    modifies k, k.buf
    ensures Ready(k, ScanFindNext, stack', frames', layer', n', ki', at', entry, p', out, all)
    ensures Work(frames', layer', at') < Work(frames, layer, at)
  {
    hide AtFindNext, AtDown, Stacked, Weight, LaterWeight, LowerIs, Ordered, LeavesOk;
    DownIsOrdered(frames, layer, at, p, k.Slice(), out, all);
    ghost var slice := k.Slice();
    k.ShiftClear();
    assert k.Prefix() == p + slice;
    layer' := Entries(layer, n)[ki].slot.layer;
    var found;
    n' := ReachLeaf(layer', k.ikey);
    ki', found := LowerIn(layer', n', k.ikey, k.len);
    LowerInLeaf(layer', n', k.ikey, k.len, ki', found);
    at' := Start(layer', n') + ki';
    WentDown(frames, layer, at, p, slice, out, all, at', found);
    StackedMore(stack, frames, layer, n, ki);
    stack', frames', p' := stack + [Held(layer, n)], frames + [Frame(layer, at)], p + slice;
  }

  lemma StackedLess(stack: seq<Held>, frames: seq<Frame>)
    requires Stacked(stack, frames)
    ensures |stack| == |frames|
    ensures stack != [] ==>
      Stacked(stack[..|stack| - 1], frames[..|frames| - 1]) && HeldIs(stack[|stack| - 1], frames[|frames| - 1])
  {
  }

  /** `scan_up` from an inner layer. */
  method UpStep(k: ScanKey, stack: seq<Held>, layer: Layer, n: nat, ki: nat, entry: Value, ghost frames: seq<Frame>, ghost p: Key,
                ghost out: seq<Pair>, ghost all: seq<Pair>)
    returns (stack': seq<Held>, layer': Layer, n': nat, ki': nat, ghost frames': seq<Frame>, ghost p': Key, ghost at': nat)
    requires Ready(k, ScanUp, stack, frames, layer, n, ki, |layer.items|, entry, p, out, all) && stack != []
    modifies k, k.buf
    ensures Ready(k, ScanFindNext, stack', frames', layer', n', ki', at', entry, p', out, all)
    ensures Work(frames', layer', at') == Work(frames, layer, |layer.items|) && |frames'| < |frames|
  {
    hide AtFindNext, AtUp, Stacked, LaterWeight, LowerIs, Ordered, Skip;
    UpHasSlice(frames, layer, p, out, all);
    StackedLess(stack, frames);
    layer', n' := stack[|stack| - 1].root, stack[|stack| - 1].leaf;
    p' := p[..|p| - IKEY_SIZE];
    k.Unshift();
    assert k.Prefix() == p' && k.buf[k.base..k.base + IKEY_SIZE] == p[|p| - IKEY_SIZE..];
    WentUp(frames, layer, p, out, all);
    at' := frames[|frames| - 1].at + 1;
    var found;
    ki', found := LowerIn(layer', n', k.ikey, k.len);
    LowerHeld(layer', n', k.ikey, k.len, ki', found, at' - 1);
    assert layer.items[|layer.items|..] == [];
    stack', frames' := stack[..|stack| - 1], frames[..|frames| - 1];
  }

  lemma UpIsDone(k: ScanKey, frames: seq<Frame>, layer: Layer, n: nat, ki: nat, at: nat, entry: Value, p: Key, out: seq<Pair>, all: seq<Pair>)
    requires Ready(k, ScanUp, [], frames, layer, n, ki, at, entry, p, out, all)
    ensures out == all
  {
    UpHasSlice(frames, layer, p, out, all);
  }

  lemma AtIs(k: ScanKey, state: State, stack: seq<Held>, frames: seq<Frame>, layer: Layer, n: nat, ki: nat, at: nat, entry: Value,
             p: Key, out: seq<Pair>, all: seq<Pair>)
    requires Ready(k, state, stack, frames, layer, n, ki, at, entry, p, out, all)
    ensures state == ScanUp ==> at == |layer.items|
  {
  }

  /** The cases of the loop that visit nothing. */
  method Step(k: ScanKey, state0: State, stack0: seq<Held>, layer0: Layer, n0: nat, ki0: nat, entry0: Value, ghost frames0: seq<Frame>, ghost at0: nat,
              ghost p0: Key, ghost out: seq<Pair>, ghost all: seq<Pair>)
    returns (state: State, stack: seq<Held>, layer: Layer, n: nat, ki: nat, entry: Value, ghost frames: seq<Frame>, ghost at: nat, ghost p: Key)
    requires Ready(k, state0, stack0, frames0, layer0, n0, ki0, at0, entry0, p0, out, all) && state0 != ScanEmit
    requires state0 == ScanUp ==> stack0 != []
    modifies k, k.buf
    ensures Ready(k, state, stack, frames, layer, n, ki, at, entry, p, out, all)
    ensures
      || Work(frames, layer, at) < Work(frames0, layer0, at0)
      || (Work(frames, layer, at) == Work(frames0, layer0, at0) &&
          (|frames| < |frames0| || (|frames| == |frames0| && LeavesLeft(state, layer, n) < LeavesLeft(state0, layer0, n0))))
  {
    hide Ready, Work, LeavesLeft;
    AtIs(k, state0, stack0, frames0, layer0, n0, ki0, at0, entry0, p0, out, all);
    state, stack, layer, n, ki, entry, frames, at, p := state0, stack0, layer0, n0, ki0, entry0, frames0, at0, p0;
    match state
    case ScanFindNext =>
      state, n, ki, entry := NextStep(k, stack, layer, n, ki, entry, frames, at, p, out, all);
    case ScanDown =>
      stack, layer, n, ki, frames, p, at := DownStep(k, stack, layer, n, ki, entry, frames, at, p, out, all);
      state := ScanFindNext;
    case ScanUp =>
      stack, layer, n, ki, frames, p, at := UpStep(k, stack, layer, n, ki, entry, frames, p, out, all);
      state := ScanFindNext;
  }

  /** `scan`: visits the keys from `first` on in order, until the visitor has had `limit`. */
  method ScanFrom(t: Layer, first: Key, emitFirst: bool, limit: nat) returns (out: seq<Pair>)
    requires Valid(t, true) && Fits(t, MAXKEYLEN) && |first| <= MAXKEYLEN && limit > 0
    ensures out == Take(Above(AllKeys(t), first, emitFirst), limit)
    ensures ScanIs(t, first, emitFirst, limit, out)
  {
    hide Ready, Above, AllKeys, Work, EmitAll, Take, ScanIs, Valid, Fits, LeavesLeft, ScanKey.Current, ScanKey.Full;
    ScanResult(t, first, emitFirst, limit);
    var k := new ScanKey(first);
    ghost var all := Above(AllKeys(t), first, emitFirst);
    out := [];
    var stack: seq<Held>, layer: Layer, n: nat, ki: nat, state: State, entry: Value;
    ghost var frames: seq<Frame>, p: Key, at: nat;
    state, stack, layer, n, ki, entry, frames, at, p := Descend(k, t, emitFirst, all);
    while true
      invariant fresh(k) && fresh(k.buf) && |out| < limit && out <= all
      invariant Ready(k, state, stack, frames, layer, n, ki, at, entry, p, out, all)
      decreases Work(frames, layer, at), |frames|, LeavesLeft(state, layer, n)
    {
      if state == ScanEmit {
        EmitStep(k, stack, frames, layer, n, ki, at, entry, p, out, all);
        out := out + [(k.Full(), entry)];
        if |out| == limit {
          TakeThat(all, out);
          return;
        }
        ki, at, state := ki + 1, at + 1, ScanFindNext;
      } else if state == ScanUp && stack == [] {
        UpIsDone(k, frames, layer, n, ki, at, entry, p, out, all);
        TakeAll(all, limit);
        return;
      } else {
        state, stack, layer, n, ki, entry, frames, at, p := Step(k, state, stack, layer, n, ki, entry, frames, at, p, out, all);
      }
    }
  }

  lemma TakeThat(all: seq<Pair>, out: seq<Pair>)
    requires out <= all
    ensures Take(all, |out|) == out
  {
  }

  lemma TakeAll(all: seq<Pair>, limit: nat)
    requires |all| <= limit
    ensures Take(all, limit) == all
  {
  }
}
