/** In-line logging of a leaf and its recovery: masstree_struct.hh, class leaf.

  The first insert or update of an epoch saves what it overwrites in a slot beside the
  data; the next change copies the whole leaf, slots included, to the external log.
  A crash keeps, for each cache line on its own, some prefix of the stores made to that
  line since the checkpoint.  Recovery writes the logged image back, if there is one,
  and then undoes the slot.
  */
module LeafRecovery {

  const WIDTH := 14
  const KEY_MID := 7
  const INVALID := 7
  const SLOT_EPOCHS := 128

  /** Key slice, length and suffix of one position. */
  type Key = nat
  /** A leaf value; 0 is the empty value. */
  type Value = nat

  /** The permutation: `order[..size]` are the live positions in key order, the rest is free. */
  datatype Perm = Perm(order: seq<nat>, size: nat)

  /** An in-line slot for one value: the saved value, its index (7 when invalid) and a
      7-bit epoch. */
  datatype Slot = Slot(idx: nat, lv: Value, epoch: nat)

  datatype LeafState = LeafState(
    loggedEpoch: nat, cl0Idx: nat, notLogged: bool, perm: Perm, permCl0: Perm,
    keys: seq<Key>, values: seq<Value>, cl1: Slot, cl2: Slot)

  ghost predicate ValidPerm(p: Perm) {
    && |p.order| == WIDTH && p.size <= WIDTH
    && (forall i :: 0 <= i < WIDTH ==> p.order[i] < WIDTH)
    && (forall i, j :: 0 <= i < j < WIDTH ==> p.order[i] != p.order[j])
    && (forall x :: 0 <= x < WIDTH ==> x in p.order)
  }

  ghost predicate Valid(s: LeafState) {
    && ValidPerm(s.perm)
    && (s.cl0Idx != INVALID ==> ValidPerm(s.permCl0))
    && |s.keys| == WIDTH && |s.values| == WIDTH
    && s.cl1.idx <= INVALID && s.cl2.idx <= INVALID
    && s.cl1.epoch < SLOT_EPOCHS && s.cl2.epoch < SLOT_EPOCHS
  }

  predicate Live(s: LeafState, p: nat) {
    s.perm.size <= |s.perm.order| && p in s.perm.order[..s.perm.size]
  }

  /** The permutation and the key and value of every live position are those of `s0`. */
  ghost predicate Restored(s: LeafState, s0: LeafState)
    requires Valid(s) && Valid(s0)
  {
    && s.perm == s0.perm
    && forall p :: 0 <= p < WIDTH && Live(s0, p) ==> s.keys[p] == s0.keys[p] && s.values[p] == s0.values[p]
  }

  // ----- stores

  datatype Store =
    | SetLoggedEpoch(e: nat)
    | SetCl0Idx(idx: nat)
    | SetNotLogged(b: bool)
    | SetPerm(perm: Perm)
    | SetPermCl0(perm: Perm)
    | SetKey(p: nat, key: Key)
    | SetValue(p: nat, v: Value)
    | SetCl1(slot: Slot)
    | SetCl2(slot: Slot)

  /** A store to the leaf, or a durable copy of the leaf appended to the external log. */
  datatype Event = Mem(store: Store) | Record

  function Apply(s: LeafState, e: Event): LeafState {
    match e
    case Record => s
    case Mem(SetLoggedEpoch(ep)) => s.(loggedEpoch := ep)
    case Mem(SetCl0Idx(i)) => s.(cl0Idx := i)
    case Mem(SetNotLogged(b)) => s.(notLogged := b)
    case Mem(SetPerm(p)) => s.(perm := p)
    case Mem(SetPermCl0(p)) => s.(permCl0 := p)
    case Mem(SetKey(p, k)) => if p < |s.keys| then s.(keys := s.keys[p := k]) else s
    case Mem(SetValue(p, v)) => if p < |s.values| then s.(values := s.values[p := v]) else s
    case Mem(SetCl1(slot)) => s.(cl1 := slot)
    case Mem(SetCl2(slot)) => s.(cl2 := slot)
  }

  function After(s: LeafState, es: seq<Event>): LeafState {
    if es == [] then s else Apply(After(s, es[..|es| - 1]), es[|es| - 1])
  }

  // ----- the logging prologues and the operations

  function SlotAt(slot: Slot, e: nat): Slot { slot.(epoch := e % SLOT_EPOCHS) }

  /** `update_epochs(e)` on the two slots. */
  function StampSlots(cl1: Slot, cl2: Slot, e: nat): seq<Event> {
    [Mem(SetCl1(SlotAt(cl1, e))), Mem(SetCl2(SlotAt(cl2, e)))]
  }

  /** `invalidate_cls` */
  function InvalidateSlots(s: LeafState): seq<Event> {
    [Mem(SetCl0Idx(INVALID)), Mem(SetCl1(s.cl1.(idx := INVALID))), Mem(SetCl2(s.cl2.(idx := INVALID)))]
  }

  const RecordImage := [Mem(SetNotLogged(false)), Record]

  /** `save_cl0_insert` */
  function SaveInsert(s: LeafState, ge: nat): seq<Event> {
    if s.loggedEpoch != ge then
      [Mem(SetPermCl0(s.perm)), Mem(SetCl0Idx(0)), Mem(SetLoggedEpoch(ge))]
      + StampSlots(s.cl1, s.cl2, ge) + [Mem(SetNotLogged(true))]
    else if s.notLogged then RecordImage + InvalidateSlots(s)
    else []
  }

  /** `save_cl1_2_update` */
  function SaveUpdate(s: LeafState, p: nat, ge: nat): seq<Event>
    requires p < |s.values|
  {
    if s.loggedEpoch != ge then
      var cl1 := if p < KEY_MID then Slot(p, s.values[p], ge % SLOT_EPOCHS) else s.cl1;
      var cl2 := if p < KEY_MID then s.cl2 else Slot(p - KEY_MID, s.values[p], ge % SLOT_EPOCHS);
      [if p < KEY_MID then Mem(SetCl1(cl1)) else Mem(SetCl2(cl2)), Mem(SetLoggedEpoch(ge))]
      + StampSlots(cl1, cl2, ge) + [Mem(SetNotLogged(true))]
    else if s.notLogged then RecordImage + InvalidateSlots(s)
    else []
  }

  /** `record_node` */
  function SaveWhole(s: LeafState, ge: nat): seq<Event> {
    if s.loggedEpoch != ge || s.notLogged then
      RecordImage + [Mem(SetLoggedEpoch(ge))] + InvalidateSlots(s)
    else []
  }

  /** An insert of a key at rank `i`, an update of the value at position `p`, or any change
      made after `log_persistent` (remove, split, new layer). */
  datatype Op =
    | Insert(i: nat, key: Key, v: Value)
    | Update(p: nat, v: Value)
    | Change(stores: seq<Store>)

  function InsertFromBack(p: Perm, i: nat): Perm
    requires |p.order| == WIDTH && i < WIDTH
  {
    Perm(p.order[..i] + [p.order[WIDTH - 1]] + p.order[i..WIDTH - 1], p.size + 1)
  }

  ghost predicate Enabled(s: LeafState, op: Op) {
    && Valid(s)
    && match op
       case Insert(i, _, _) => s.perm.size < WIDTH && i <= s.perm.size
       case Update(p, _) => p < WIDTH && Live(s, p)
       case Change(stores) => forall st | st in stores :: DataStore(st)
  }

  /** Stores a logged change may make: to the permutation, keys and values. */
  ghost predicate DataStore(st: Store) {
    (st.SetPerm? && ValidPerm(st.perm)) || st.SetKey? || st.SetValue?
  }

  function MemEvents(stores: seq<Store>): (es: seq<Event>)
    ensures |es| == |stores| && forall i :: 0 <= i < |es| ==> es[i] == Mem(stores[i])
  {
    seq(|stores|, i requires 0 <= i < |stores| => Mem(stores[i]))
  }

  /** What the operation does once the prologue has run. */
  function Body(s: LeafState, op: Op): seq<Event>
    requires op.Insert? ==> |s.perm.order| == WIDTH && op.i < WIDTH
  {
    match op
    case Insert(i, key, v) =>
      var p := s.perm.order[WIDTH - 1];
      [Mem(SetValue(p, 0)), Mem(SetKey(p, key)), Mem(SetValue(p, v)), Mem(SetPerm(InsertFromBack(s.perm, i)))]
    case Update(p, v) => [Mem(SetValue(p, v))]
    case Change(stores) => MemEvents(stores)
  }

  function Prologue(s: LeafState, op: Op, ge: nat): seq<Event>
    requires op.Update? ==> op.p < |s.values|
  {
    match op
    case Insert(_, _, _) => SaveInsert(s, ge)
    case Update(p, _) => SaveUpdate(s, p, ge)
    case Change(_) => SaveWhole(s, ge)
  }

  function OpEvents(s: LeafState, op: Op, ge: nat): seq<Event>
    requires op.Update? ==> op.p < |s.values|
    requires op.Insert? ==> |s.perm.order| == WIDTH && op.i < WIDTH
  {
    Prologue(s, op, ge) + Body(s, op)
  }

  // ----- recovery

  /** `recover_final` */
  function Finish(s: LeafState, ge: nat): LeafState
    requires ge > 0
  {
    s.(cl0Idx := INVALID, loggedEpoch := ge - 1,
       cl1 := SlotAt(s.cl1.(idx := INVALID), ge - 1), cl2 := SlotAt(s.cl2.(idx := INVALID), ge - 1))
  }

  /** `undo_incll(fe)`, run when the global epoch is `ge`. */
  function UndoSlots(s: LeafState, fe: nat, ge: nat): LeafState
    requires ge > 0
  {
    if s.loggedEpoch == fe && s.cl0Idx != INVALID then
      Finish(s.(perm := s.permCl0), ge)
    else if s.cl1.epoch == fe && s.cl1.idx != INVALID then
      Finish(if s.cl1.idx < |s.values| then s.(values := s.values[s.cl1.idx := s.cl1.lv]) else s, ge)
    else if s.cl2.epoch == fe && s.cl2.idx != INVALID then
      Finish(if s.cl2.idx + KEY_MID < |s.values| then s.(values := s.values[s.cl2.idx + KEY_MID := s.cl2.lv]) else s, ge)
    else s
  }

  /** `lazy_recovery(fe)`. */
  function Undo(s: LeafState, fe: nat, ge: nat): LeafState
    requires fe < ge
  {
    if s.loggedEpoch > fe then s else UndoSlots(s, fe, ge)
  }

  /** How much of the epoch reached memory: for each cache line, the number of events whose
      stores to that line were kept.  Line 0 holds the header, the permutation and its
      copy; line 1 the first slot and values 0..6; line 2 values 7..13 and the second slot.
      Key slots lie on several lines, so each has its own count. */
  datatype Cut = Cut(line0: nat, line1: nat, line2: nat, key: seq<nat>)

  ghost predicate CutWithin(c: Cut, n: nat) {
    && c.line0 <= n && c.line1 <= n && c.line2 <= n
    && |c.key| == WIDTH && forall p :: 0 <= p < WIDTH ==> c.key[p] <= n
  }

  /** The leaf as the crash leaves it: each line as it was after its count of events. */
  function Kept(s0: LeafState, es: seq<Event>, c: Cut): (s: LeafState)
    requires |s0.keys| == |s0.values| == WIDTH && CutWithin(c, |es|)
  {
    var l0 := After(s0, es[..c.line0]);
    var l1 := After(s0, es[..c.line1]);
    var l2 := After(s0, es[..c.line2]);
    LeafState(
      l0.loggedEpoch, l0.cl0Idx, l0.notLogged, l0.perm, l0.permCl0,
      seq(WIDTH, p requires 0 <= p < WIDTH => KeyAt(After(s0, es[..c.key[p]]), p)),
      seq(WIDTH, p requires 0 <= p < WIDTH => if p < KEY_MID then ValueAt(l1, p) else ValueAt(l2, p)),
      l1.cl1, l2.cl2)
  }

  function KeyAt(s: LeafState, p: nat): Key { if p < |s.keys| then s.keys[p] else 0 }
  function ValueAt(s: LeafState, p: nat): Value { if p < |s.values| then s.values[p] else 0 }

  /** The image a crash finds in the log: the leaf at the last `Record`. */
  function Image(s0: LeafState, es: seq<Event>): (r: seq<LeafState>)
    ensures |r| <= 1
  {
    if es == [] then []
    else if es[|es| - 1] == Record then [After(s0, es[..|es| - 1])]
    else Image(s0, es[..|es| - 1])
  }

  /** Write back the image, if any, then undo the slot. */
  function Recovered(s0: LeafState, es: seq<Event>, c: Cut, fe: nat, ge: nat): LeafState
    requires |s0.keys| == |s0.values| == WIDTH && CutWithin(c, |es|) && fe < ge
  {
    var image := Image(s0, es);
    Undo(if image == [] then Kept(s0, es, c) else image[0], fe, ge)
  }

  // ----- runs of one epoch

  ghost predicate CanRun(s: LeafState, ops: seq<Op>, ge: nat)
    decreases |ops|
  {
    ops != [] ==> Enabled(s, ops[0]) && CanRun(After(s, OpEvents(s, ops[0], ge)), ops[1..], ge)
  }

  ghost function RunEvents(s: LeafState, ops: seq<Op>, ge: nat): seq<Event>
    requires CanRun(s, ops, ge)
    decreases |ops|
  {
    if ops == [] then []
    else
      var es := OpEvents(s, ops[0], ge);
      es + RunEvents(After(s, es), ops[1..], ge)
  }

  /** The stale-slot condition.  `undo_incll` looks at the three slots in a fixed order and
      stops at the first that is valid for the failed epoch, but no slot left over from an
      earlier epoch is invalidated when a new one is used.  So a leaf with a live key must
      start the epoch with no saved permutation, with no value in the first slot if a value
      served by the second could be updated, and with no other leftover than one equal to
      the current value (or for a dead position); and the epoch must fit the slots' 7 bits. */
  ghost predicate Ready(s: LeafState, fe: nat)
    requires Valid(s)
  {
    s.perm.size > 0 ==>
      && fe < SLOT_EPOCHS
      && s.cl0Idx == INVALID
      && ((exists p :: KEY_MID <= p < WIDTH && Live(s, p)) ==> s.cl1.idx == INVALID)
      && Harmless(s, s.cl1, 0)
      && Harmless(s, s.cl2, KEY_MID)
  }

  ghost predicate Harmless(s: LeafState, slot: Slot, offset: nat)
    requires Valid(s) && slot.idx <= INVALID && offset <= KEY_MID
  {
    slot.idx == INVALID || !Live(s, slot.idx + offset) || s.values[slot.idx + offset] == slot.lv
  }

  /** The leaf was last logged before epoch `fe`, and so were its slots. */
  ghost predicate Older(s: LeafState, fe: nat) {
    s.loggedEpoch < fe && s.cl1.epoch != fe && s.cl2.epoch != fe
  }

  // ----- the leaf after each event of the first operation

  lemma AfterStep(s: LeafState, es: seq<Event>, n: nat)
    requires n < |es|
    ensures After(s, es[..n + 1]) == Apply(After(s, es[..n]), es[n])
  {
    assert es[..n + 1][..n] == es[..n];
  }

  /** The events before the first record: the first operation, if it was served by a slot,
      and the store that precedes the record. */
  function Opening(s: LeafState, op: Op, ge: nat): seq<Event>
    requires op.Update? ==> op.p < |s.values|
    requires op.Insert? ==> |s.perm.order| == WIDTH && op.i < WIDTH
  {
    (if op.Change? then [] else OpEvents(s, op, ge)) + [Mem(SetNotLogged(false))]
  }

  lemma {:induction false} OpeningChange(s: LeafState, op: Op, ge: nat, n: nat)
    requires Enabled(s, op) && op.Change?
    requires n <= |Opening(s, op, ge)|
    ensures After(s, Opening(s, op, ge)[..n]) == s.(notLogged := if n == 0 then s.notLogged else false)
  {
    if n == 1 {
      AfterStep(s, Opening(s, op, ge), 0);
    }
  }

  /** The `n`th event of an opening insert. */
  function InsertEvent(s: LeafState, op: Op, ge: nat, n: nat): Event
    requires op.Insert? && |s.perm.order| == WIDTH && op.i < WIDTH
  {
    var p := s.perm.order[WIDTH - 1];
    if n == 0 then Mem(SetPermCl0(s.perm))
    else if n == 1 then Mem(SetCl0Idx(0))
    else if n == 2 then Mem(SetLoggedEpoch(ge))
    else if n == 3 then Mem(SetCl1(SlotAt(s.cl1, ge)))
    else if n == 4 then Mem(SetCl2(SlotAt(s.cl2, ge)))
    else if n == 5 then Mem(SetNotLogged(true))
    else if n == 6 then Mem(SetValue(p, 0))
    else if n == 7 then Mem(SetKey(p, op.key))
    else if n == 8 then Mem(SetValue(p, op.v))
    else if n == 9 then Mem(SetPerm(InsertFromBack(s.perm, op.i)))
    else Mem(SetNotLogged(false))
  }

  lemma OpeningInsertEvents(s: LeafState, op: Op, ge: nat)
    requires Enabled(s, op) && op.Insert? && s.loggedEpoch != ge
    ensures |Opening(s, op, ge)| == 11
    ensures forall n :: 0 <= n < 11 ==> Opening(s, op, ge)[n] == InsertEvent(s, op, ge, n)
  {
  }

  /** The leaf after the first `n` events of an opening insert. */
  ghost predicate DuringInsert(s: LeafState, op: Op, ge: nat, n: nat, v: LeafState)
    requires Enabled(s, op) && op.Insert?
  {
    && v.permCl0 == (if n < 1 then s.permCl0 else s.perm)
    && v.cl0Idx == (if n < 2 then s.cl0Idx else 0)
    && v.loggedEpoch == (if n < 3 then s.loggedEpoch else ge)
    && v.cl1 == (if n < 4 then s.cl1 else SlotAt(s.cl1, ge))
    && v.cl2 == (if n < 5 then s.cl2 else SlotAt(s.cl2, ge))
    && v.notLogged == (if n < 6 then s.notLogged else n < 11)
    && (n < 10 ==> v.perm == s.perm)
    && ValidPerm(v.perm)
    && |v.keys| == |v.values| == WIDTH
    && forall q :: 0 <= q < WIDTH && q != s.perm.order[WIDTH - 1] ==> v.keys[q] == s.keys[q] && v.values[q] == s.values[q]
  }

  lemma InsertKeepsPermValid(p: Perm, i: nat)
    requires ValidPerm(p) && p.size < WIDTH && i <= p.size
    ensures ValidPerm(InsertFromBack(p, i))
  {
    var o, o' := p.order, InsertFromBack(p, i).order;
    assert forall k :: 0 <= k < WIDTH ==> o'[k] == if k < i then o[k] else if k == i then o[WIDTH - 1] else o[k - 1];
    forall x | 0 <= x < WIDTH
      ensures x in o'
    {
      assert x in o;
      var k :| 0 <= k < WIDTH && o[k] == x;
      assert x == if k == WIDTH - 1 then o'[i] else if k < i then o'[k] else o'[k + 1];
    }
  }

  lemma InsertStep(s: LeafState, op: Op, ge: nat, n: nat, v: LeafState)
    requires Enabled(s, op) && op.Insert? && n < 11 && DuringInsert(s, op, ge, n, v)
    ensures DuringInsert(s, op, ge, n + 1, Apply(v, InsertEvent(s, op, ge, n)))
  {
    InsertKeepsPermValid(s.perm, op.i);
  }

  lemma {:induction false} OpeningInsert(s: LeafState, op: Op, ge: nat, n: nat)
    requires Enabled(s, op) && op.Insert? && s.loggedEpoch != ge
    requires n <= |Opening(s, op, ge)|
    ensures DuringInsert(s, op, ge, n, After(s, Opening(s, op, ge)[..n]))
    decreases n
  {
    if n > 0 {
      OpeningInsertEvents(s, op, ge);
      OpeningInsert(s, op, ge, n - 1);
      AfterStep(s, Opening(s, op, ge), n - 1);
      InsertStep(s, op, ge, n - 1, After(s, Opening(s, op, ge)[..n - 1]));
    }
  }

  /** The leaf after the first `n` events of an opening update. */
  ghost predicate DuringUpdate(s: LeafState, op: Op, ge: nat, n: nat, v: LeafState)
    requires Enabled(s, op) && op.Update?
  {
    && v.loggedEpoch == (if n < 2 then s.loggedEpoch else ge)
    && v.cl1 == (if op.p < KEY_MID then if n < 1 then s.cl1 else Slot(op.p, s.values[op.p], ge % SLOT_EPOCHS)
                 else if n < 3 then s.cl1 else SlotAt(s.cl1, ge))
    && v.cl2 == (if op.p >= KEY_MID then if n < 1 then s.cl2 else Slot(op.p - KEY_MID, s.values[op.p], ge % SLOT_EPOCHS)
                 else if n < 4 then s.cl2 else SlotAt(s.cl2, ge))
    && v.notLogged == (if n < 5 then s.notLogged else n < 7)
    && v.perm == s.perm && v.permCl0 == s.permCl0 && v.cl0Idx == s.cl0Idx && v.keys == s.keys
    && v.values == (if n < 6 then s.values else s.values[op.p := op.v])
  }

  /** The `n`th event of an opening update. */
  function UpdateEvent(s: LeafState, op: Op, ge: nat, n: nat): Event
    requires op.Update? && op.p < |s.values|
  {
    var p, e := op.p, ge % SLOT_EPOCHS;
    var cl1 := if p < KEY_MID then Slot(p, s.values[p], e) else SlotAt(s.cl1, ge);
    var cl2 := if p < KEY_MID then SlotAt(s.cl2, ge) else Slot(p - KEY_MID, s.values[p], e);
    if n == 0 then if p < KEY_MID then Mem(SetCl1(cl1)) else Mem(SetCl2(cl2))
    else if n == 1 then Mem(SetLoggedEpoch(ge))
    else if n == 2 then Mem(SetCl1(cl1))
    else if n == 3 then Mem(SetCl2(cl2))
    else if n == 4 then Mem(SetNotLogged(true))
    else if n == 5 then Mem(SetValue(p, op.v))
    else Mem(SetNotLogged(false))
  }

  lemma OpeningUpdateEvents(s: LeafState, op: Op, ge: nat)
    requires Enabled(s, op) && op.Update? && s.loggedEpoch != ge
    ensures |Opening(s, op, ge)| == 7
    ensures forall n :: 0 <= n < 7 ==> Opening(s, op, ge)[n] == UpdateEvent(s, op, ge, n)
  {
  }

  lemma UpdateStep(s: LeafState, op: Op, ge: nat, n: nat, v: LeafState)
    requires Enabled(s, op) && op.Update? && n < 7 && DuringUpdate(s, op, ge, n, v)
    ensures DuringUpdate(s, op, ge, n + 1, Apply(v, UpdateEvent(s, op, ge, n)))
  {
  }

  lemma {:induction false} OpeningUpdate(s: LeafState, op: Op, ge: nat, n: nat)
    requires Enabled(s, op) && op.Update? && s.loggedEpoch != ge
    requires n <= |Opening(s, op, ge)|
    ensures DuringUpdate(s, op, ge, n, After(s, Opening(s, op, ge)[..n]))
    decreases n
  {
    if n > 0 {
      OpeningUpdateEvents(s, op, ge);
      OpeningUpdate(s, op, ge, n - 1);
      AfterStep(s, Opening(s, op, ge), n - 1);
      UpdateStep(s, op, ge, n - 1, After(s, Opening(s, op, ge)[..n - 1]));
    }
  }

  // ----- recovery of a leaf that was not logged, or logged right after its first operation

  /** The heart of in-line logging: whatever part of the first operation reached memory, line
      by line, undoing the slot brings the leaf back. */
  lemma OpeningRestored(s: LeafState, op: Op, c: Cut, fe: nat, ge: nat)
    requires Enabled(s, op) && Older(s, fe) && Ready(s, fe) && fe < ge
    requires CutWithin(c, |Opening(s, op, fe)|)
    ensures
      var r := Undo(Kept(s, Opening(s, op, fe), c), fe, ge);
      Valid(r) && Restored(r, s)
  {
    match op
    case Change(_) => ChangeRestored(s, op, c, fe, ge);
    case Insert(_, _, _) =>
      KeptInsert(s, op, c, fe);
      UndoInsert(s, op, c, fe, ge, Kept(s, Opening(s, op, fe), c));
    case Update(_, _) =>
      KeptUpdate(s, op, c, fe);
      UndoUpdate(s, op, c, fe, ge, Kept(s, Opening(s, op, fe), c));
  }

  /** When no store to live data was kept, at most a leftover of a value slot is applied. */
  lemma LeftoversHarmless(s: LeafState, fe: nat, ge: nat, k: LeafState)
    requires Valid(s) && Ready(s, fe) && fe < ge
    requires k.perm == s.perm && |k.keys| == |k.values| == WIDTH
    requires forall p :: 0 <= p < WIDTH && Live(s, p) ==> k.keys[p] == s.keys[p] && k.values[p] == s.values[p]
    requires k.loggedEpoch != fe || k.cl0Idx == INVALID
    requires k.cl0Idx != INVALID ==> ValidPerm(k.permCl0)
    requires k.cl1.epoch == s.cl1.epoch || k.cl1.epoch == fe % SLOT_EPOCHS
    requires k.cl2.epoch == s.cl2.epoch || k.cl2.epoch == fe % SLOT_EPOCHS
    requires k.cl1.idx == s.cl1.idx && k.cl1.lv == s.cl1.lv
    requires k.cl2.idx == s.cl2.idx && k.cl2.lv == s.cl2.lv
    ensures Valid(Undo(k, fe, ge)) && Restored(Undo(k, fe, ge), s)
  {
    if exists p :: 0 <= p < WIDTH && Live(s, p) {
      assert s.perm.size > 0;
    }
    if k.loggedEpoch <= fe && k.cl1.epoch == fe && k.cl1.idx != INVALID {
      assert Undo(k, fe, ge) == Finish(k.(values := k.values[k.cl1.idx := k.cl1.lv]), ge);
    } else if k.loggedEpoch <= fe && k.cl2.epoch == fe && k.cl2.idx != INVALID {
      assert Undo(k, fe, ge) == Finish(k.(values := k.values[k.cl2.idx + KEY_MID := k.cl2.lv]), ge);
    } else {
      assert Undo(k, fe, ge) == k;
    }
  }

  lemma ChangeRestored(s: LeafState, op: Op, c: Cut, fe: nat, ge: nat)
    requires Enabled(s, op) && op.Change? && Older(s, fe) && fe < ge
    requires CutWithin(c, |Opening(s, op, fe)|)
    ensures
      var r := Undo(Kept(s, Opening(s, op, fe), c), fe, ge);
      Valid(r) && Restored(r, s)
  {
    OpeningChange(s, op, fe, c.line0);
    OpeningChange(s, op, fe, c.line1);
    OpeningChange(s, op, fe, c.line2);
    forall p | 0 <= p < WIDTH
      ensures After(s, Opening(s, op, fe)[..c.key[p]]).keys == s.keys
    {
      OpeningChange(s, op, fe, c.key[p]);
    }
  }

  /** The kept leaf `k`, line by line, during an opening insert. */
  ghost predicate KeptDuringInsert(s: LeafState, op: Op, c: Cut, ge: nat, k: LeafState)
    requires Enabled(s, op) && op.Insert?
  {
    && k.permCl0 == (if c.line0 < 1 then s.permCl0 else s.perm)
    && k.cl0Idx == (if c.line0 < 2 then s.cl0Idx else 0)
    && k.loggedEpoch == (if c.line0 < 3 then s.loggedEpoch else ge)
    && (c.line0 < 10 ==> k.perm == s.perm)
    && ValidPerm(k.perm)
    && k.cl1 == (if c.line1 < 4 then s.cl1 else SlotAt(s.cl1, ge))
    && k.cl2 == (if c.line2 < 5 then s.cl2 else SlotAt(s.cl2, ge))
    && |k.keys| == |k.values| == WIDTH
    && forall q :: 0 <= q < WIDTH && q != s.perm.order[WIDTH - 1] ==> k.keys[q] == s.keys[q] && k.values[q] == s.values[q]
  }

  lemma KeptInsert(s: LeafState, op: Op, c: Cut, ge: nat)
    requires Enabled(s, op) && op.Insert? && s.loggedEpoch != ge
    requires CutWithin(c, |Opening(s, op, ge)|)
    ensures KeptDuringInsert(s, op, c, ge, Kept(s, Opening(s, op, ge), c))
  {
    var es := Opening(s, op, ge);
    OpeningInsert(s, op, ge, c.line0);
    OpeningInsert(s, op, ge, c.line1);
    OpeningInsert(s, op, ge, c.line2);
    forall p | 0 <= p < WIDTH && p != s.perm.order[WIDTH - 1]
      ensures KeyAt(After(s, es[..c.key[p]]), p) == s.keys[p]
    {
      OpeningInsert(s, op, ge, c.key[p]);
    }
  }

  lemma UndoInsert(s: LeafState, op: Op, c: Cut, fe: nat, ge: nat, k: LeafState)
    requires Enabled(s, op) && op.Insert? && Older(s, fe) && Ready(s, fe) && fe < ge
    requires KeptDuringInsert(s, op, c, fe, k)
    ensures Valid(Undo(k, fe, ge)) && Restored(Undo(k, fe, ge), s)
  {
    assert !Live(s, s.perm.order[WIDTH - 1]);
    if c.line0 >= 3 {
      assert Undo(k, fe, ge) == Finish(k.(perm := s.perm), ge);
    } else {
      LeftoversHarmless(s, fe, ge, k);
    }
  }

  /** The kept leaf `k`, line by line, during an opening update. */
  ghost predicate KeptDuringUpdate(s: LeafState, op: Op, c: Cut, ge: nat, k: LeafState)
    requires Enabled(s, op) && op.Update?
  {
    && k.perm == s.perm && k.permCl0 == s.permCl0 && k.cl0Idx == s.cl0Idx
    && k.loggedEpoch == (if c.line0 < 2 then s.loggedEpoch else ge)
    && k.cl1 == (if op.p < KEY_MID then if c.line1 < 1 then s.cl1 else Slot(op.p, s.values[op.p], ge % SLOT_EPOCHS)
                 else if c.line1 < 3 then s.cl1 else SlotAt(s.cl1, ge))
    && k.cl2 == (if op.p >= KEY_MID then if c.line2 < 1 then s.cl2 else Slot(op.p - KEY_MID, s.values[op.p], ge % SLOT_EPOCHS)
                 else if c.line2 < 4 then s.cl2 else SlotAt(s.cl2, ge))
    && k.keys == s.keys && |k.values| == WIDTH
    && forall q :: 0 <= q < WIDTH ==>
         k.values[q] == if q == op.p && (if q < KEY_MID then c.line1 else c.line2) >= 6 then op.v else s.values[q]
  }

  lemma KeptUpdate(s: LeafState, op: Op, c: Cut, ge: nat)
    requires Enabled(s, op) && op.Update? && s.loggedEpoch != ge
    requires CutWithin(c, |Opening(s, op, ge)|)
    ensures KeptDuringUpdate(s, op, c, ge, Kept(s, Opening(s, op, ge), c))
  {
    var es := Opening(s, op, ge);
    OpeningUpdate(s, op, ge, c.line0);
    OpeningUpdate(s, op, ge, c.line1);
    OpeningUpdate(s, op, ge, c.line2);
    forall p | 0 <= p < WIDTH
      ensures KeyAt(After(s, es[..c.key[p]]), p) == s.keys[p]
    {
      OpeningUpdate(s, op, ge, c.key[p]);
    }
  }

  lemma UndoUpdate(s: LeafState, op: Op, c: Cut, fe: nat, ge: nat, k: LeafState)
    requires Enabled(s, op) && op.Update? && Older(s, fe) && Ready(s, fe) && fe < ge
    requires KeptDuringUpdate(s, op, c, fe, k)
    ensures Valid(Undo(k, fe, ge)) && Restored(Undo(k, fe, ge), s)
  {
    if (if op.p < KEY_MID then c.line1 else c.line2) >= 1 {
      assert Undo(k, fe, ge) == Finish(k.(values := k.values[op.p := s.values[op.p]]), ge);
    } else {
      LeftoversHarmless(s, fe, ge, k);
    }
  }

  // ----- the shape of an epoch's events: at most one record, right after the opening

  predicate Quiet(es: seq<Event>) { Record !in es }

  lemma {:induction false} AfterConcat(s: LeafState, a: seq<Event>, b: seq<Event>)
    ensures After(s, a + b) == After(After(s, a), b)
    decreases |b|
  {
    if b == [] {
      assert a + b == a;
    } else {
      var b' := b[..|b| - 1];
      AfterConcat(s, a, b');
      assert (a + b)[..|a + b| - 1] == a + b';
    }
  }

  ghost predicate DataEvents(es: seq<Event>) {
    forall i :: 0 <= i < |es| ==> es[i].Mem? && DataStore(es[i].store)
  }

  lemma {:induction false} AfterData(s: LeafState, es: seq<Event>)
    requires DataEvents(es) && Valid(s)
    ensures var v := After(s, es);
            Valid(v) && v == s.(perm := v.perm, keys := v.keys, values := v.values)
    ensures Quiet(es)
  {
    if es != [] {
      AfterData(s, es[..|es| - 1]);
    }
  }

  lemma BodyIsData(s: LeafState, op: Op)
    requires Enabled(s, op)
    ensures DataEvents(Body(s, op))
  {
    if op.Insert? {
      InsertKeepsPermValid(s.perm, op.i);
    }
  }

  /** What follows a record: the slots are invalidated, after the epoch is stored if need be. */
  function AfterRecord(s: LeafState, epoch: seq<nat>): seq<Event>
    requires |epoch| <= 1
  {
    (if epoch == [] then [] else [Mem(SetLoggedEpoch(epoch[0]))]) + InvalidateSlots(s)
  }

  lemma AfterRecordState(s: LeafState, epoch: seq<nat>)
    requires |epoch| <= 1
    ensures
      After(s, AfterRecord(s, epoch)) ==
      s.(loggedEpoch := if epoch == [] then s.loggedEpoch else epoch[0], cl0Idx := INVALID,
         cl1 := s.cl1.(idx := INVALID), cl2 := s.cl2.(idx := INVALID))
  {
    var es := AfterRecord(s, epoch);
    AfterStep(s, es, 0);
    AfterStep(s, es, 1);
    AfterStep(s, es, 2);
    if epoch != [] {
      AfterStep(s, es, 3);
    }
    assert es[..|es|] == es;
  }

  /** The prologue that copies the leaf to the log. */
  lemma RecordingPrologue(s: LeafState, op: Op, ge: nat)
    requires Enabled(s, op) && (s.loggedEpoch == ge || op.Change?)
    requires s.loggedEpoch != ge || s.notLogged
    ensures
      var es, v := Prologue(s, op, ge), After(s, Prologue(s, op, ge));
      && RecordImage <= es && Quiet(es[2..])
      && v == s.(notLogged := false, loggedEpoch := ge, cl0Idx := INVALID,
                 cl1 := s.cl1.(idx := INVALID), cl2 := s.cl2.(idx := INVALID))
  {
    var s1 := After(s, RecordImage);
    AfterStep(s, RecordImage, 0);
    AfterStep(s, RecordImage, 1);
    assert RecordImage[..2] == RecordImage;
    assert s1 == s.(notLogged := false);
    var epoch := if op.Change? then [ge] else [];
    assert Prologue(s, op, ge) == RecordImage + AfterRecord(s1, epoch);
    assert Quiet(AfterRecord(s1, epoch));
    AfterConcat(s, RecordImage, AfterRecord(s1, epoch));
    AfterRecordState(s1, epoch);
  }

  /** Nothing, or one record followed by none. */
  predicate RecordFirst(es: seq<Event>) {
    es == [] || (RecordImage <= es && Quiet(es[2..]))
  }

  lemma RecordFirstThenQuiet(es: seq<Event>, rest: seq<Event>)
    requires RecordImage <= es && Quiet(es[2..]) && Quiet(rest)
    ensures RecordImage <= es + rest && Quiet((es + rest)[2..])
  {
    assert (es + rest)[2..] == es[2..] + rest;
  }

  /** An operation on a leaf already touched in this epoch, or a logged change. */
  lemma LaterOp(s: LeafState, op: Op, ge: nat)
    requires Enabled(s, op) && (s.loggedEpoch == ge || op.Change?)
    ensures
      var es, v := OpEvents(s, op, ge), After(s, OpEvents(s, op, ge));
      && Valid(v) && v.loggedEpoch == ge && !v.notLogged
      && (if s.loggedEpoch == ge && !s.notLogged then Quiet(es)
          else RecordImage <= es && Quiet(es[2..])
               && v.cl0Idx == v.cl1.idx == v.cl2.idx == INVALID)
  {
    var pro, body := Prologue(s, op, ge), Body(s, op);
    BodyIsData(s, op);
    AfterConcat(s, pro, body);
    if s.loggedEpoch == ge && !s.notLogged {
      assert pro == [];
      AfterData(s, body);
      assert pro + body == body;
    } else {
      RecordingPrologue(s, op, ge);
      AfterData(After(s, pro), body);
      RecordFirstThenQuiet(pro, body);
    }
  }

  /** The first operation of the epoch, served by a slot. */
  lemma FirstOp(s: LeafState, op: Op, ge: nat)
    requires Enabled(s, op) && s.loggedEpoch != ge && !op.Change?
    ensures
      var es, v := OpEvents(s, op, ge), After(s, OpEvents(s, op, ge));
      Valid(v) && v.loggedEpoch == ge && v.notLogged && Quiet(es)
  {
    var es, open := OpEvents(s, op, ge), Opening(s, op, ge);
    assert open[..|es|] == es;
    if op.Insert? {
      OpeningInsert(s, op, ge, |es|);
      OpeningInsertEvents(s, op, ge);
    } else {
      OpeningUpdate(s, op, ge, |es|);
      OpeningUpdateEvents(s, op, ge);
    }
    forall i | 0 <= i < |es|
      ensures es[i] != Record
    {
      assert es[i] == open[i];
    }
  }

  lemma {:induction false} QuietOnceLogged(s: LeafState, ops: seq<Op>, ge: nat)
    requires CanRun(s, ops, ge) && s.loggedEpoch == ge && !s.notLogged
    ensures Quiet(RunEvents(s, ops, ge))
    decreases |ops|
  {
    if ops != [] {
      LaterOp(s, ops[0], ge);
      QuietOnceLogged(After(s, OpEvents(s, ops[0], ge)), ops[1..], ge);
    }
  }

  lemma EpochShape(s: LeafState, ops: seq<Op>, ge: nat)
    requires CanRun(s, ops, ge) && s.loggedEpoch != ge && ops != []
    ensures
      var es := RunEvents(s, ops, ge);
      var pre := if ops[0].Change? then [] else OpEvents(s, ops[0], ge);
      pre <= es && Quiet(pre) && RecordFirst(es[|pre|..])
  {
    var first := OpEvents(s, ops[0], ge);
    var s1 := After(s, first);
    var rest := RunEvents(s1, ops[1..], ge);
    if ops[0].Change? {
      LaterOp(s, ops[0], ge);
      QuietOnceLogged(s1, ops[1..], ge);
      RecordFirstThenQuiet(first, rest);
    } else {
      FirstOp(s, ops[0], ge);
      assert (first + rest)[|first|..] == rest;
      if |ops| > 1 {
        var op2 := ops[1..][0];
        LaterOp(s1, op2, ge);
        var s2 := After(s1, OpEvents(s1, op2, ge));
        QuietOnceLogged(s2, ops[1..][1..], ge);
        RecordFirstThenQuiet(OpEvents(s1, op2, ge), RunEvents(s2, ops[1..][1..], ge));
      }
    }
  }

  // ----- what an operation leaves when no crash cuts it

  /** The prologues touch neither permutation, keys nor values. */
  lemma PrologueKeepsData(s: LeafState, op: Op, ge: nat)
    requires Enabled(s, op)
    ensures var v := After(s, Prologue(s, op, ge));
            v.perm == s.perm && v.keys == s.keys && v.values == s.values
  {
    KeepsData(s, Prologue(s, op, ge));
  }

  lemma {:induction false} KeepsData(s: LeafState, es: seq<Event>)
    requires forall i :: 0 <= i < |es| ==> es[i].Record? || !(es[i].store.SetPerm? || es[i].store.SetKey? || es[i].store.SetValue?)
    ensures var v := After(s, es);
            v.perm == s.perm && v.keys == s.keys && v.values == s.values
  {
    if es != [] {
      KeepsData(s, es[..|es| - 1]);
    }
  }

  /** The stores of an insert behind its prologue. */
  lemma InsertBodyLeaves(s: LeafState, op: Op)
    requires op.Insert? && |s.perm.order| == WIDTH && op.i < WIDTH && s.perm.order[WIDTH - 1] < |s.keys| == |s.values|
    ensures
      var v, p := After(s, Body(s, op)), s.perm.order[WIDTH - 1];
      v.perm == InsertFromBack(s.perm, op.i) && v.keys == s.keys[p := op.key] && v.values == s.values[p := op.v]
  {
    hide InsertFromBack;
    var body, p := Body(s, op), s.perm.order[WIDTH - 1];
    AfterStep(s, body, 0);
    AfterStep(s, body, 1);
    AfterStep(s, body, 2);
    AfterStep(s, body, 3);
    assert body[..4] == body;
    assert s.values[p := 0][p := op.v] == s.values[p := op.v];
  }

  /** An insert at rank `i`, whichever way it is logged: the new key is at rank `i` of the live ones, which are
      otherwise as before, the last free position holds it, and the other free ones stay in their order. */
  lemma InsertLeaves(s: LeafState, op: Op, ge: nat)
    requires Enabled(s, op) && op.Insert?
    ensures
      var v, o, p, n := After(s, OpEvents(s, op, ge)), s.perm.order, s.perm.order[WIDTH - 1], s.perm.size;
      && v.perm.size == n + 1 && v.perm.order == o[..op.i] + [p] + o[op.i..WIDTH - 1]
      && v.perm.order[..n + 1] == o[..op.i] + [p] + o[op.i..n]
      && v.keys == s.keys[p := op.key] && v.values == s.values[p := op.v]
  {
    PrologueKeepsData(s, op, ge);
    AfterConcat(s, Prologue(s, op, ge), Body(s, op));
    InsertBodyLeaves(After(s, Prologue(s, op, ge)), op);
    hide Prologue, After;
  }

  /** An update, whichever way it is logged, changes one value and nothing else. */
  lemma UpdateLeaves(s: LeafState, op: Op, ge: nat)
    requires Enabled(s, op) && op.Update?
    ensures
      var v := After(s, OpEvents(s, op, ge));
      v.perm == s.perm && v.keys == s.keys && v.values == s.values[op.p := op.v]
  {
    var pro, body := Prologue(s, op, ge), Body(s, op);
    PrologueKeepsData(s, op, ge);
    AfterConcat(s, pro, body);
    hide Prologue;
    AfterStep(After(s, pro), body, 0);
    assert body[..1] == body;
  }

  // ----- the main theorem

  lemma {:induction false} ImageQuiet(s: LeafState, es: seq<Event>)
    requires Quiet(es)
    ensures Image(s, es) == []
  {
    if es != [] {
      ImageQuiet(s, es[..|es| - 1]);
    }
  }

  lemma {:induction false} ImageAtRecord(s: LeafState, es: seq<Event>, m: nat)
    requires m < |es| && es[m] == Record && Quiet(es[m + 1..])
    ensures Image(s, es) == [After(s, es[..m])]
    decreases |es|
  {
    if m < |es| - 1 {
      var es' := es[..|es| - 1];
      assert es[|es| - 1] in es[m + 1..];
      assert es'[m + 1..] == es[m + 1..][..|es| - m - 2];
      ImageAtRecord(s, es', m);
      assert es'[..m] == es[..m];
    }
  }

  /** Only the counted prefixes matter. */
  lemma KeptPrefix(s: LeafState, es: seq<Event>, more: seq<Event>, c: Cut)
    requires |s.keys| == |s.values| == WIDTH && es <= more && CutWithin(c, |es|)
    ensures CutWithin(c, |more|) && Kept(s, more, c) == Kept(s, es, c)
  {
    assert forall n :: 0 <= n <= |es| ==> more[..n] == es[..n];
    forall p | 0 <= p < WIDTH
      ensures more[..c.key[p]] == es[..c.key[p]]
    {
    }
  }

  lemma KeptWhole(s: LeafState, es: seq<Event>)
    requires |s.keys| == |s.values| == WIDTH
    requires |After(s, es).keys| == |After(s, es).values| == WIDTH
    ensures
      var c := Cut(|es|, |es|, |es|, seq(WIDTH, _ => |es|));
      CutWithin(c, |es|) && Kept(s, es, c) == After(s, es)
  {
    assert es[..|es|] == es;
  }

  ghost predicate CrashCase(s: LeafState, ops: seq<Op>, k: nat, c: Cut, fe: nat) {
    CanRun(s, ops, fe) && k <= |RunEvents(s, ops, fe)| && CutWithin(c, k)
  }

  /** The leaf recovered in a later epoch `ge` after a crash in epoch `fe` that let the first
      `k` events happen and of those kept `c`. */
  ghost function AfterCrash(s: LeafState, ops: seq<Op>, k: nat, c: Cut, fe: nat, ge: nat): LeafState
    requires Valid(s) && CrashCase(s, ops, k, c, fe) && fe < ge
  {
    Recovered(s, RunEvents(s, ops, fe)[..k], c, fe, ge)
  }

  function OpeningOf(s: LeafState, ops: seq<Op>, ge: nat): seq<Event>
    requires ops != [] && ops[0].Update? ==> ops[0].p < |s.values|
    requires ops != [] && ops[0].Insert? ==> |s.perm.order| == WIDTH && ops[0].i < WIDTH
  {
    Opening(s, if ops == [] then Change([]) else ops[0], ge)
  }

  /** The first `k` events of an epoch that opens with `pre`. */
  lemma PrefixShape(pre: seq<Event>, es: seq<Event>, k: nat)
    requires pre <= es && Quiet(pre) && RecordFirst(es[|pre|..]) && k <= |es|
    ensures
      var open, m := pre + [Mem(SetNotLogged(false))], |pre| + 1;
      if k <= m then es[..k] <= open && Quiet(es[..k])
      else es[..k][..m] == open && es[..k][m] == Record && Quiet(es[..k][m + 1..])
  {
    var m, tail := |pre| + 1, es[|pre|..];
    if tail != [] {
      assert tail[0] == RecordImage[0] && tail[1] == RecordImage[1];
      assert es[|pre|] == tail[0] && es[m] == tail[1];
      if k > m {
        assert es[..k][m + 1..] == tail[2..][..k - m - 1];
      }
    }
  }

  lemma CrashedPrefix(s: LeafState, ops: seq<Op>, k: nat, fe: nat)
    requires Valid(s) && s.loggedEpoch != fe && CanRun(s, ops, fe) && k <= |RunEvents(s, ops, fe)|
    ensures
      var es, open := RunEvents(s, ops, fe)[..k], OpeningOf(s, ops, fe);
      if k <= |open| then es <= open && Image(s, es) == []
      else Image(s, es) == [After(s, open)]
  {
    var es, open := RunEvents(s, ops, fe), OpeningOf(s, ops, fe);
    var pre := open[..|open| - 1];
    if ops != [] {
      EpochShape(s, ops, fe);
    }
    PrefixShape(pre, es, k);
    if k <= |open| {
      ImageQuiet(s, es[..k]);
    } else {
      ImageAtRecord(s, es[..k], |open|);
    }
  }

  /** For every run of operations in an epoch and a crash at any store, keeping any prefix of
      each cache line, recovery gives back the leaf as it was when the epoch began. */
  lemma CrashRestoresEpochStart(s: LeafState, ops: seq<Op>, k: nat, c: Cut, fe: nat, ge: nat)
    requires Valid(s) && Older(s, fe) && Ready(s, fe) && fe < ge
    requires CrashCase(s, ops, k, c, fe)
    ensures Valid(AfterCrash(s, ops, k, c, fe, ge)) && Restored(AfterCrash(s, ops, k, c, fe, ge), s)
  {
    var op := if ops == [] then Change([]) else ops[0];
    var es, open := RunEvents(s, ops, fe)[..k], OpeningOf(s, ops, fe);
    CrashedPrefix(s, ops, k, fe);
    if k <= |open| {
      KeptPrefix(s, es, open, c);
      OpeningRestored(s, op, c, fe, ge);
    } else {
      OpeningLengths(s, op, fe);
      KeptWhole(s, open);
      OpeningRestored(s, op, Cut(|open|, |open|, |open|, seq(WIDTH, _ => |open|)), fe, ge);
    }
  }

  lemma OpeningLengths(s: LeafState, op: Op, ge: nat)
    requires Enabled(s, op) && s.loggedEpoch != ge
    ensures |After(s, Opening(s, op, ge)).keys| == |After(s, Opening(s, op, ge)).values| == WIDTH
  {
    var open := Opening(s, op, ge);
    assert open[..|open|] == open;
    match op
    case Insert(_, _, _) => OpeningInsert(s, op, ge, |open|);
    case Update(_, _) => OpeningUpdate(s, op, ge, |open|);
    case Change(_) => OpeningChange(s, op, ge, |open|);
  }

  // ----- the stale-slot condition is exact

  /** A crash right after an epoch's only operation `op`. */
  lemma CrashAfterOne(s: LeafState, op: Op, c: Cut, fe: nat, ge: nat)
    requires Valid(s) && Older(s, fe) && fe < ge
    requires Enabled(s, op) && !op.Change?
    requires CutWithin(c, |OpEvents(s, op, fe)|)
    ensures CrashCase(s, [op], |OpEvents(s, op, fe)|, c, fe)
    ensures CutWithin(c, |Opening(s, op, fe)|)
    ensures AfterCrash(s, [op], |OpEvents(s, op, fe)|, c, fe, ge) == Undo(Kept(s, Opening(s, op, fe), c), fe, ge)
  {
    var es := OpEvents(s, op, fe);
    assert RunEvents(s, [op], fe) == es;
    assert es[..|es|] == es;
    FirstOp(s, op, fe);
    ImageQuiet(s, es);
    KeptPrefix(s, es, Opening(s, op, fe), c);
  }

  function SameCut(n0: nat, n1: nat, n2: nat): Cut { Cut(n0, n1, n2, seq(WIDTH, _ => 0)) }

  /** If the leaf is not ready, one operation and one crash are enough to lose its state. */
  lemma NotReadyLoses(s: LeafState, fe: nat, ge: nat) returns (op: Op, k: nat, c: Cut)
    requires Valid(s) && Older(s, fe) && !Ready(s, fe) && fe < ge
    ensures CrashCase(s, [op], k, c, fe)
    ensures !(Valid(AfterCrash(s, [op], k, c, fe, ge)) && Restored(AfterCrash(s, [op], k, c, fe, ge), s))
  {
    var p := s.perm.order[0];
    assert Live(s, p) by { assert s.perm.order[..s.perm.size][0] == p; }
    if fe >= SLOT_EPOCHS || s.cl0Idx != INVALID {
      op, k, c := LoseUpdate(s, p, fe, ge);
    } else if exists q :: KEY_MID <= q < WIDTH && Live(s, q) && s.cl1.idx != INVALID {
      var q :| KEY_MID <= q < WIDTH && Live(s, q) && s.cl1.idx != INVALID;
      op, k, c := LoseUpdate(s, q, fe, ge);
    } else if s.perm.size < WIDTH {
      op, k, c := ReviveByInsert(s, fe, ge);
    } else {
      FullLeafIsLive(s, KEY_MID);
      FullLeafIsLive(s, 0);
      op, k, c := ReviveByUpdate(s, 0, fe, ge);
    }
  }

  lemma FullLeafIsLive(s: LeafState, p: nat)
    requires Valid(s) && s.perm.size == WIDTH && p < WIDTH
    ensures Live(s, p)
  {
    assert s.perm.order[..WIDTH] == s.perm.order;
  }

  /** Updating `p` loses its old value when a stale slot is looked at first, or when the
      epoch does not fit the slot. */
  lemma LoseUpdate(s: LeafState, p: nat, fe: nat, ge: nat) returns (op: Op, k: nat, c: Cut)
    requires Valid(s) && Older(s, fe) && fe < ge
    requires p < WIDTH && Live(s, p)
    requires fe >= SLOT_EPOCHS || s.cl0Idx != INVALID || (p >= KEY_MID && s.cl1.idx != INVALID)
    ensures CrashCase(s, [op], k, c, fe)
    ensures !(Valid(AfterCrash(s, [op], k, c, fe, ge)) && Restored(AfterCrash(s, [op], k, c, fe, ge), s))
  {
    op, c := Update(p, s.values[p] + 1), SameCut(6, 6, 6);
    k := |OpEvents(s, op, fe)|;
    OpeningUpdateEvents(s, op, fe);
    CrashAfterOne(s, op, c, fe, ge);
    KeptUpdate(s, op, c, fe);
    NotUndone(s, op, fe, ge, Kept(s, Opening(s, op, fe), c));
  }

  lemma NotUndone(s: LeafState, op: Op, fe: nat, ge: nat, k: LeafState)
    requires Enabled(s, op) && op.Update? && Older(s, fe) && fe < ge
    requires fe >= SLOT_EPOCHS || s.cl0Idx != INVALID || (op.p >= KEY_MID && s.cl1.idx != INVALID)
    requires KeptDuringUpdate(s, op, SameCut(6, 6, 6), fe, k)
    ensures Undo(k, fe, ge).values[op.p] == op.v
  {
  }

  /** Stamping the slots brings a leftover of the second slot to life, if its line reaches
      memory and the others do not. */
  lemma ReviveByUpdate(s: LeafState, p: nat, fe: nat, ge: nat) returns (op: Op, k: nat, c: Cut)
    requires Valid(s) && Older(s, fe) && fe < ge
    requires p < KEY_MID && Live(s, p) && fe < SLOT_EPOCHS && !Harmless(s, s.cl2, KEY_MID)
    ensures CrashCase(s, [op], k, c, fe)
    ensures !(Valid(AfterCrash(s, [op], k, c, fe, ge)) && Restored(AfterCrash(s, [op], k, c, fe, ge), s))
  {
    op, c := Update(p, s.values[p]), SameCut(0, 0, 6);
    k := |OpEvents(s, op, fe)|;
    OpeningUpdateEvents(s, op, fe);
    CrashAfterOne(s, op, c, fe, ge);
    KeptUpdate(s, op, c, fe);
    Revived(s, fe, ge, Kept(s, Opening(s, op, fe), c));
  }

  /** The same by an insert, for either slot. */
  lemma ReviveByInsert(s: LeafState, fe: nat, ge: nat) returns (op: Op, k: nat, c: Cut)
    requires Valid(s) && Older(s, fe) && fe < ge && fe < SLOT_EPOCHS && s.perm.size < WIDTH
    requires !Harmless(s, s.cl1, 0) || !Harmless(s, s.cl2, KEY_MID)
    ensures CrashCase(s, [op], k, c, fe)
    ensures !(Valid(AfterCrash(s, [op], k, c, fe, ge)) && Restored(AfterCrash(s, [op], k, c, fe, ge), s))
  {
    op := Insert(0, 0, 1);
    c := if !Harmless(s, s.cl1, 0) then SameCut(0, 4, 0) else SameCut(0, 0, 5);
    k := |OpEvents(s, op, fe)|;
    OpeningInsertEvents(s, op, fe);
    CrashAfterOne(s, op, c, fe, ge);
    KeptInsert(s, op, c, fe);
    Revived(s, fe, ge, Kept(s, Opening(s, op, fe), c));
  }

  lemma Revived(s: LeafState, fe: nat, ge: nat, k: LeafState)
    requires Valid(s) && Older(s, fe) && fe < ge && fe < SLOT_EPOCHS
    requires k.loggedEpoch == s.loggedEpoch && k.perm == s.perm && |k.values| == WIDTH
    requires
      || (k.cl1 == SlotAt(s.cl1, fe) && !Harmless(s, s.cl1, 0))
      || (k.cl1 == s.cl1 && k.cl2 == SlotAt(s.cl2, fe) && !Harmless(s, s.cl2, KEY_MID))
    ensures !(Valid(Undo(k, fe, ge)) && Restored(Undo(k, fe, ge), s))
  {
    var r := Undo(k, fe, ge);
    if k.cl1 == SlotAt(s.cl1, fe) && !Harmless(s, s.cl1, 0) {
      assert r.values[s.cl1.idx] == s.cl1.lv;
    } else {
      assert r.values[s.cl2.idx + KEY_MID] == s.cl2.lv;
    }
  }

  /** Recovery is right for every run and every crash of epoch `fe`. */
  ghost predicate AlwaysRestored(s: LeafState, fe: nat, ge: nat)
    requires Valid(s) && fe < ge
  {
    forall ops, k, c | CrashCase(s, ops, k, c, fe) ::
      Valid(AfterCrash(s, ops, k, c, fe, ge)) && Restored(AfterCrash(s, ops, k, c, fe, ge), s)
  }

  /** The code meets its promise for a leaf exactly when the leaf starts the epoch ready. */
  lemma AlwaysRestoredIffReady(s: LeafState, fe: nat, ge: nat)
    requires Valid(s) && Older(s, fe) && fe < ge
    ensures AlwaysRestored(s, fe, ge) <==> Ready(s, fe)
  {
    if Ready(s, fe) {
      forall ops, k, c | CrashCase(s, ops, k, c, fe)
        ensures Valid(AfterCrash(s, ops, k, c, fe, ge)) && Restored(AfterCrash(s, ops, k, c, fe, ge), s)
      {
        CrashRestoresEpochStart(s, ops, k, c, fe, ge);
      }
    } else {
      var op, k, c := NotReadyLoses(s, fe, ge);
    }
  }

  /** A leaf with keys and with nothing left in its slots (index 7 in all three) is always recovered in the first 128
      epochs, and in no later one. */
  lemma CleanLeafIsSafeFor128Epochs(s: LeafState, fe: nat, ge: nat)
    requires Valid(s) && Older(s, fe) && fe < ge && s.perm.size > 0
    requires s.cl0Idx == 7 && s.cl1.idx == 7 && s.cl2.idx == 7
    ensures AlwaysRestored(s, fe, ge) <==> fe < 128
  {
    hide AlwaysRestored, Valid;
    AlwaysRestoredIffReady(s, fe, ge);
  }

  /** Recovering twice is recovering once. */
  lemma UndoTwice(s: LeafState, fe: nat, ge: nat)
    requires fe < ge
    ensures Undo(Undo(s, fe, ge), fe, ge) == Undo(s, fe, ge)
  {
  }

  // ----- how a leaf stops being ready

  /** A leaf whose only operation in an epoch is an insert keeps the saved permutation, and is
      not ready for any later epoch. */
  lemma SingleInsertSpoilsNextEpoch(s: LeafState, op: Op, e: nat, next: nat)
    requires Enabled(s, op) && op.Insert? && s.loggedEpoch < e < next
    ensures
      var v := After(s, OpEvents(s, op, e));
      Valid(v) && v.perm.size > 0 && !Ready(v, next)
  {
    var es := OpEvents(s, op, e);
    FirstOp(s, op, e);
    OpeningInsertEvents(s, op, e);
    assert Opening(s, op, e)[..10] == es;
    OpeningInsert(s, op, e, 10);
    AfterStep(s, es, 9);
    assert es[..10] == es;
  }

  /** A leaf changed twice in an epoch was logged, and ends the epoch ready for every later
      epoch the slots can count. */
  lemma TwoOpsLeaveReady(s: LeafState, op1: Op, op2: Op, e: nat, next: nat)
    requires Enabled(s, op1) && s.loggedEpoch < e < next < SLOT_EPOCHS
    requires Enabled(After(s, OpEvents(s, op1, e)), op2) && !op1.Change?
    ensures
      var s1 := After(s, OpEvents(s, op1, e));
      var s2 := After(s1, OpEvents(s1, op2, e));
      Valid(s2) && Ready(s2, next)
  {
    FirstOp(s, op1, e);
    LaterOp(After(s, OpEvents(s, op1, e)), op2, e);
  }
}
