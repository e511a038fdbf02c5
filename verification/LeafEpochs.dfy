/** A leaf over many epochs and many crashes.  After a restart the log entries are written
  back, and the first visit of the leaf undoes its slot; both are ordinary stores, which a
  second crash can lose again until the next checkpoint.
  Sources: masstree_struct.hh (lazy_recovery), incll_pextlog.hh (undo, checkpoint),
  kvthread_pallocator.hh (init_exist). */
module LeafEpochs {
  import opened LeafRecovery

  /** At the start of an epoch: `base` is the leaf in memory, `images` are its log entries
      that no checkpoint has passed yet, `failed` is the epoch of the last crash. */
  datatype Machine = Machine(base: LeafState, images: seq<LeafState>, failed: nat, global: nat)

  /** An epoch ends in a checkpoint or in a crash.  `order` are the log entries as they are
      written back, `visited` says whether any thread looked at the leaf.  A crash lets `k`
      stores happen, keeps `c` of them, and leaves `rest` of the old log entries in place. */
  datatype Epoch =
    | Survives(order: seq<LeafState>, visited: bool, ops: seq<Op>)
    | Crashes(order: seq<LeafState>, ops: seq<Op>, k: nat, c: Cut, rest: seq<LeafState>)

  // ----- the stores of a restart

  function KeyStores(s: LeafState, n: nat): seq<Event>
    requires n <= |s.keys|
  {
    if n == 0 then [] else KeyStores(s, n - 1) + [Mem(SetKey(n - 1, s.keys[n - 1]))]
  }

  function ValueStores(s: LeafState, n: nat): seq<Event>
    requires n <= |s.values|
  {
    if n == 0 then [] else ValueStores(s, n - 1) + [Mem(SetValue(n - 1, s.values[n - 1]))]
  }

  function HeaderStores(s: LeafState): seq<Event> {
    [Mem(SetNotLogged(s.notLogged)), Mem(SetCl0Idx(s.cl0Idx)), Mem(SetLoggedEpoch(s.loggedEpoch)),
     Mem(SetPerm(s.perm)), Mem(SetPermCl0(s.permCl0))]
  }

  predicate FullSize(s: LeafState) {
    |s.keys| == |s.values| == WIDTH
  }

  /** A log entry is copied over the leaf. */
  function WriteBack(s: LeafState): seq<Event>
    requires FullSize(s)
  {
    HeaderStores(s) + KeyStores(s, WIDTH) + [Mem(SetCl1(s.cl1))] + ValueStores(s, WIDTH) + [Mem(SetCl2(s.cl2))]
  }

  function WriteBackAll(order: seq<LeafState>): seq<Event>
    requires forall s :: s in order ==> FullSize(s)
  {
    if order == [] then [] else WriteBackAll(order[..|order| - 1]) + WriteBack(order[|order| - 1])
  }

  /** `recover_final` */
  function FinishEvents(s: LeafState, ge: nat): seq<Event>
    requires ge > 0
  {
    InvalidateSlots(s) + [Mem(SetLoggedEpoch(ge - 1))] + StampSlots(s.cl1.(idx := INVALID), s.cl2.(idx := INVALID), ge - 1)
  }

  /** `lazy_recovery(fe)`, store by store. */
  function RecoverEvents(s: LeafState, fe: nat, ge: nat): seq<Event>
    requires fe < ge
  {
    if s.loggedEpoch > fe then []
    else if s.loggedEpoch == fe && s.cl0Idx != INVALID then [Mem(SetPerm(s.permCl0))] + FinishEvents(s, ge)
    else if s.cl1.epoch == fe && s.cl1.idx != INVALID then [Mem(SetValue(s.cl1.idx, s.cl1.lv))] + FinishEvents(s, ge)
    else if s.cl2.epoch == fe && s.cl2.idx != INVALID then [Mem(SetValue(s.cl2.idx + KEY_MID, s.cl2.lv))] + FinishEvents(s, ge)
    else []
  }

  lemma NoEvents(s: LeafState, es: seq<Event>)
    ensures After(s, es[..0]) == s
  {
  }

  lemma FinishIs(s: LeafState, ge: nat)
    requires ge > 0
    ensures After(s, FinishEvents(s, ge)) == Finish(s, ge)
    ensures Quiet(FinishEvents(s, ge))
  {
    hide After;
    var es := FinishEvents(s, ge);
    NoEvents(s, es);
    AfterStep(s, es, 0);
    AfterStep(s, es, 1);
    AfterStep(s, es, 2);
    AfterStep(s, es, 3);
    AfterStep(s, es, 4);
    AfterStep(s, es, 5);
    assert es[..6] == es;
  }

  /** One saved field is stored back, then the slots are put away. */
  lemma RestoreIs(s: LeafState, store: Store, ge: nat)
    requires ge > 0 && var s1 := Apply(s, Mem(store)); s1.cl1 == s.cl1 && s1.cl2 == s.cl2
    ensures After(s, [Mem(store)] + FinishEvents(s, ge)) == Finish(Apply(s, Mem(store)), ge)
    ensures Quiet([Mem(store)] + FinishEvents(s, ge))
  {
    hide FinishEvents, Finish, Apply, After;
    var s1 := Apply(s, Mem(store));
    AfterOne(s, Mem(store));
    AfterConcat(s, [Mem(store)], FinishEvents(s, ge));
    FinishSame(s, s1, ge);
    FinishIs(s1, ge);
  }

  /** The stores of the recovery make the recovered leaf. */
  lemma RecoverIs(s: LeafState, fe: nat, ge: nat)
    requires fe < ge
    ensures After(s, RecoverEvents(s, fe, ge)) == Undo(s, fe, ge)
    ensures Quiet(RecoverEvents(s, fe, ge))
  {
    hide FinishEvents, Finish, Quiet;
    if s.loggedEpoch > fe {
      NothingIsQuiet();
    } else if s.loggedEpoch == fe && s.cl0Idx != INVALID {
      RestoreIs(s, SetPerm(s.permCl0), ge);
    } else if s.cl1.epoch == fe && s.cl1.idx != INVALID {
      RestoreIs(s, SetValue(s.cl1.idx, s.cl1.lv), ge);
    } else if s.cl2.epoch == fe && s.cl2.idx != INVALID {
      RestoreIs(s, SetValue(s.cl2.idx + KEY_MID, s.cl2.lv), ge);
    } else {
      NothingIsQuiet();
    }
  }

  lemma NothingIsQuiet()
    ensures Quiet([])
  {
  }

  lemma FinishSame(s: LeafState, s1: LeafState, ge: nat)
    requires ge > 0 && s1.cl1 == s.cl1 && s1.cl2 == s.cl2
    ensures FinishEvents(s, ge) == FinishEvents(s1, ge)
  {
  }

  lemma {:induction false} KeyStoresIs(s: LeafState, t: LeafState, n: nat)
    requires FullSize(s) && FullSize(t) && n <= WIDTH
    ensures After(s, KeyStores(t, n)) == s.(keys := t.keys[..n] + s.keys[n..]) && Quiet(KeyStores(t, n))
  {
    if n > 0 {
      KeyStoresIs(s, t, n - 1);
      var es := KeyStores(t, n);
      assert es[..|es| - 1] == KeyStores(t, n - 1);
      assert (t.keys[..n - 1] + s.keys[n - 1..])[n - 1 := t.keys[n - 1]] == t.keys[..n] + s.keys[n..];
    }
  }

  lemma {:induction false} ValueStoresIs(s: LeafState, t: LeafState, n: nat)
    requires FullSize(s) && FullSize(t) && n <= WIDTH
    ensures After(s, ValueStores(t, n)) == s.(values := t.values[..n] + s.values[n..]) && Quiet(ValueStores(t, n))
  {
    if n > 0 {
      ValueStoresIs(s, t, n - 1);
      var es := ValueStores(t, n);
      assert es[..|es| - 1] == ValueStores(t, n - 1);
      assert (t.values[..n - 1] + s.values[n - 1..])[n - 1 := t.values[n - 1]] == t.values[..n] + s.values[n..];
    }
  }

  lemma HeaderStoresIs(s: LeafState, t: LeafState)
    ensures After(s, HeaderStores(t)) ==
      s.(notLogged := t.notLogged, cl0Idx := t.cl0Idx, loggedEpoch := t.loggedEpoch, perm := t.perm, permCl0 := t.permCl0)
    ensures Quiet(HeaderStores(t))
  {
    hide After;
    var es := HeaderStores(t);
    NoEvents(s, es);
    AfterStep(s, es, 0);
    AfterStep(s, es, 1);
    AfterStep(s, es, 2);
    AfterStep(s, es, 3);
    AfterStep(s, es, 4);
    assert es[..5] == es;
  }

  lemma AfterOne(s: LeafState, e: Event)
    ensures After(s, [e]) == Apply(s, e)
  {
    assert [e][..0] == [];
  }

  /** Writing a log entry back leaves exactly the entry. */
  lemma WriteBackIs(s: LeafState, t: LeafState)
    requires FullSize(s) && FullSize(t)
    ensures After(s, WriteBack(t)) == t && Quiet(WriteBack(t))
  {
    hide KeyStores, ValueStores, HeaderStores, After;
    var a, b, c, d, e := HeaderStores(t), KeyStores(t, WIDTH), [Mem(SetCl1(t.cl1))], ValueStores(t, WIDTH), [Mem(SetCl2(t.cl2))];
    HeaderStoresIs(s, t);
    AfterConcat(s, a, b);
    KeyStoresIs(After(s, a), t, WIDTH);
    AfterConcat(s, a + b, c);
    AfterOne(After(s, a + b), c[0]);
    AfterConcat(s, a + b + c, d);
    ValueStoresIs(After(s, a + b + c), t, WIDTH);
    AfterConcat(s, a + b + c + d, e);
    AfterOne(After(s, a + b + c + d), e[0]);
    assert WriteBack(t) == a + b + c + d + e;
  }

  lemma {:induction false} WriteBackAllIs(s: LeafState, order: seq<LeafState>)
    requires FullSize(s) && forall t :: t in order ==> FullSize(t)
    ensures After(s, WriteBackAll(order)) == (if order == [] then s else order[|order| - 1])
    ensures Quiet(WriteBackAll(order))
  {
    if order != [] {
      hide WriteBack;
      var init, last := order[..|order| - 1], order[|order| - 1];
      WriteBackAllIs(s, init);
      AfterConcat(s, WriteBackAll(init), WriteBack(last));
      WriteBackIs(After(s, WriteBackAll(init)), last);
    }
  }

  // ----- the machine

  /** What a visitor may find before it undoes the slot. */
  ghost predicate Start(m: Machine, s: LeafState) {
    if m.images == [] then s == m.base else s in m.images
  }

  ghost predicate Order(m: Machine, order: seq<LeafState>) {
    && (forall s :: s in order ==> s in m.images)
    && (m.images != [] ==> order != [])
  }

  function StartOf(m: Machine, order: seq<LeafState>): LeafState {
    if order == [] then m.base else order[|order| - 1]
  }

  /** The leaf as its first visitor in the epoch leaves it. */
  function Visited(m: Machine, order: seq<LeafState>): LeafState
    requires m.failed < m.global
  {
    Undo(StartOf(m, order), m.failed, m.global)
  }

  /** All stores before the first operation. */
  function RestartEvents(m: Machine, order: seq<LeafState>): seq<Event>
    requires m.failed < m.global && forall s :: s in order ==> FullSize(s)
  {
    WriteBackAll(order) + RecoverEvents(StartOf(m, order), m.failed, m.global)
  }

  ghost predicate Sizes(m: Machine) {
    FullSize(m.base) && forall s :: s in m.images ==> FullSize(s)
  }

  ghost predicate Enabled(m: Machine, e: Epoch) {
    && m.failed < m.global && Sizes(m) && Order(m, e.order) && CanRun(Visited(m, e.order), e.ops, m.global)
    && match e
       case Survives(_, visited, ops) => ops != [] ==> visited
       case Crashes(order, ops, k, c, rest) =>
         && k <= |RestartEvents(m, order) + RunEvents(Visited(m, order), ops, m.global)|
         && CutWithin(c, k) && forall s :: s in rest ==> s in m.images
  }

  ghost function EpochEvents(m: Machine, e: Epoch): seq<Event>
    requires Enabled(m, e)
  {
    RestartEvents(m, e.order) + RunEvents(Visited(m, e.order), e.ops, m.global)
  }

  ghost function Next(m: Machine, e: Epoch): Machine
    requires Enabled(m, e)
  {
    match e
    case Survives(order, visited, ops) =>
      Machine(if visited then After(Visited(m, order), RunEvents(Visited(m, order), ops, m.global)) else StartOf(m, order),
              [], m.failed, m.global + 1)
    case Crashes(_, _, k, c, rest) =>
      var es := EpochEvents(m, e)[..k];
      Machine(Kept(m.base, es, c), rest + Image(m.base, es), m.global, m.global + 1)
  }

  // ----- what the leaf stands for

  /** The permutation, and the key and value of every live position, are those of `sense`. */
  ghost predicate Shows(s: LeafState, sense: LeafState) {
    && s.perm == sense.perm && FullSize(s) && FullSize(sense)
    && forall p :: 0 <= p < WIDTH && Live(sense, p) ==> s.keys[p] == sense.keys[p] && s.values[p] == sense.values[p]
  }

  /** Whatever log entry is written back last, the visitor sees `sense`. */
  ghost predicate Represents(m: Machine, sense: LeafState) {
    && m.failed < m.global
    && forall s :: Start(m, s) ==> Valid(Undo(s, m.failed, m.global)) && Shows(Undo(s, m.failed, m.global), sense)
  }

  /** The leaf at the last checkpoint. */
  ghost function NextSense(m: Machine, sense: LeafState, e: Epoch): LeafState
    requires Enabled(m, e)
  {
    if e.Survives? && e.visited then After(Visited(m, e.order), RunEvents(Visited(m, e.order), e.ops, m.global)) else sense
  }

  /** Nothing is left to undo: memory and every log entry already show `sense`. */
  ghost predicate Clean(m: Machine, sense: LeafState) {
    Shows(m.base, sense) && forall s :: s in m.images ==> Shows(s, sense)
  }

  /** What the leaf's stamps look like at the start of epoch `g`. */
  ghost predicate Tidy(s: LeafState, g: nat) {
    && Valid(s) && ValidPerm(s.permCl0) && s.loggedEpoch < g
    && (g <= SLOT_EPOCHS ==> s.cl1.epoch < g && s.cl2.epoch < g)
  }

  ghost predicate Inv(m: Machine, sense: LeafState) {
    && m.failed < m.global && Valid(sense)
    && Tidy(m.base, m.global) && (forall s :: s in m.images ==> Tidy(s, m.global))
    && Represents(m, sense)
  }

  // ----- stamps

  ghost predicate TidySlot(slot: Slot, g: nat) {
    slot.idx <= INVALID && slot.epoch < SLOT_EPOCHS && (g <= SLOT_EPOCHS ==> slot.epoch < g)
  }

  ghost predicate TidyEvent(e: Event, g: nat) {
    match e
    case Mem(SetLoggedEpoch(x)) => x < g
    case Mem(SetPerm(p)) => ValidPerm(p)
    case Mem(SetPermCl0(p)) => ValidPerm(p)
    case Mem(SetCl1(slot)) => TidySlot(slot, g)
    case Mem(SetCl2(slot)) => TidySlot(slot, g)
    case _ => true
  }

  ghost predicate TidyEvents(es: seq<Event>, g: nat) {
    forall i :: 0 <= i < |es| ==> TidyEvent(es[i], g)
  }

  lemma TidyStep(s: LeafState, e: Event, g: nat)
    requires Tidy(s, g) && TidyEvent(e, g)
    ensures Tidy(Apply(s, e), g)
  {
    hide ValidPerm;
  }

  lemma {:induction false} TidyAfter(s: LeafState, es: seq<Event>, g: nat)
    requires Tidy(s, g) && TidyEvents(es, g)
    ensures Tidy(After(s, es), g)
  {
    hide Tidy;
    if es != [] {
      TidyAfter(s, es[..|es| - 1], g);
      TidyStep(After(s, es[..|es| - 1]), es[|es| - 1], g);
    }
  }

  /** Lines kept from tidy leaves make a tidy leaf. */
  lemma TidyKept(s: LeafState, es: seq<Event>, c: Cut, g: nat)
    requires Tidy(s, g) && TidyEvents(es, g) && CutWithin(c, |es|)
    ensures Tidy(Kept(s, es, c), g)
  {
    hide ValidPerm, TidyEvent;
    TidyAfter(s, es[..c.line0], g);
    TidyAfter(s, es[..c.line1], g);
    TidyAfter(s, es[..c.line2], g);
  }

  lemma TidyConcat(a: seq<Event>, b: seq<Event>, g: nat)
    requires TidyEvents(a, g) && TidyEvents(b, g)
    ensures TidyEvents(a + b, g)
  {
  }

  lemma PrologueIsTidy(s: LeafState, op: Op, g: nat)
    requires LeafRecovery.Enabled(s, op) && Tidy(s, g + 1)
    ensures TidyEvents(Prologue(s, op, g), g + 1)
  {
    hide ValidPerm;
  }

  lemma BodyIsTidy(s: LeafState, op: Op, g: nat)
    requires LeafRecovery.Enabled(s, op)
    ensures TidyEvents(Body(s, op), g)
  {
    BodyIsData(s, op);
  }

  lemma NothingIsTidy(g: nat)
    ensures TidyEvents([], g)
  {
  }

  /** The operations of an epoch stamp nothing later than the epoch. */
  lemma {:induction false} RunIsTidy(s: LeafState, ops: seq<Op>, g: nat)
    requires Tidy(s, g + 1) && CanRun(s, ops, g)
    ensures TidyEvents(RunEvents(s, ops, g), g + 1)
    decreases |ops|
  {
    hide Tidy, TidyEvents, Prologue, Body;
    if ops == [] {
      NothingIsTidy(g + 1);
    } else {
      PrologueIsTidy(s, ops[0], g);
      BodyIsTidy(s, ops[0], g + 1);
      TidyConcat(Prologue(s, ops[0], g), Body(s, ops[0]), g + 1);
      var s1 := After(s, OpEvents(s, ops[0], g));
      TidyAfter(s, OpEvents(s, ops[0], g), g + 1);
      RunIsTidy(s1, ops[1..], g);
      TidyConcat(OpEvents(s, ops[0], g), RunEvents(s1, ops[1..], g), g + 1);
    }
  }

  // ----- leaves that show the checkpoint without being undone

  ghost predicate Calm(s: LeafState, sense: LeafState, g: nat) {
    Tidy(s, g) && Shows(s, sense)
  }

  ghost predicate CalmEvent(e: Event, sense: LeafState, g: nat)
    requires FullSize(sense)
  {
    && TidyEvent(e, g)
    && match e
       case Mem(SetPerm(p)) => p == sense.perm
       case Mem(SetKey(p, k)) => p < WIDTH && Live(sense, p) ==> k == sense.keys[p]
       case Mem(SetValue(p, v)) => p < WIDTH && Live(sense, p) ==> v == sense.values[p]
       case _ => true
  }

  ghost predicate CalmEvents(es: seq<Event>, sense: LeafState, g: nat)
    requires FullSize(sense)
  {
    forall i :: 0 <= i < |es| ==> CalmEvent(es[i], sense, g)
  }

  lemma CalmStep(s: LeafState, e: Event, sense: LeafState, g: nat)
    requires Calm(s, sense, g) && CalmEvent(e, sense, g)
    ensures Calm(Apply(s, e), sense, g)
  {
    TidyStep(s, e, g);
    hide Tidy, TidyEvent, Live;
  }

  lemma {:induction false} CalmAfter(s: LeafState, es: seq<Event>, sense: LeafState, g: nat)
    requires Calm(s, sense, g) && CalmEvents(es, sense, g)
    ensures Calm(After(s, es), sense, g)
  {
    hide Tidy, CalmEvent;
    if es != [] {
      CalmAfter(s, es[..|es| - 1], sense, g);
      CalmStep(After(s, es[..|es| - 1]), es[|es| - 1], sense, g);
    }
  }

  lemma CalmConcat(a: seq<Event>, b: seq<Event>, sense: LeafState, g: nat)
    requires FullSize(sense) && CalmEvents(a, sense, g) && CalmEvents(b, sense, g)
    ensures CalmEvents(a + b, sense, g)
  {
  }

  lemma {:induction false} KeyStoresAreCalm(s: LeafState, n: nat, sense: LeafState, g: nat)
    requires Calm(s, sense, g) && n <= WIDTH
    ensures CalmEvents(KeyStores(s, n), sense, g) && CalmEvents(ValueStores(s, n), sense, g)
  {
    hide Tidy, Live;
    if n > 0 {
      KeyStoresAreCalm(s, n - 1, sense, g);
    }
  }

  lemma WriteBackIsCalm(s: LeafState, sense: LeafState, g: nat)
    requires Calm(s, sense, g)
    ensures CalmEvents(WriteBack(s), sense, g)
  {
    hide ValidPerm, Live, KeyStores, ValueStores, CalmEvents;
    var a, b, c, d, e := HeaderStores(s), KeyStores(s, WIDTH), [Mem(SetCl1(s.cl1))], ValueStores(s, WIDTH), [Mem(SetCl2(s.cl2))];
    HeaderIsCalm(s, sense, g);
    KeyStoresAreCalm(s, WIDTH, sense, g);
    CalmConcat(a, b, sense, g);
    CalmConcat(a + b, c, sense, g);
    CalmConcat(a + b + c, d, sense, g);
    CalmConcat(a + b + c + d, e, sense, g);
    assert WriteBack(s) == a + b + c + d + e;
  }

  lemma HeaderIsCalm(s: LeafState, sense: LeafState, g: nat)
    requires Calm(s, sense, g)
    ensures CalmEvents(HeaderStores(s), sense, g)
    ensures CalmEvents([Mem(SetCl1(s.cl1))], sense, g) && CalmEvents([Mem(SetCl2(s.cl2))], sense, g)
  {
    hide ValidPerm, Live;
  }

  lemma {:induction false} WriteBackAllIsCalm(order: seq<LeafState>, sense: LeafState, g: nat)
    requires FullSize(sense) && forall s :: s in order ==> FullSize(s) && Calm(s, sense, g)
    ensures CalmEvents(WriteBackAll(order), sense, g)
  {
    hide Tidy, Shows, WriteBack, CalmEvents;
    if order == [] {
      NothingIsCalm(sense, g);
    } else {
      var init, last := order[..|order| - 1], order[|order| - 1];
      WriteBackAllIsCalm(init, sense, g);
      WriteBackIsCalm(last, sense, g);
      CalmConcat(WriteBackAll(init), WriteBack(last), sense, g);
    }
  }

  lemma NothingIsCalm(sense: LeafState, g: nat)
    requires FullSize(sense)
    ensures CalmEvents([], sense, g)
  {
  }

  /** Undoing a leaf that shows the checkpoint already stores only what is there. */
  lemma RecoverIsCalm(s: LeafState, fe: nat, g: nat, sense: LeafState)
    requires fe < g && Tidy(s, g) && Shows(s, sense) && Shows(Undo(s, fe, g), sense)
    ensures CalmEvents(RecoverEvents(s, fe, g), sense, g)
  {
    hide ValidPerm, Live;
  }

  // ----- a crash of a clean and ready leaf

  /** A leaf that was not stamped in epoch `g` is not undone for it. */
  lemma Unstamped(s: LeafState, g: nat)
    requires Tidy(s, g)
    ensures Undo(s, g, g + 1) == s
  {
    hide ValidPerm;
  }

  lemma {:induction false} ImageAfterQuiet(s: LeafState, a: seq<Event>, b: seq<Event>)
    requires Quiet(a)
    ensures Image(s, a + b) == Image(After(s, a), b)
    decreases |b|
  {
    if b == [] {
      assert a + b == a;
      ImageQuiet(s, a);
    } else {
      var init := b[..|b| - 1];
      assert (a + b)[..|a + b| - 1] == a + init;
      ImageAfterQuiet(s, a, init);
      AfterConcat(s, a, init);
    }
  }

  /** Line by line, two leaves are equal, or both show the checkpoint and bear no stamp of
      epoch `g`. */
  ghost predicate Alike(k: LeafState, v: LeafState, sense: LeafState, g: nat) {
    && FullSize(k) && FullSize(v) && FullSize(sense)
    && ((k.loggedEpoch == v.loggedEpoch && k.cl0Idx == v.cl0Idx && k.perm == v.perm && k.permCl0 == v.permCl0)
        || (k.loggedEpoch < g && v.loggedEpoch < g && k.perm == v.perm == sense.perm))
    && (k.cl1 == v.cl1 || (k.cl1.epoch != g && v.cl1.epoch != g))
    && (k.cl2 == v.cl2 || (k.cl2.epoch != g && v.cl2.epoch != g))
    && forall p :: 0 <= p < WIDTH && Live(sense, p) ==>
         && (k.keys[p] == v.keys[p] || k.keys[p] == sense.keys[p])
         && (k.values[p] == v.values[p] || k.values[p] == sense.values[p])
  }

  /** Such leaves are undone to the same. */
  lemma AlikeUndone(k: LeafState, v: LeafState, sense: LeafState, g: nat)
    requires Alike(k, v, sense, g) && Shows(Undo(v, g, g + 1), sense)
    requires Valid(k) && Valid(v) && ValidPerm(k.permCl0) && k.loggedEpoch <= g && v.loggedEpoch <= g
    ensures Valid(Undo(k, g, g + 1)) && Shows(Undo(k, g, g + 1), sense)
  {
    hide ValidPerm, Live;
    if k.loggedEpoch == g && k.cl0Idx != INVALID {
      assert Undo(v, g, g + 1) == Finish(v.(perm := v.permCl0), g + 1);
    } else if k.cl1.epoch == g && k.cl1.idx != INVALID {
      assert Undo(v, g, g + 1) == Finish(v.(values := v.values[v.cl1.idx := v.cl1.lv]), g + 1);
    } else if k.cl2.epoch == g && k.cl2.idx != INVALID {
      assert Undo(v, g, g + 1) == Finish(v.(values := v.values[v.cl2.idx + KEY_MID := v.cl2.lv]), g + 1);
    } else {
      assert Undo(v, g, g + 1) == v;
    }
  }

  function Less(n: nat, m: nat): nat { if n < m then 0 else n - m }

  /** The cut, counted from event `m` on. */
  function LaterCut(c: Cut, m: nat): (r: Cut)
  {
    Cut(Less(c.line0, m), Less(c.line1, m), Less(c.line2, m), seq(|c.key|, i requires 0 <= i < |c.key| => Less(c.key[i], m)))
  }

  lemma {:induction false} AfterSize(s: LeafState, es: seq<Event>)
    requires FullSize(s)
    ensures FullSize(After(s, es))
  {
    if es != [] {
      AfterSize(s, es[..|es| - 1]);
    }
  }

  lemma CalmAlike(x: LeafState, y: LeafState, sense: LeafState, g: nat)
    requires Calm(x, sense, g) && Calm(y, sense, g)
    ensures Alike(x, y, sense, g)
  {
    hide Live;
    CalmStamps(g);
  }

  /** After any number of calm stores `a` and later ones `b`, as if all of `a` had happened. */
  lemma AlikeAt(s: LeafState, a: seq<Event>, b: seq<Event>, n: nat, sense: LeafState, g: nat)
    requires Calm(s, sense, g) && CalmEvents(a, sense, g) && n <= |a + b| && FullSize(s) && FullSize(sense)
    ensures Less(n, |a|) <= |b|
    ensures Alike(After(s, (a + b)[..n]), After(After(s, a), b[..Less(n, |a|)]), sense, g)
  {
    hide Calm, CalmEvent, Alike, After;
    AfterSize(s, a);
    if n <= |a| {
      assert (a + b)[..n] == a[..n];
      NoEvents(After(s, a), b);
      CalmAfter(s, a[..n], sense, g);
      CalmAfter(s, a, sense, g);
      CalmAlike(After(s, a[..n]), After(s, a), sense, g);
    } else {
      assert (a + b)[..n] == a + b[..n - |a|];
      AfterConcat(s, a, b[..n - |a|]);
      AfterSize(After(s, a), b[..n - |a|]);
      AlikeItself(After(After(s, a), b[..n - |a|]), sense, g);
    }
  }

  lemma AlikeItself(x: LeafState, sense: LeafState, g: nat)
    requires FullSize(x) && FullSize(sense)
    ensures Alike(x, x, sense, g)
  {
  }

  lemma KeptAlike(s: LeafState, a: seq<Event>, b: seq<Event>, c: Cut, sense: LeafState, g: nat)
    requires FullSize(s) && FullSize(sense) && FullSize(After(s, a))
    requires Calm(s, sense, g) && CalmEvents(a, sense, g) && CutWithin(c, |a + b|)
    ensures CutWithin(LaterCut(c, |a|), |b|)
    ensures Alike(Kept(s, a + b, c), Kept(After(s, a), b, LaterCut(c, |a|)), sense, g)
  {
    hide Calm, CalmEvents, Live, After;
    AlikeAt(s, a, b, c.line0, sense, g);
    AlikeAt(s, a, b, c.line1, sense, g);
    AlikeAt(s, a, b, c.line2, sense, g);
    forall p | 0 <= p < WIDTH
      ensures Less(c.key[p], |a|) <= |b|
      ensures Alike(After(s, (a + b)[..c.key[p]]), After(After(s, a), b[..Less(c.key[p], |a|)]), sense, g)
    {
      AlikeAt(s, a, b, c.key[p], sense, g);
    }
  }

  lemma CalmStamps(g: nat)
    ensures forall s {:trigger Tidy(s, g)} :: Tidy(s, g) ==> s.loggedEpoch < g && s.cl1.epoch != g && s.cl2.epoch != g
  {
    hide ValidPerm;
  }

  lemma TidyUndo(s: LeafState, fe: nat, g: nat)
    requires fe < g && Tidy(s, g) && Valid(Undo(s, fe, g))
    ensures Tidy(Undo(s, fe, g), g) && Older(Undo(s, fe, g), g)
  {
    hide ValidPerm;
  }

  lemma TidyLater(s: LeafState, g: nat)
    requires Tidy(s, g)
    ensures Tidy(s, g + 1)
  {
  }

  /** The first visitor of an epoch. */
  lemma VisitedIs(m: Machine, sense: LeafState, order: seq<LeafState>)
    requires Inv(m, sense) && Order(m, order)
    ensures Start(m, StartOf(m, order)) && Sizes(m) && Tidy(StartOf(m, order), m.global)
    ensures
      var v := Visited(m, order);
      && Valid(v) && Tidy(v, m.global) && Tidy(v, m.global + 1) && Older(v, m.global) && Shows(v, sense)
      && After(m.base, RestartEvents(m, order)) == v && Quiet(RestartEvents(m, order))
  {
    var s := StartOf(m, order);
    assert FullSize(m.base) && forall x :: x in m.images ==> FullSize(x);
    hide Valid, Shows, Undo, WriteBackAll, RecoverEvents, Older;
    assert Start(m, s);
    assert Tidy(s, m.global);
    TidyUndo(s, m.failed, m.global);
    TidyLater(Undo(s, m.failed, m.global), m.global);
    WriteBackAllIs(m.base, order);
    RecoverIs(s, m.failed, m.global);
    AfterConcat(m.base, WriteBackAll(order), RecoverEvents(s, m.failed, m.global));
  }

  lemma RestartIsCalm(m: Machine, sense: LeafState, order: seq<LeafState>)
    requires Inv(m, sense) && Order(m, order) && Clean(m, sense)
    ensures Sizes(m) && FullSize(sense) && CalmEvents(RestartEvents(m, order), sense, m.global)
  {
    VisitedIs(m, sense, order);
    assert Shows(m.base, sense);
    hide Tidy, Shows, WriteBackAll, RecoverEvents, CalmEvents, Undo;
    WriteBackAllIsCalm(order, sense, m.global);
    RecoverIsCalm(StartOf(m, order), m.failed, m.global, sense);
    CalmConcat(WriteBackAll(order), RecoverEvents(StartOf(m, order), m.failed, m.global), sense, m.global);
  }

  lemma {:induction false} ImageIsTidy(s: LeafState, es: seq<Event>, g: nat)
    requires Tidy(s, g) && TidyEvents(es, g)
    ensures forall x :: x in Image(s, es) ==> Tidy(x, g)
  {
    hide Tidy;
    if es != [] {
      TidyAfter(s, es[..|es| - 1], g);
      ImageIsTidy(s, es[..|es| - 1], g);
    }
  }

  lemma QuietPrefix(a: seq<Event>, k: nat)
    requires Quiet(a) && k <= |a|
    ensures Quiet(a[..k])
  {
  }

  /** What happened before the crash: the restart, and a part of the operations. */
  lemma CrashSplit(s: LeafState, a: seq<Event>, b: seq<Event>, k: nat, c: Cut)
    requires FullSize(s) && FullSize(After(s, a)) && Quiet(a) && k <= |a + b| && CutWithin(c, k)
    ensures Less(k, |a|) <= |b|
    ensures
      var done := b[..Less(k, |a|)];
      && CutWithin(c, |a + done|) && Kept(s, (a + b)[..k], c) == Kept(s, a + done, c)
      && Image(s, (a + b)[..k]) == Image(After(s, a), done)
      && CutWithin(LaterCut(c, |a|), Less(k, |a|))
  {
    var done, es := b[..Less(k, |a|)], (a + b)[..k];
    assert es <= a + done;
    KeptPrefix(s, es, a + done, c);
    if k <= |a| {
      assert es == a[..k] && done == [];
      QuietPrefix(a, k);
      ImageQuiet(s, es);
    } else {
      assert es == a + done;
      ImageAfterQuiet(s, a, done);
    }
  }

  lemma ShowsToo(r: LeafState, v: LeafState, sense: LeafState)
    requires Valid(r) && Valid(v) && Shows(v, sense)
    ensures Restored(r, v) <==> Shows(r, sense)
  {
  }

  /** The epoch's operations were undone, whether or not the leaf was logged. */
  lemma OperationsUndone(m: Machine, sense: LeafState, v: LeafState, ops: seq<Op>, k: nat, c: Cut)
    requires Valid(v) && Shows(v, sense) && Older(v, m.global) && Ready(v, m.global)
    requires CrashCase(v, ops, k, c, m.global)
    ensures
      var es, g := RunEvents(v, ops, m.global)[..k], m.global;
      if Image(v, es) == [] then Shows(Undo(Kept(v, es, c), g, g + 1), sense)
      else Valid(Undo(Image(v, es)[0], g, g + 1)) && Shows(Undo(Image(v, es)[0], g, g + 1), sense)
  {
    hide Valid, Shows, Undo, Ready, Older, Restored, RunEvents;
    CrashRestoresEpochStart(v, ops, k, c, m.global, m.global + 1);
    ShowsToo(AfterCrash(v, ops, k, c, m.global, m.global + 1), v, sense);
  }

  /** Nothing is lost in a crash of a leaf that is clean and ready. */
  lemma CrashKeepsSense(m: Machine, sense: LeafState, e: Epoch)
    requires Inv(m, sense) && Enabled(m, e) && e.Crashes?
    requires Clean(m, sense) && Valid(Visited(m, e.order)) && Ready(Visited(m, e.order), m.global)
    ensures Inv(Next(m, e), sense)
  {
    hide Valid, Shows, Undo, Tidy, Represents, Ready, Clean, Order, Visited, RestartEvents, Kept, Image, RunEvents, CanRun;
    CrashIsTidy(m, sense, e);
    CrashShows(m, sense, e);
  }

  lemma CrashIsTidy(m: Machine, sense: LeafState, e: Epoch)
    requires Inv(m, sense) && Enabled(m, e) && e.Crashes? && Clean(m, sense)
    ensures Tidy(Next(m, e).base, m.global + 1) && forall x :: x in Next(m, e).images ==> Tidy(x, m.global + 1)
  {
    hide Valid, Shows, Undo, Represents, WriteBackAll, RecoverEvents, Tidy, Visited, RestartEvents,
      After, Kept, RunEvents, CanRun, Image, Clean, TidyEvents, CalmEvents, Older;
    var g, v, a := m.global, Visited(m, e.order), RestartEvents(m, e.order);
    VisitedIs(m, sense, e.order);
    RestartIsCalm(m, sense, e.order);
    var b := RunEvents(v, e.ops, g);
    CalmIsTidyLater(a, sense, g);
    RunIsTidy(v, e.ops, g);
    TidyConcat(a, b, g + 1);
    TidyLater(m.base, g);
    forall x | x in e.rest
      ensures Tidy(x, g + 1)
    {
      TidyLater(x, g);
    }
    TidyPrefix(a + b, e.k, g + 1);
    TidyKept(m.base, (a + b)[..e.k], e.c, g + 1);
    ImageIsTidy(m.base, (a + b)[..e.k], g + 1);
  }

  lemma TidyPrefix(es: seq<Event>, k: nat, g: nat)
    requires TidyEvents(es, g) && k <= |es|
    ensures TidyEvents(es[..k], g)
  {
  }

  lemma CalmIsTidyLater(es: seq<Event>, sense: LeafState, g: nat)
    requires FullSize(sense) && CalmEvents(es, sense, g)
    ensures TidyEvents(es, g + 1)
  {
    hide ValidPerm, Live;
  }

  /** The machine after the crash, in terms of the first visitor's leaf. */
  lemma CrashedIs(m: Machine, sense: LeafState, e: Epoch)
    requires Inv(m, sense) && Enabled(m, e) && e.Crashes?
    ensures
      var a, v := RestartEvents(m, e.order), Visited(m, e.order);
      var k, c := Less(e.k, |a|), LaterCut(e.c, |a|);
      && CrashCase(v, e.ops, k, c, m.global)
      && var done := RunEvents(v, e.ops, m.global)[..k];
      && FullSize(m.base) && CutWithin(e.c, |a + done|) && CutWithin(c, |done|)
      && Next(m, e) == Machine(Kept(m.base, a + done, e.c), e.rest + Image(v, done), m.global, m.global + 1)
  {
    hide Valid, Shows, Undo, Represents, WriteBackAll, RecoverEvents, Tidy, Visited, RestartEvents,
      After, Kept, RunEvents, CanRun, Image, Order, Quiet, LaterCut, CutWithin;
    VisitedSize(m, sense, e.order);
    VisitedIs(m, sense, e.order);
    CrashSplit(m.base, RestartEvents(m, e.order), RunEvents(Visited(m, e.order), e.ops, m.global), e.k, e.c);
  }

  lemma VisitedSize(m: Machine, sense: LeafState, order: seq<LeafState>)
    requires Inv(m, sense) && Order(m, order)
    ensures FullSize(m.base) && FullSize(sense) && FullSize(Visited(m, order)) && forall s :: s in order ==> FullSize(s)
  {
    VisitedIs(m, sense, order);
  }

  lemma OrderIsOk(m: Machine, e: Epoch)
    requires Enabled(m, e)
    ensures Order(m, e.order)
  {
  }

  lemma CrashShows(m: Machine, sense: LeafState, e: Epoch)
    requires Inv(m, sense) && Enabled(m, e) && e.Crashes?
    requires Clean(m, sense) && Valid(Visited(m, e.order)) && Ready(Visited(m, e.order), m.global)
    ensures Represents(Next(m, e), sense)
  {
    hide Valid, Shows, Undo, WriteBackAll, RecoverEvents, Tidy, Visited, RestartEvents,
      After, Kept, RunEvents, CanRun, Image, TidyEvents, CalmEvents, Order, Quiet, Ready, Enabled, Next, LaterCut, CutWithin, Older;
    OrderIsOk(m, e);
    VisitedSize(m, sense, e.order);
    var g, v, a, u := m.global, Visited(m, e.order), RestartEvents(m, e.order), Next(m, e);
    VisitedIs(m, sense, e.order);
    RestartIsCalm(m, sense, e.order);
    CrashedIs(m, sense, e);
    var k, c := Less(e.k, |a|), LaterCut(e.c, |a|);
    var done := RunEvents(v, e.ops, g)[..k];
    OperationsUndone(m, sense, v, e.ops, k, c);
    forall s | Start(u, s)
      ensures Valid(Undo(s, g, g + 1)) && Shows(Undo(s, g, g + 1), sense)
    {
      if u.images == [] {
        assert Image(v, done) == [];
        BaseShows(m, sense, a, v, e.ops, done, e.c);
      } else if s in e.rest {
        OldImageShows(m, sense, e, s);
      } else {
        assert s == Image(v, done)[0];
      }
    }
  }

  lemma OldImageShows(m: Machine, sense: LeafState, e: Epoch, s: LeafState)
    requires Inv(m, sense) && Enabled(m, e) && e.Crashes? && Clean(m, sense) && s in e.rest
    ensures Valid(Undo(s, m.global, m.global + 1)) && Shows(Undo(s, m.global, m.global + 1), sense)
  {
    Unstamped(s, m.global);
  }

  /** Without a log entry, memory itself is undone to the checkpoint. */
  lemma BaseShows(m: Machine, sense: LeafState, a: seq<Event>, v: LeafState, ops: seq<Op>, done: seq<Event>, c: Cut)
    requires FullSize(m.base) && FullSize(sense) && FullSize(v)
    requires Calm(m.base, sense, m.global) && CalmEvents(a, sense, m.global)
    requires v == After(m.base, a) && Tidy(v, m.global + 1) && CanRun(v, ops, m.global) && done <= RunEvents(v, ops, m.global)
    requires CutWithin(c, |a + done|) && CutWithin(LaterCut(c, |a|), |done|)
    requires Shows(Undo(Kept(v, done, LaterCut(c, |a|)), m.global, m.global + 1), sense)
    ensures
      var k := Kept(m.base, a + done, c);
      Valid(Undo(k, m.global, m.global + 1)) && Shows(Undo(k, m.global, m.global + 1), sense)
  {
    hide Valid, ValidPerm, Undo, Shows, Alike, CalmEvents, TidyEvents, Kept, RunEvents, CanRun, After;
    var g := m.global;
    RunIsTidy(v, ops, g);
    TidyPrefix(RunEvents(v, ops, g), |done|, g + 1);
    assert RunEvents(v, ops, g)[..|done|] == done;
    CalmIsTidyLater(a, sense, g);
    TidyConcat(a, done, g + 1);
    TidyLater(m.base, g);
    TidyKept(m.base, a + done, c, g + 1);
    TidyKept(v, done, LaterCut(c, |a|), g + 1);
    KeptAlike(m.base, a, done, c, sense, g);
    AlikeUndone(Kept(m.base, a + done, c), Kept(v, done, LaterCut(c, |a|)), sense, g);
  }

  // ----- an epoch that ends in a checkpoint

  lemma {:induction false} RunStamps(s: LeafState, ops: seq<Op>, g: nat)
    requires Valid(s) && CanRun(s, ops, g) && (s.loggedEpoch == g || ops != [])
    ensures Valid(After(s, RunEvents(s, ops, g))) && After(s, RunEvents(s, ops, g)).loggedEpoch == g
    decreases |ops|
  {
    hide OpEvents;
    if ops != [] {
      var s1 := After(s, OpEvents(s, ops[0], g));
      if s.loggedEpoch == g || ops[0].Change? {
        LaterOp(s, ops[0], g);
      } else {
        FirstOp(s, ops[0], g);
      }
      AfterConcat(s, OpEvents(s, ops[0], g), RunEvents(s1, ops[1..], g));
      RunStamps(s1, ops[1..], g);
    }
  }

  /** Waiting an epoch with the recovery changes nothing. */
  lemma UndoLater(s: LeafState, fe: nat, g: nat, sense: LeafState)
    requires fe < g && Valid(Undo(s, fe, g)) && Shows(Undo(s, fe, g), sense)
    ensures Valid(Undo(s, fe, g + 1)) && Shows(Undo(s, fe, g + 1), sense)
  {
    hide ValidPerm, Live;
  }

  lemma UndoneStays(s: LeafState, fe: nat, g: nat)
    requires fe < g
    ensures Undo(Undo(s, fe, g), fe, g + 1) == Undo(s, fe, g)
  {
  }

  lemma LoggedLater(s: LeafState, fe: nat, g: nat)
    requires fe < s.loggedEpoch && fe < g
    ensures Undo(s, fe, g) == s
  {
  }

  lemma ShowsItself(s: LeafState)
    requires Valid(s)
    ensures Shows(s, s)
  {
  }

  lemma UnvisitedKeepsInv(m: Machine, sense: LeafState, e: Epoch)
    requires Inv(m, sense) && Enabled(m, e) && e.Survives? && !e.visited
    ensures Inv(Next(m, e), sense)
  {
    hide Valid, Shows, Undo, Tidy, RunEvents, CanRun, After, Older, Order, RestartEvents, Quiet, Visited;
    OrderIsOk(m, e);
    VisitedIs(m, sense, e.order);
    UndoLater(StartOf(m, e.order), m.failed, m.global, sense);
    TidyLater(StartOf(m, e.order), m.global);
  }

  /** The leaf at the end of an epoch in which it was visited needs no undoing. */
  lemma VisitedStays(m: Machine, sense: LeafState, e: Epoch)
    requires Inv(m, sense) && Enabled(m, e) && e.Survives? && e.visited
    ensures
      var s := NextSense(m, sense, e);
      && Tidy(s, m.global + 1) && Valid(s) && Shows(s, s) && Undo(s, m.failed, m.global + 1) == s
      && Next(m, e) == Machine(s, [], m.failed, m.global + 1)
  {
    hide Valid, Shows, Undo, Tidy, RunEvents, CanRun, After, Older, Order, Represents;
    OrderIsOk(m, e);
    var g, v, ops := m.global, Visited(m, e.order), e.ops;
    VisitedIs(m, sense, e.order);
    RunIsTidy(v, ops, g);
    TidyAfter(v, RunEvents(v, ops, g), g + 1);
    if ops == [] {
      NoOperations(v, g);
      UndoneStays(StartOf(m, e.order), m.failed, g);
    } else {
      RunStamps(v, ops, g);
      LoggedLater(After(v, RunEvents(v, ops, g)), m.failed, g + 1);
    }
    var s := NextSense(m, sense, e);
    TidyIsValid(s, g + 1);
    ShowsItself(s);
  }

  lemma SurvivesKeepsInv(m: Machine, sense: LeafState, e: Epoch)
    requires Inv(m, sense) && Enabled(m, e) && e.Survives?
    ensures Inv(Next(m, e), NextSense(m, sense, e))
  {
    hide Valid, Shows, Undo, Tidy, Enabled;
    if e.visited {
      VisitedStays(m, sense, e);
    } else {
      UnvisitedKeepsInv(m, sense, e);
    }
  }

  lemma NoOperations(v: LeafState, g: nat)
    ensures CanRun(v, [], g) && After(v, RunEvents(v, [], g)) == v
  {
  }

  lemma TidyIsValid(s: LeafState, g: nat)
    requires Tidy(s, g)
    ensures Valid(s)
  {
  }

  /** A leaf that was visited has nothing left to undo after the next checkpoint. */
  lemma CheckpointCleans(m: Machine, sense: LeafState, e: Epoch)
    requires Inv(m, sense) && Enabled(m, e) && e.Survives? && e.visited
    ensures Clean(Next(m, e), NextSense(m, sense, e))
  {
    VisitedStays(m, sense, e);
  }

  // ----- runs

  /** A crash finds the leaf clean and ready. */
  ghost predicate Safe(m: Machine, sense: LeafState, e: Epoch)
    requires m.failed < m.global
  {
    e.Crashes? ==>
      Clean(m, sense) && Valid(Visited(m, e.order)) && Ready(Visited(m, e.order), m.global)
  }

  ghost predicate AllowedRun(m: Machine, sense: LeafState, es: seq<Epoch>)
    decreases |es|
  {
    es != [] ==>
      && Enabled(m, es[0]) && Safe(m, sense, es[0])
      && AllowedRun(Next(m, es[0]), NextSense(m, sense, es[0]), es[1..])
  }

  ghost function RunEpochs(m: Machine, sense: LeafState, es: seq<Epoch>): (r: (Machine, LeafState))
    requires AllowedRun(m, sense, es)
    decreases |es|
  {
    if es == [] then (m, sense) else RunEpochs(Next(m, es[0]), NextSense(m, sense, es[0]), es[1..])
  }

  lemma EpochKeepsInv(m: Machine, sense: LeafState, e: Epoch)
    requires Inv(m, sense) && Enabled(m, e) && Safe(m, sense, e)
    ensures Inv(Next(m, e), NextSense(m, sense, e))
  {
    hide Clean, Ready, Valid, Enabled, Order, Shows;
    if e.Survives? {
      SurvivesKeepsInv(m, sense, e);
    } else {
      CrashKeepsSense(m, sense, e);
    }
  }

  /** Over any number of epochs and crashes: what a visitor sees is the leaf at the last
      checkpoint, as long as every crash finds the leaf clean and ready. */
  lemma {:induction false} RunShowsCheckpoint(m: Machine, sense: LeafState, es: seq<Epoch>)
    requires Inv(m, sense) && AllowedRun(m, sense, es)
    ensures Inv(RunEpochs(m, sense, es).0, RunEpochs(m, sense, es).1)
    decreases |es|
  {
    hide Inv, Enabled, Safe, Next, NextSense;
    if es != [] {
      EpochKeepsInv(m, sense, es[0]);
      RunShowsCheckpoint(Next(m, es[0]), NextSense(m, sense, es[0]), es[1..]);
    }
  }

  // ----- the condition is exact

  ghost predicate ReadyForAll(m: Machine)
    requires m.failed < m.global
  {
    forall s :: Start(m, s) ==> Valid(Undo(s, m.failed, m.global)) && Ready(Undo(s, m.failed, m.global), m.global)
  }

  /** No crash in this epoch loses the checkpoint. */
  ghost predicate EveryCrashKept(m: Machine, sense: LeafState) {
    forall e | Enabled(m, e) && e.Crashes? :: Represents(Next(m, e), sense)
  }

  ghost function SomeOrder(m: Machine): (order: seq<LeafState>)
    ensures Order(m, order)
  {
    if m.images == [] then [] else [m.images[0]]
  }

  ghost function CrashAtOnce(m: Machine, rest: seq<LeafState>): Epoch {
    Crashes(SomeOrder(m), [], 0, SameCut(0, 0, 0), rest)
  }

  lemma CrashAtOnceIs(m: Machine, sense: LeafState, rest: seq<LeafState>)
    requires Inv(m, sense) && forall s :: s in rest ==> s in m.images
    ensures
      var e := CrashAtOnce(m, rest);
      e.Crashes? && Enabled(m, e) && Next(m, e) == Machine(m.base, rest, m.global, m.global + 1)
  {
    var e := CrashAtOnce(m, rest);
    VisitedIs(m, sense, e.order);
    NoOperations(Visited(m, e.order), m.global);
    assert EpochEvents(m, e)[..0] == [];
    hide RestartEvents, Undo, Represents;
    KeptWhole(m.base, []);
  }

  /** A crash before any store gets to memory shows memory, or the log entry, as it is. */
  lemma UncleanLoses(m: Machine, sense: LeafState) returns (e: Epoch)
    requires Inv(m, sense) && !Clean(m, sense)
    ensures Enabled(m, e) && e.Crashes? && !Represents(Next(m, e), sense)
  {
    hide Shows, Valid, Undo, Represents, Enabled, Next, CrashAtOnce, Tidy;
    if !Shows(m.base, sense) {
      e := CrashAtOnce(m, []);
      CrashAtOnceIs(m, sense, []);
      Unstamped(m.base, m.global);
      NotShown(Next(m, e), m.base, sense);
    } else {
      var s :| s in m.images && !Shows(s, sense);
      e := CrashAtOnce(m, [s]);
      CrashAtOnceIs(m, sense, [s]);
      Unstamped(s, m.global);
      NotShown(Next(m, e), s, sense);
    }
  }

  lemma NotShown(m: Machine, s: LeafState, sense: LeafState)
    requires m.failed < m.global && Start(m, s)
    requires !(Valid(Undo(s, m.failed, m.global)) && Shows(Undo(s, m.failed, m.global), sense))
    ensures !Represents(m, sense)
  {
  }

  /** A run of the operations that the crash lets happen, after a restart that reached memory. */
  ghost function CrashLater(m: Machine, s: LeafState, op: Op, k: nat, c: Cut): Epoch
    requires m.failed < m.global && Sizes(m) && Start(m, s)
  {
    var order := if m.images == [] then [] else [s];
    var n := |RestartEvents(m, order)|;
    Crashes(order, [op], n + k, AllAnd(n, c), [])
  }

  /** The first `n` events, and of the later ones the cut `c`. */
  function AllAnd(n: nat, c: Cut): Cut {
    Cut(c.line0 + n, c.line1 + n, c.line2 + n, seq(|c.key|, i requires 0 <= i < |c.key| => c.key[i] + n))
  }

  lemma AllAndWithin(n: nat, c: Cut, k: nat)
    requires CutWithin(c, k)
    ensures CutWithin(AllAnd(n, c), n + k)
  {
  }

  lemma UnreadyLoses(m: Machine, sense: LeafState) returns (e: Epoch)
    requires Inv(m, sense) && !ReadyForAll(m)
    ensures Enabled(m, e) && e.Crashes? && !Represents(Next(m, e), sense)
  {
    hide Valid, Undo, Shows, Tidy, Older, Ready, RestartEvents, Quiet, After, Enabled, Next, Represents,
      CrashLater, Restored, AfterCrash, Image, Kept, RunEvents, CrashCase;
    var s :| Start(m, s) && !(Valid(Undo(s, m.failed, m.global)) && Ready(Undo(s, m.failed, m.global), m.global));
    var order: seq<LeafState> := if m.images == [] then [] else [s];
    VisitedIs(m, sense, order);
    var v, g := Visited(m, order), m.global;
    var op, k, c := NotReadyLoses(v, g, g + 1);
    e := CrashLater(m, s, op, k, c);
    CrashLaterIs(m, sense, s, op, k, c);
    LostToo(m, sense, v, [op], k, c, Next(m, e));
  }

  lemma CrashLaterIs(m: Machine, sense: LeafState, s: LeafState, op: Op, k: nat, c: Cut)
    requires Inv(m, sense) && Start(m, s) && Sizes(m)
    requires var v := Undo(s, m.failed, m.global); Valid(v) && CrashCase(v, [op], k, c, m.global)
    ensures
      var e, v := CrashLater(m, s, op, k, c), Undo(s, m.failed, m.global);
      var es := RunEvents(v, [op], m.global)[..k];
      && e.Crashes? && Enabled(m, e) && Next(m, e) == Machine(Kept(v, es, c), Image(v, es), m.global, m.global + 1)
  {
    hide Valid, Undo, Shows, Tidy, Older, RestartEvents, Quiet, After, Represents, Image, Kept, RunEvents, CanRun, CutWithin, AllAnd;
    var e, v, g := CrashLater(m, s, op, k, c), Undo(s, m.failed, m.global), m.global;
    var a, b := RestartEvents(m, e.order), RunEvents(v, [op], g);
    VisitedIs(m, sense, e.order);
    VisitedSize(m, sense, e.order);
    AllAndWithin(|a|, c, k);
    CrashSplit(m.base, a, b, |a| + k, e.c);
    KeptLater(m.base, a, b[..k], c);
  }

  lemma KeptLater(s: LeafState, a: seq<Event>, b: seq<Event>, c: Cut)
    requires FullSize(s) && FullSize(After(s, a)) && CutWithin(c, |b|)
    ensures CutWithin(AllAnd(|a|, c), |a + b|)
    ensures Kept(s, a + b, AllAnd(|a|, c)) == Kept(After(s, a), b, c)
  {
    hide After;
    LaterPoint(s, a, b, c.line0);
    LaterPoint(s, a, b, c.line1);
    LaterPoint(s, a, b, c.line2);
    forall p | 0 <= p < WIDTH
      ensures After(s, (a + b)[..c.key[p] + |a|]) == After(After(s, a), b[..c.key[p]])
    {
      LaterPoint(s, a, b, c.key[p]);
    }
  }

  lemma LaterPoint(s: LeafState, a: seq<Event>, b: seq<Event>, n: nat)
    requires n <= |b|
    ensures After(s, (a + b)[..n + |a|]) == After(After(s, a), b[..n])
  {
    assert (a + b)[..n + |a|] == a + b[..n];
    AfterConcat(s, a, b[..n]);
  }

  lemma LostToo(m: Machine, sense: LeafState, v: LeafState, ops: seq<Op>, k: nat, c: Cut, u: Machine)
    requires Valid(v) && Shows(v, sense) && CrashCase(v, ops, k, c, m.global)
    requires
      var r := AfterCrash(v, ops, k, c, m.global, m.global + 1);
      !(Valid(r) && Restored(r, v))
    requires var es := RunEvents(v, ops, m.global)[..k]; u == Machine(Kept(v, es, c), Image(v, es), m.global, m.global + 1)
    ensures !Represents(u, sense)
  {
    var es := RunEvents(v, ops, m.global)[..k];
    var s := if Image(v, es) == [] then Kept(v, es, c) else Image(v, es)[0];
    assert Start(u, s);
    var r := Undo(s, m.global, m.global + 1);
    assert r == AfterCrash(v, ops, k, c, m.global, m.global + 1);
    if Valid(r) {
      ShowsToo(r, v, sense);
    }
  }

  /** Every crash of an epoch leaves the leaf as at the last checkpoint exactly when the epoch
      starts with nothing left to undo, in memory and in the log, and with no stale slot. */
  lemma CrashKeptIffCleanAndReady(m: Machine, sense: LeafState)
    requires Inv(m, sense)
    ensures EveryCrashKept(m, sense) <==> Clean(m, sense) && ReadyForAll(m)
  {
    hide Valid, Undo, Shows, Tidy, Ready, Next, Enabled, Represents, Clean;
    if Clean(m, sense) && ReadyForAll(m) {
      forall e | Enabled(m, e) && e.Crashes?
        ensures Represents(Next(m, e), sense)
      {
        ReadyVisitor(m, sense, e);
        CrashKeepsSense(m, sense, e);
        InvRepresents(Next(m, e), sense);
      }
    } else if !Clean(m, sense) {
      var e := UncleanLoses(m, sense);
    } else {
      var e := UnreadyLoses(m, sense);
    }
  }

  lemma ReadyVisitor(m: Machine, sense: LeafState, e: Epoch)
    requires Inv(m, sense) && ReadyForAll(m) && Enabled(m, e)
    ensures Valid(Visited(m, e.order)) && Ready(Visited(m, e.order), m.global)
  {
    VisitedIs(m, sense, e.order);
  }

  lemma InvRepresents(m: Machine, sense: LeafState)
    requires Inv(m, sense)
    ensures Represents(m, sense)
  {
  }
}
