/** One epoch of a whole tree: any number of threads change leaves and internodes under node
  locks, each thread records images in its own external log, and a crash is followed by
  replaying the logs in any order and undoing the leaves' slots.
  Sources: incll_pextlog.hh (record, undo), masstree_struct.hh (record_node). */
module EpochLog {
  import opened LeafRecovery

  type Id = nat
  type Thread = nat

  // ----- internodes: every change of an epoch follows a record

  datatype Inner = Inner(loggedEpoch: nat, body: seq<nat>)

  datatype InnerEvent = InnerRecord | InnerEpoch(e: nat) | InnerStore(i: nat, v: nat)

  function InnerApply(s: Inner, e: InnerEvent): Inner {
    match e
    case InnerRecord => s
    case InnerEpoch(ep) => s.(loggedEpoch := ep)
    case InnerStore(i, v) => if i < |s.body| then s.(body := s.body[i := v]) else s
  }

  function InnerAfter(s: Inner, es: seq<InnerEvent>): Inner {
    if es == [] then s else InnerApply(InnerAfter(s, es[..|es| - 1]), es[|es| - 1])
  }

  /** `record_node` of an internode, then the stores of the operation. */
  function InnerOpEvents(s: Inner, stores: seq<InnerEvent>, ge: nat): seq<InnerEvent> {
    (if s.loggedEpoch != ge then [InnerRecord, InnerEpoch(ge)] else []) + stores
  }

  // ----- the system

  datatype Entry = LeafEntry(id: Id, leaf: LeafState) | InnerEntry(id: Id, inner: Inner)

  /** What a thread still has to do while it holds a node's lock. */
  datatype Work = OnLeaf(id: Id, todo: seq<Event>) | OnInner(id: Id, rest: seq<InnerEvent>)

  datatype System = System(
    leaves: map<Id, LeafState>,        // as at the checkpoint
    inners: map<Id, Inner>,
    ops: map<Id, seq<Op>>,             // operations begun on each leaf in this epoch
    hist: map<Id, seq<Event>>,         // events that happened to each leaf
    innerHist: map<Id, seq<InnerEvent>>,
    work: map<Thread, Work>,
    logs: map<Thread, seq<Entry>>)

  datatype Step =
    | BeginLeaf(t: Thread, id: Id, op: Op)
    | BeginInner(t: Thread, id: Id, stores: seq<InnerEvent>)
    | Advance(t: Thread)

  ghost predicate WellFormed(s: System) {
    s.ops.Keys == s.hist.Keys == s.leaves.Keys && s.innerHist.Keys == s.inners.Keys
  }

  ghost predicate Held(s: System, id: Id, leaf: bool) {
    exists t :: t in s.work && s.work[t].id == id && s.work[t].OnLeaf? == leaf
  }

  ghost predicate CanStep(s: System, step: Step) {
    && WellFormed(s)
    && match step
       case BeginLeaf(t, id, op) =>
         && t in s.logs && t !in s.work && id in s.leaves && !Held(s, id, true)
         && Enabled(After(s.leaves[id], s.hist[id]), op)
       case BeginInner(t, id, stores) =>
         && t in s.logs && t !in s.work && id in s.inners && !Held(s, id, false)
         && forall i :: 0 <= i < |stores| ==> stores[i].InnerStore?
       case Advance(t) =>
         && t in s.work && t in s.logs
         && if s.work[t].OnLeaf? then s.work[t].id in s.leaves else s.work[t].id in s.inners
  }

  /** A thread takes a node's lock with its next operation, makes one store (or appends one
      log entry), or releases the lock when nothing is left to do. */
  ghost function Next(s: System, step: Step, ge: nat): System
    requires CanStep(s, step)
  {
    match step
    case BeginLeaf(t, id, op) =>
      s.(ops := s.ops[id := s.ops[id] + [op]],
         work := s.work[t := OnLeaf(id, OpEvents(After(s.leaves[id], s.hist[id]), op, ge))])
    case BeginInner(t, id, stores) =>
      s.(work := s.work[t := OnInner(id, InnerOpEvents(InnerAfter(s.inners[id], s.innerHist[id]), stores, ge))])
    case Advance(t) =>
      match s.work[t]
      case OnLeaf(id, todo) =>
        if todo == [] then s.(work := s.work - {t})
        else
          s.(hist := s.hist[id := s.hist[id] + [todo[0]]],
             work := s.work[t := OnLeaf(id, todo[1..])],
             logs := if todo[0] == Record
                     then s.logs[t := s.logs[t] + [LeafEntry(id, After(s.leaves[id], s.hist[id]))]]
                     else s.logs)
      case OnInner(id, rest) =>
        if rest == [] then s.(work := s.work - {t})
        else
          s.(innerHist := s.innerHist[id := s.innerHist[id] + [rest[0]]],
             work := s.work[t := OnInner(id, rest[1..])],
             logs := if rest[0] == InnerRecord
                     then s.logs[t := s.logs[t] + [InnerEntry(id, InnerAfter(s.inners[id], s.innerHist[id]))]]
                     else s.logs)
  }

  ghost predicate AllowedRun(s: System, steps: seq<Step>, ge: nat)
    decreases |steps|
  {
    steps != [] ==> CanStep(s, steps[0]) && AllowedRun(Next(s, steps[0], ge), steps[1..], ge)
  }

  ghost function RunSteps(s: System, steps: seq<Step>, ge: nat): System
    requires AllowedRun(s, steps, ge)
    decreases |steps|
  {
    if steps == [] then s else RunSteps(Next(s, steps[0], ge), steps[1..], ge)
  }

  /** Right after a checkpoint: nothing has happened and the logs are empty. */
  ghost predicate AtCheckpoint(s: System, fe: nat) {
    && WellFormed(s)
    && s.work == map[]
    && (forall t :: t in s.logs ==> s.logs[t] == [])
    && (forall id :: id in s.leaves ==> s.ops[id] == [] && s.hist[id] == [])
    && (forall id :: id in s.leaves ==> Valid(s.leaves[id]) && Older(s.leaves[id], fe))
    && (forall id :: id in s.inners ==> s.innerHist[id] == [] && s.inners[id].loggedEpoch != fe)
  }

  // ----- recovery

  datatype Memory = Memory(leaves: map<Id, LeafState>, inners: map<Id, Inner>)

  /** `undo`: each entry overwrites its node. */
  function Replay(m: Memory, entries: seq<Entry>): Memory {
    if entries == [] then m
    else
      var e := entries[|entries| - 1];
      var m' := Replay(m, entries[..|entries| - 1]);
      if e.LeafEntry? then m'.(leaves := m'.leaves[e.id := e.leaf])
      else m'.(inners := m'.inners[e.id := e.inner])
  }

  /** Memory after a crash: every leaf keeps some prefix of each of its lines, and an
      internode that was stored to may hold anything. */
  ghost predicate CrashMemory(s: System, cuts: map<Id, Cut>, m: Memory) {
    && WellFormed(s) && m.leaves.Keys == s.leaves.Keys == cuts.Keys && m.inners.Keys == s.inners.Keys
    && (forall id :: id in s.leaves ==>
          && |s.leaves[id].keys| == |s.leaves[id].values| == WIDTH
          && CutWithin(cuts[id], |s.hist[id]|)
          && m.leaves[id] == Kept(s.leaves[id], s.hist[id], cuts[id]))
    && (forall id :: id in s.inners && s.innerHist[id] == [] ==> m.inners[id] == s.inners[id])
  }

  /** `order` holds the entries of all threads' logs, in any order. */
  ghost predicate AllEntries(s: System, order: seq<Entry>) {
    forall e :: e in order <==> exists t :: t in s.logs && e in s.logs[t]
  }

  /** Recovery of the memory: replay, then undo the leaves' slots. */
  ghost predicate TreeRestored(s: System, m: Memory, fe: nat, ge: nat)
    requires fe < ge
  {
    && (forall id :: id in s.leaves ==>
          && id in m.leaves && Valid(s.leaves[id]) && Valid(Undo(m.leaves[id], fe, ge))
          && Restored(Undo(m.leaves[id], fe, ge), s.leaves[id]))
    && (forall id :: id in s.inners ==> id in m.inners && m.inners[id] == s.inners[id])
  }

  // ----- the invariant

  ghost predicate LeafHistory(s: System, id: Id, fe: nat)
    requires WellFormed(s) && id in s.leaves
  {
    && CanRun(s.leaves[id], s.ops[id], fe)
    && (!Held(s, id, true) ==> s.hist[id] == RunEvents(s.leaves[id], s.ops[id], fe))
    && (forall t :: t in s.work && s.work[t].OnLeaf? && s.work[t].id == id ==>
          s.hist[id] + s.work[t].todo == RunEvents(s.leaves[id], s.ops[id], fe))
  }

  /** Nothing, or a record, the epoch, and then only stores. */
  predicate InnerShape(es: seq<InnerEvent>, fe: nat) {
    es != [] ==>
      && |es| >= 2 && es[0] == InnerRecord && es[1] == InnerEpoch(fe)
      && forall i :: 2 <= i < |es| ==> es[i].InnerStore?
  }

  ghost predicate InnerHistory(s: System, id: Id, fe: nat)
    requires WellFormed(s) && id in s.inners
  {
    && s.inners[id].loggedEpoch != fe
    && (!Held(s, id, false) ==> InnerShape(s.innerHist[id], fe))
    && (forall t :: t in s.work && s.work[t].OnInner? && s.work[t].id == id ==>
          InnerShape(s.innerHist[id] + s.work[t].rest, fe))
  }

  /** A node's lock is held by one thread. */
  ghost predicate Exclusive(s: System) {
    forall t, u | t in s.work && u in s.work ::
      s.work[t].id == s.work[u].id && s.work[t].OnLeaf? == s.work[u].OnLeaf? ==> t == u
  }

  ghost predicate EntryAt(s: System, t: Thread, i: nat, e: Entry) {
    t in s.logs && i < |s.logs[t]| && s.logs[t][i] == e
  }

  /** An entry is the image its node's history asks for. */
  ghost predicate RightEntry(s: System, e: Entry)
    requires WellFormed(s)
  {
    match e
    case LeafEntry(id, leaf) => id in s.leaves && Image(s.leaves[id], s.hist[id]) == [leaf]
    case InnerEntry(id, inner) => id in s.inners && s.innerHist[id] != [] && inner == s.inners[id]
  }

  ghost predicate LogsRight(s: System)
    requires WellFormed(s)
  {
    && (forall t, i, e :: EntryAt(s, t, i, e) ==> RightEntry(s, e))
    && (forall id :: id in s.leaves && Image(s.leaves[id], s.hist[id]) != [] ==>
          exists t, i, e :: EntryAt(s, t, i, e) && e.LeafEntry? && e.id == id)
    && (forall id :: id in s.inners && s.innerHist[id] != [] ==>
          exists t, i, e :: EntryAt(s, t, i, e) && e.InnerEntry? && e.id == id)
  }

  /** A node has at most one entry over all threads' logs. */
  ghost predicate OneEntryPerNode(s: System) {
    forall t, i, e, t', i', e' ::
      EntryAt(s, t, i, e) && EntryAt(s, t', i', e') && e.id == e'.id && e.LeafEntry? == e'.LeafEntry?
      ==> t == t' && i == i'
  }

  ghost predicate Inv(s: System, fe: nat) {
    && WellFormed(s)
    && (forall id :: id in s.leaves ==> Valid(s.leaves[id]) && Older(s.leaves[id], fe) && LeafHistory(s, id, fe))
    && (forall id :: id in s.inners ==> InnerHistory(s, id, fe))
    && Exclusive(s)
    && LogsRight(s)
    && OneEntryPerNode(s)
  }

  lemma CheckpointInv(s: System, fe: nat)
    requires AtCheckpoint(s, fe)
    ensures Inv(s, fe)
  {
    hide OpEvents, Valid;
  }

  lemma {:induction false} RunEventsSnoc(s: LeafState, ops: seq<Op>, op: Op, ge: nat)
    requires CanRun(s, ops, ge) && Enabled(After(s, RunEvents(s, ops, ge)), op)
    ensures CanRun(s, ops + [op], ge)
    ensures RunEvents(s, ops + [op], ge) == RunEvents(s, ops, ge) + OpEvents(After(s, RunEvents(s, ops, ge)), op, ge)
    decreases |ops|
  {
    hide OpEvents;
    var all := ops + [op];
    if ops == [] {
      assert all[1..] == [];
    } else {
      var es := OpEvents(s, ops[0], ge);
      var rest := RunEvents(After(s, es), ops[1..], ge);
      AfterConcat(s, es, rest);
      RunEventsSnoc(After(s, es), ops[1..], op, ge);
      assert all[1..] == ops[1..] + [op];
    }
  }

  lemma ShapeOneRecord(pre: seq<Event>, es: seq<Event>, i: nat)
    requires pre <= es && Quiet(pre) && RecordFirst(es[|pre|..])
    requires i < |es| && es[i] == Record
    ensures Quiet(es[..i])
  {
    var tail := es[|pre|..];
    assert forall k :: 0 <= k < |pre| ==> es[k] == pre[k];
    assert forall k :: |pre| <= k < |es| ==> es[k] == tail[k - |pre|];
    assert tail[0] == RecordImage[0];
    assert forall k :: 2 <= k < |tail| ==> tail[k] == tail[2..][k - 2];
  }

  lemma OneRecord(s: LeafState, ops: seq<Op>, ge: nat, i: nat)
    requires CanRun(s, ops, ge) && s.loggedEpoch != ge
    requires i < |RunEvents(s, ops, ge)| && RunEvents(s, ops, ge)[i] == Record
    ensures Quiet(RunEvents(s, ops, ge)[..i])
  {
    hide OpEvents;
    EpochShape(s, ops, ge);
    ShapeOneRecord(if ops[0].Change? then [] else OpEvents(s, ops[0], ge), RunEvents(s, ops, ge), i);
  }

  // ----- frames: what a step does not touch keeps its part of the invariant

  ghost predicate WorksOn(s: System, t: Thread, x: Id, leaf: bool) {
    t in s.work && s.work[t].id == x && s.work[t].OnLeaf? == leaf
  }

  ghost predicate SameWorkOn(s: System, s': System, x: Id, leaf: bool) {
    forall t :: WorksOn(s, t, x, leaf) == WorksOn(s', t, x, leaf) && (WorksOn(s, t, x, leaf) ==> s.work[t] == s'.work[t])
  }

  lemma SameHeld(s: System, s': System, x: Id, leaf: bool)
    requires SameWorkOn(s, s', x, leaf)
    ensures Held(s, x, leaf) == Held(s', x, leaf)
  {
    if Held(s, x, leaf) {
      var t :| t in s.work && s.work[t].id == x && s.work[t].OnLeaf? == leaf;
      assert WorksOn(s, t, x, leaf) && WorksOn(s', t, x, leaf);
    }
    if Held(s', x, leaf) {
      var t :| t in s'.work && s'.work[t].id == x && s'.work[t].OnLeaf? == leaf;
      assert WorksOn(s', t, x, leaf) && WorksOn(s, t, x, leaf);
    }
  }

  lemma LeafFrame(s: System, s': System, x: Id, fe: nat)
    requires WellFormed(s) && WellFormed(s') && x in s.leaves && x in s'.leaves && LeafHistory(s, x, fe)
    requires s.leaves[x] == s'.leaves[x] && s.ops[x] == s'.ops[x] && s.hist[x] == s'.hist[x]
    requires SameWorkOn(s, s', x, true)
    ensures LeafHistory(s', x, fe)
  {
    hide RunEvents, CanRun;
    SameHeld(s, s', x, true);
    forall t | t in s'.work && s'.work[t].OnLeaf? && s'.work[t].id == x
      ensures s'.hist[x] + s'.work[t].todo == RunEvents(s'.leaves[x], s'.ops[x], fe)
    {
      assert WorksOn(s', t, x, true) && WorksOn(s, t, x, true);
    }
  }

  lemma InnerFrame(s: System, s': System, x: Id, fe: nat)
    requires WellFormed(s) && WellFormed(s') && x in s.inners && x in s'.inners && InnerHistory(s, x, fe)
    requires s.inners[x] == s'.inners[x] && s.innerHist[x] == s'.innerHist[x]
    requires SameWorkOn(s, s', x, false)
    ensures InnerHistory(s', x, fe)
  {
    SameHeld(s, s', x, false);
    forall t | t in s'.work && s'.work[t].OnInner? && s'.work[t].id == x
      ensures InnerShape(s'.innerHist[x] + s'.work[t].rest, fe)
    {
      assert WorksOn(s', t, x, false) && WorksOn(s, t, x, false);
    }
  }

  // ----- each kind of step keeps the invariant

  lemma BeginLeafHistory(s: System, t: Thread, id: Id, op: Op, fe: nat)
    requires Inv(s, fe) && CanStep(s, BeginLeaf(t, id, op))
    ensures LeafHistory(Next(s, BeginLeaf(t, id, op), fe), id, fe)
  {
    hide OpEvents, CanRun, RunEvents, Image, LogsRight, OneEntryPerNode, InnerHistory, Valid;
    var s' := Next(s, BeginLeaf(t, id, op), fe);
    assert LeafHistory(s, id, fe);
    RunEventsSnoc(s.leaves[id], s.ops[id], op, fe);
    assert s'.work[t].id == id;
  }

  /** Handing a free node's lock to an idle thread. */
  lemma NewWork(s: System, s': System, t: Thread, w: Work)
    requires Exclusive(s) && t !in s.work && !Held(s, w.id, w.OnLeaf?) && s'.work == s.work[t := w]
    ensures Exclusive(s')
    ensures forall x, leaf :: (x != w.id || leaf != w.OnLeaf?) ==> SameWorkOn(s, s', x, leaf)
  {
  }

  /** The holder of a lock goes on with other work on the same node. */
  lemma ChangedWork(s: System, s': System, t: Thread, w: Work)
    requires Exclusive(s) && t in s.work && s.work[t].id == w.id && s.work[t].OnLeaf? == w.OnLeaf?
    requires s'.work == s.work[t := w]
    ensures Exclusive(s') && Held(s', w.id, w.OnLeaf?)
    ensures forall u :: WorksOn(s', u, w.id, w.OnLeaf?) ==> u == t
    ensures forall x, leaf :: (x != w.id || leaf != w.OnLeaf?) ==> SameWorkOn(s, s', x, leaf)
  {
    assert WorksOn(s', t, w.id, w.OnLeaf?);
  }

  /** The holder of a lock lets it go. */
  lemma DroppedWork(s: System, s': System, t: Thread)
    requires Exclusive(s) && t in s.work && s'.work == s.work - {t}
    ensures Exclusive(s') && !Held(s', s.work[t].id, s.work[t].OnLeaf?)
    ensures forall x, leaf :: (x != s.work[t].id || leaf != s.work[t].OnLeaf?) ==> SameWorkOn(s, s', x, leaf)
  {
  }

  lemma BeginLeafKeepsInv(s: System, t: Thread, id: Id, op: Op, fe: nat)
    requires Inv(s, fe) && CanStep(s, BeginLeaf(t, id, op))
    ensures Inv(Next(s, BeginLeaf(t, id, op), fe), fe)
  {
    hide OpEvents, CanRun, RunEvents, Image, LeafHistory, InnerHistory, LogsRight, OneEntryPerNode, Valid, Enabled;
    var s' := Next(s, BeginLeaf(t, id, op), fe);
    NewWork(s, s', t, s'.work[t]);
    BeginLeafHistory(s, t, id, op, fe);
    assert s' == s.(work := s'.work, ops := s.ops[id := s'.ops[id]]);
    hide Next, SameWorkOn, Exclusive;
    forall x | x in s'.leaves
      ensures LeafHistory(s', x, fe)
    {
      if x != id {
        LeafFrame(s, s', x, fe);
      }
    }
    forall x | x in s'.inners
      ensures InnerHistory(s', x, fe)
    {
      InnerFrame(s, s', x, fe);
    }
    SameLogs(s, s');
  }

  lemma SameLogs(s: System, s': System)
    requires WellFormed(s) && WellFormed(s') && LogsRight(s) && OneEntryPerNode(s)
    requires s.logs == s'.logs && s.leaves == s'.leaves && s.inners == s'.inners
    requires forall id :: id in s.leaves ==> Image(s.leaves[id], s.hist[id]) == Image(s.leaves[id], s'.hist[id])
    requires forall id :: id in s.inners ==> (s.innerHist[id] == [] <==> s'.innerHist[id] == [])
    ensures LogsRight(s') && OneEntryPerNode(s')
  {
    forall t, i, e
      ensures EntryAt(s', t, i, e) == EntryAt(s, t, i, e)
    {
    }
  }

  /** The images of a log with `e` added at its end. */
  ghost predicate Appended(s: System, s': System, t: Thread, e: Entry)
    requires t in s.logs
  {
    forall u, i, x :: EntryAt(s', u, i, x) <==> EntryAt(s, u, i, x) || (u == t && i == |s.logs[t]| && x == e)
  }

  /** Node by node, everything but the node of `e` has the log entries it had. */
  ghost predicate OthersSame(s: System, s': System, e: Entry)
    requires WellFormed(s) && WellFormed(s')
  {
    && s.leaves == s'.leaves && s.inners == s'.inners
    && (forall id :: id in s.leaves && !(e.LeafEntry? && id == e.id) ==>
          Image(s.leaves[id], s.hist[id]) == Image(s.leaves[id], s'.hist[id]))
    && (forall id :: id in s.inners && !(e.InnerEntry? && id == e.id) ==>
          (s.innerHist[id] == [] <==> s'.innerHist[id] == []))
  }

  /** No log holds an entry for the node of `e` yet. */
  ghost predicate NoEntryYet(s: System, e: Entry) {
    forall u, i, x :: EntryAt(s, u, i, x) ==> !(x.id == e.id && x.LeafEntry? == e.LeafEntry?)
  }

  /** A new entry for a node that had none. */
  lemma AppendedEntry(s: System, s': System, t: Thread, e: Entry)
    requires WellFormed(s) && WellFormed(s') && LogsRight(s) && OneEntryPerNode(s)
    requires t in s.logs && s'.logs == s.logs[t := s.logs[t] + [e]]
    requires RightEntry(s', e) && OthersSame(s, s', e)
    requires e.LeafEntry? ==> e.id in s.leaves && Image(s.leaves[e.id], s.hist[e.id]) == []
    requires e.InnerEntry? ==> e.id in s.inners && s.innerHist[e.id] == []
    ensures LogsRight(s') && OneEntryPerNode(s')
  {
    assert Appended(s, s', t, e);
    assert NoEntryYet(s, e) by {
      hide Image, EntryAt, OthersSame, Appended;
      forall u, i, x | EntryAt(s, u, i, x)
        ensures !(x.id == e.id && x.LeafEntry? == e.LeafEntry?)
      {
        assert RightEntry(s, x);
      }
    }
    assert EntryAt(s', t, |s.logs[t]|, e);
    hide Image, EntryAt;
    AppendedUnique(s, s', t, e);
    AppendedRight(s, s', t, e);
  }

  lemma AppendedUnique(s: System, s': System, t: Thread, e: Entry)
    requires t in s.logs && OneEntryPerNode(s) && Appended(s, s', t, e) && NoEntryYet(s, e)
    ensures OneEntryPerNode(s')
  {
    hide EntryAt;
  }

  lemma AppendedRight(s: System, s': System, t: Thread, e: Entry)
    requires WellFormed(s) && WellFormed(s') && LogsRight(s) && t in s.logs
    requires Appended(s, s', t, e) && OthersSame(s, s', e) && NoEntryYet(s, e) && RightEntry(s', e)
    ensures LogsRight(s')
  {
    hide EntryAt, Image;
    assert EntryAt(s', t, |s.logs[t]|, e);
    forall id | id in s'.leaves && Image(s'.leaves[id], s'.hist[id]) != []
      ensures exists u, i, x :: EntryAt(s', u, i, x) && x.LeafEntry? && x.id == id
    {
      if !(e.LeafEntry? && id == e.id) {
        var u, i, x :| EntryAt(s, u, i, x) && x.LeafEntry? && x.id == id;
        assert EntryAt(s', u, i, x);
      }
    }
    forall id | id in s'.inners && s'.innerHist[id] != []
      ensures exists u, i, x :: EntryAt(s', u, i, x) && x.InnerEntry? && x.id == id
    {
      if !(e.InnerEntry? && id == e.id) {
        var u, i, x :| EntryAt(s, u, i, x) && x.InnerEntry? && x.id == id;
        assert EntryAt(s', u, i, x);
      }
    }
  }

  lemma {:induction false} InnerEpochKept(s: Inner, es: seq<InnerEvent>, fe: nat)
    requires InnerShape(es, fe) && es != []
    ensures InnerAfter(s, es).loggedEpoch == fe
    decreases |es|
  {
    var es' := es[..|es| - 1];
    if |es| > 2 {
      InnerEpochKept(s, es', fe);
    }
  }

  lemma BeginInnerKeepsInv(s: System, t: Thread, id: Id, stores: seq<InnerEvent>, fe: nat)
    requires Inv(s, fe) && CanStep(s, BeginInner(t, id, stores))
    ensures Inv(Next(s, BeginInner(t, id, stores), fe), fe)
  {
    hide Image, LeafHistory, LogsRight, OneEntryPerNode, Valid, InnerAfter;
    var s' := Next(s, BeginInner(t, id, stores), fe);
    NewWork(s, s', t, s'.work[t]);
    assert InnerHistory(s, id, fe);
    if s.innerHist[id] == [] {
      assert InnerAfter(s.inners[id], []) == s.inners[id] by { EmptyInner(s.inners[id]); }
    } else {
      InnerEpochKept(s.inners[id], s.innerHist[id], fe);
    }
    assert InnerShape(s'.innerHist[id] + s'.work[t].rest, fe);
    assert WorksOn(s', t, id, false) && Held(s', id, false);
    assert InnerHistory(s', id, fe);
    assert s' == s.(work := s'.work);
    hide Next, SameWorkOn, Exclusive, InnerHistory;
    forall x | x in s'.leaves
      ensures LeafHistory(s', x, fe)
    {
      LeafFrame(s, s', x, fe);
    }
    forall x | x in s'.inners
      ensures InnerHistory(s', x, fe)
    {
      if x != id {
        InnerFrame(s, s', x, fe);
      }
    }
    SameLogs(s, s');
  }

  lemma EmptyInner(s: Inner)
    ensures InnerAfter(s, []) == s
  {
  }

  /** The history of the node that is let go is complete. */
  lemma ReleasedHistory(s: System, t: Thread, fe: nat)
    requires Inv(s, fe) && CanStep(s, Advance(t))
    requires if s.work[t].OnLeaf? then s.work[t].todo == [] else s.work[t].rest == []
    ensures
      var w, s' := s.work[t], s.(work := s.work - {t});
      && WellFormed(s') && Next(s, Advance(t), fe) == s' && Exclusive(s')
      && (if w.OnLeaf? then w.id in s.leaves && LeafHistory(s', w.id, fe) else w.id in s.inners && InnerHistory(s', w.id, fe))
  {
    hide Image, LogsRight, OneEntryPerNode, Valid, CanRun, RunEvents, InnerShape, Enabled, Older, After, InnerAfter;
    var w, s' := s.work[t], s.(work := s.work - {t});
    DroppedWork(s, s', t);
    if w.OnLeaf? {
      assert LeafHistory(s, w.id, fe);
      assert s.hist[w.id] + [] == s.hist[w.id];
    } else {
      assert InnerHistory(s, w.id, fe);
      assert s.innerHist[w.id] + [] == s.innerHist[w.id];
    }
    hide Exclusive, SameWorkOn;
  }

  lemma ReleasedInv(s: System, s': System, t: Thread, fe: nat)
    requires Inv(s, fe) && t in s.work && s' == s.(work := s.work - {t}) && Exclusive(s')
    requires if s.work[t].OnLeaf? then s.work[t].id in s.leaves && LeafHistory(s', s.work[t].id, fe)
             else s.work[t].id in s.inners && InnerHistory(s', s.work[t].id, fe)
    ensures Inv(s', fe)
  {
    hide LeafHistory, InnerHistory, LogsRight, OneEntryPerNode, Valid, Older, SameWorkOn, Image;
    var w := s.work[t];
    DroppedWork(s, s', t);
    hide Exclusive;
    forall x | x in s.leaves
      ensures LeafHistory(s', x, fe)
    {
      if !w.OnLeaf? || x != w.id {
        LeafFrame(s, s', x, fe);
      }
    }
    forall x | x in s.inners
      ensures InnerHistory(s', x, fe)
    {
      if w.OnLeaf? || x != w.id {
        InnerFrame(s, s', x, fe);
      }
    }
    SameLogs(s, s');
  }

  lemma ReleaseKeepsInv(s: System, t: Thread, fe: nat)
    requires Inv(s, fe) && CanStep(s, Advance(t))
    requires if s.work[t].OnLeaf? then s.work[t].todo == [] else s.work[t].rest == []
    ensures Inv(Next(s, Advance(t), fe), fe)
  {
    ReleasedHistory(s, t, fe);
    assert t in s.work;
    hide Inv, CanStep, Next, LeafHistory, InnerHistory, Exclusive;
    ReleasedInv(s, s.(work := s.work - {t}), t, fe);
  }

  /** The leaf's own history is kept after one more event, and a record is its first. */
  ghost predicate LeafEventDone(s: System, t: Thread, s': System, fe: nat)
    requires t in s.work && s.work[t].OnLeaf? && s.work[t].todo != []
  {
    var id := s.work[t].id;
    && WellFormed(s) && WellFormed(s') && id in s.leaves && id in s'.leaves
    && LeafHistory(s', id, fe)
    && (s.work[t].todo[0] == Record ==> Image(s.leaves[id], s.hist[id]) == [])
  }

  lemma NoImageBeforeRecord(start: LeafState, ops: seq<Op>, h: seq<Event>, todo: seq<Event>, fe: nat)
    requires CanRun(start, ops, fe) && start.loggedEpoch != fe
    requires h + todo == RunEvents(start, ops, fe) && todo != [] && todo[0] == Record
    ensures Image(start, h) == []
  {
    hide RunEvents, CanRun, Image;
    var all := h + todo;
    assert all[|h|] == Record && all[..|h|] == h;
    OneRecord(start, ops, fe, |h|);
    ImageQuiet(start, h);
  }

  lemma HeadMoves<E>(h: seq<E>, todo: seq<E>)
    requires todo != []
    ensures h + [todo[0]] + todo[1..] == h + todo
  {
  }

  /** One event has moved from what the holder has still to do to the node's history. */
  lemma MovedHistory(s: System, s': System, t: Thread, id: Id, fe: nat)
    requires WellFormed(s) && WellFormed(s') && id in s.leaves && LeafHistory(s, id, fe) && s'.leaves == s.leaves && s'.ops == s.ops
    requires WorksOn(s, t, id, true) && WorksOn(s', t, id, true) && forall u :: WorksOn(s', u, id, true) ==> u == t
    requires s'.hist[id] + s'.work[t].todo == s.hist[id] + s.work[t].todo
    ensures LeafHistory(s', id, fe)
  {
    hide CanRun, RunEvents;
    forall u | u in s'.work && s'.work[u].OnLeaf? && s'.work[u].id == id
      ensures u == t
    {
      assert WorksOn(s', u, id, true);
    }
    assert Held(s', id, true);
  }

  lemma EventMoves(s: System, t: Thread, fe: nat)
    requires CanStep(s, Advance(t)) && WellFormed(s) && s.work[t].OnLeaf? && s.work[t].todo != [] && s.work[t].id in s.leaves
    ensures
      var s', w := Next(s, Advance(t), fe), s.work[t];
      && WellFormed(s') && s'.leaves == s.leaves && s'.ops == s.ops && t in s'.work && s'.work == s.work[t := s'.work[t]]
      && s'.work[t].OnLeaf? && s'.work[t].id == w.id && WorksOn(s, t, w.id, true) && WorksOn(s', t, w.id, true)
      && s'.hist[w.id] + s'.work[t].todo == s.hist[w.id] + w.todo
  {
    hide Enabled, After, InnerAfter;
    HeadMoves(s.hist[s.work[t].id], s.work[t].todo);
  }

  lemma NoImageAtRecord(s: System, t: Thread, fe: nat)
    requires Inv(s, fe) && t in s.work && s.work[t].OnLeaf? && s.work[t].id in s.leaves && s.work[t].todo != [] && s.work[t].todo[0] == Record
    ensures Image(s.leaves[s.work[t].id], s.hist[s.work[t].id]) == []
  {
    hide LogsRight, OneEntryPerNode, Valid, CanRun, RunEvents, Image, InnerHistory, Exclusive;
    var id := s.work[t].id;
    assert LeafHistory(s, id, fe) && Older(s.leaves[id], fe);
    NoImageBeforeRecord(s.leaves[id], s.ops[id], s.hist[id], s.work[t].todo, fe);
  }

  lemma LeafEventHistory(s: System, t: Thread, fe: nat)
    requires Inv(s, fe) && CanStep(s, Advance(t))
    requires s.work[t].OnLeaf? && s.work[t].todo != []
    ensures LeafEventDone(s, t, Next(s, Advance(t), fe), fe)
  {
    hide LogsRight, OneEntryPerNode, Valid, InnerHistory, Older, LeafHistory;
    EventMoves(s, t, fe);
    var s', id := Next(s, Advance(t), fe), s.work[t].id;
    hide Next, CanStep, Image;
    ChangedWork(s, s', t, s'.work[t]);
    hide Exclusive, SameWorkOn;
    if s.work[t].todo[0] == Record {
      NoImageAtRecord(s, t, fe);
    }
    MovedHistory(s, s', t, id, fe);
  }

  /** One event of an operation on a leaf. */
  lemma LeafEventKeepsInv(s: System, t: Thread, fe: nat)
    requires Inv(s, fe) && CanStep(s, Advance(t))
    requires s.work[t].OnLeaf? && s.work[t].todo != []
    ensures Inv(Next(s, Advance(t), fe), fe)
  {
    hide LogsRight, OneEntryPerNode, Valid, CanRun, RunEvents, Image, After, InnerHistory, LeafHistory, Enabled, Older;
    var s', id, e := Next(s, Advance(t), fe), s.work[t].id, s.work[t].todo[0];
    var start, h := s.leaves[id], s.hist[id];
    LeafEventHistory(s, t, fe);
    ChangedWork(s, s', t, s'.work[t]);
    ImageSnoc(start, h, e);
    assert s' == s.(work := s'.work, hist := s.hist[id := h + [e]], logs := s'.logs);
    assert s'.logs == if e == Record then s.logs[t := s.logs[t] + [LeafEntry(id, After(start, h))]] else s.logs;
    hide Next, SameWorkOn, Exclusive;
    forall x | x in s'.leaves
      ensures LeafHistory(s', x, fe)
    {
      if x != id {
        LeafFrame(s, s', x, fe);
      }
    }
    forall x | x in s'.inners
      ensures InnerHistory(s', x, fe)
    {
      InnerFrame(s, s', x, fe);
    }
    if e == Record {
      AppendedEntry(s, s', t, LeafEntry(id, After(start, h)));
    } else {
      SameLogs(s, s');
    }
  }

  lemma ImageSnoc(s: LeafState, h: seq<Event>, e: Event)
    ensures Image(s, h + [e]) == if e == Record then [After(s, h)] else Image(s, h)
  {
    assert (h + [e])[..|h|] == h;
  }

  lemma InnerEventHistory(s: System, t: Thread, fe: nat)
    requires Inv(s, fe) && CanStep(s, Advance(t))
    requires s.work[t].OnInner? && s.work[t].rest != []
    ensures InnerHistory(Next(s, Advance(t), fe), s.work[t].id, fe)
    ensures s.work[t].rest[0] == InnerRecord <==> s.innerHist[s.work[t].id] == []
  {
    hide LogsRight, OneEntryPerNode, Valid, Image, InnerAfter, LeafHistory;
    var s', id, e := Next(s, Advance(t), fe), s.work[t].id, s.work[t].rest[0];
    var h := s.innerHist[id];
    ChangedWork(s, s', t, s'.work[t]);
    assert InnerHistory(s, id, fe);
    var all := h + s.work[t].rest;
    assert InnerShape(all, fe) && all[|h|] == e;
    assert s'.innerHist[id] == h + [e] && h + [e] + s.work[t].rest[1..] == all;
    forall u | u in s'.work && s'.work[u].OnInner? && s'.work[u].id == id
      ensures s'.innerHist[id] + s'.work[u].rest == all
    {
      assert WorksOn(s', u, id, false);
    }
  }

  /** One event of an operation on an internode. */
  lemma InnerEventKeepsInv(s: System, t: Thread, fe: nat)
    requires Inv(s, fe) && CanStep(s, Advance(t))
    requires s.work[t].OnInner? && s.work[t].rest != []
    ensures Inv(Next(s, Advance(t), fe), fe)
  {
    hide LogsRight, OneEntryPerNode, Valid, Image, InnerAfter, LeafHistory, InnerHistory;
    var s', id, e := Next(s, Advance(t), fe), s.work[t].id, s.work[t].rest[0];
    var start, h := s.inners[id], s.innerHist[id];
    InnerEventHistory(s, t, fe);
    ChangedWork(s, s', t, s'.work[t]);
    EmptyInner(start);
    assert s' == s.(work := s'.work, innerHist := s.innerHist[id := h + [e]], logs := s'.logs);
    assert s'.logs == if e == InnerRecord then s.logs[t := s.logs[t] + [InnerEntry(id, InnerAfter(start, h))]] else s.logs;
    hide Next, SameWorkOn, Exclusive;
    forall x | x in s'.leaves
      ensures LeafHistory(s', x, fe)
    {
      LeafFrame(s, s', x, fe);
    }
    forall x | x in s'.inners
      ensures InnerHistory(s', x, fe)
    {
      if x != id {
        InnerFrame(s, s', x, fe);
      }
    }
    if e == InnerRecord {
      AppendedEntry(s, s', t, InnerEntry(id, start));
    } else {
      SameLogs(s, s');
    }
  }

  lemma StepKeepsInv(s: System, step: Step, fe: nat)
    requires Inv(s, fe) && CanStep(s, step)
    ensures Inv(Next(s, step, fe), fe)
  {
    hide Inv, Next;
    match step
    case BeginLeaf(t, id, op) => BeginLeafKeepsInv(s, t, id, op, fe);
    case BeginInner(t, id, stores) => BeginInnerKeepsInv(s, t, id, stores, fe);
    case Advance(t) =>
      if s.work[t].OnLeaf? && s.work[t].todo != [] {
        LeafEventKeepsInv(s, t, fe);
      } else if s.work[t].OnInner? && s.work[t].rest != [] {
        InnerEventKeepsInv(s, t, fe);
      } else {
        ReleaseKeepsInv(s, t, fe);
      }
  }

  lemma {:induction false} RunKeepsInv(s: System, steps: seq<Step>, fe: nat)
    requires Inv(s, fe) && AllowedRun(s, steps, fe)
    ensures Inv(RunSteps(s, steps, fe), fe)
    ensures RunSteps(s, steps, fe).leaves == s.leaves && RunSteps(s, steps, fe).inners == s.inners
    decreases |steps|
  {
    hide Inv;
    if steps != [] {
      StepKeepsInv(s, steps[0], fe);
      RunKeepsInv(Next(s, steps[0], fe), steps[1..], fe);
    }
  }

  // ----- what an operation leaves when no crash cuts it

  /** Thread `t` is at work on a node; when it is done the node's history is `whole`. */
  ghost predicate LeafDoing(s: System, t: Thread, id: Id, whole: seq<Event>) {
    && t in s.work && s.work[t].OnLeaf? && s.work[t].id == id && id in s.hist
    && s.hist[id] + s.work[t].todo == whole
  }

  ghost predicate InnerDoing(s: System, t: Thread, id: Id, whole: seq<InnerEvent>) {
    && t in s.work && s.work[t].OnInner? && s.work[t].id == id && id in s.innerHist
    && s.innerHist[id] + s.work[t].rest == whole
  }

  /** The thread lets the node go in this step. */
  predicate Releases(s: System, t: Thread, step: Step) {
    step == Advance(t) && t in s.work && (if s.work[t].OnLeaf? then s.work[t].todo == [] else s.work[t].rest == [])
  }

  lemma LeafDoingStep(s: System, step: Step, t: Thread, id: Id, whole: seq<Event>, fe: nat)
    requires Exclusive(s) && CanStep(s, step) && LeafDoing(s, t, id, whole) && !Releases(s, t, step)
    ensures LeafDoing(Next(s, step, fe), t, id, whole)
  {
    assert Held(s, id, true);
    hide OpEvents, InnerOpEvents;
    if step == Advance(t) {
      HeadMoves(s.hist[id], s.work[t].todo);
    }
  }

  lemma InnerDoingStep(s: System, step: Step, t: Thread, id: Id, whole: seq<InnerEvent>, fe: nat)
    requires Exclusive(s) && CanStep(s, step) && InnerDoing(s, t, id, whole) && !Releases(s, t, step)
    ensures InnerDoing(Next(s, step, fe), t, id, whole)
  {
    assert Held(s, id, false);
    hide OpEvents, InnerOpEvents;
    if step == Advance(t) {
      HeadMoves(s.innerHist[id], s.work[t].rest);
    }
  }

  /** The thread keeps its node in these steps. */
  ghost predicate NotReleased(s: System, steps: seq<Step>, t: Thread, fe: nat)
    requires AllowedRun(s, steps, fe)
    decreases |steps|
  {
    steps != [] ==> !Releases(s, t, steps[0]) && NotReleased(Next(s, steps[0], fe), steps[1..], t, fe)
  }

  lemma {:induction false} DoingRun(s: System, steps: seq<Step>, t: Thread, id: Id, leaf: bool, whole: seq<Event>, inner: seq<InnerEvent>, fe: nat)
    requires Inv(s, fe) && AllowedRun(s, steps, fe) && NotReleased(s, steps, t, fe)
    requires if leaf then LeafDoing(s, t, id, whole) else InnerDoing(s, t, id, inner)
    ensures
      var z := RunSteps(s, steps, fe);
      if leaf then LeafDoing(z, t, id, whole) else InnerDoing(z, t, id, inner)
    decreases |steps|
  {
    hide LeafDoing, InnerDoing, Next, CanStep;
    if steps != [] {
      StepKeepsInv(s, steps[0], fe);
      InvExclusive(s, fe);
      if leaf {
        LeafDoingStep(s, steps[0], t, id, whole, fe);
      } else {
        InnerDoingStep(s, steps[0], t, id, inner, fe);
      }
      hide Inv;
      DoingRun(Next(s, steps[0], fe), steps[1..], t, id, leaf, whole, inner, fe);
    }
  }

  lemma InvExclusive(s: System, fe: nat)
    requires Inv(s, fe)
    ensures Exclusive(s)
  {
  }

  lemma LeafBegins(s: System, t: Thread, id: Id, op: Op, fe: nat)
    requires Inv(s, fe) && CanStep(s, BeginLeaf(t, id, op))
    ensures id in s.leaves && id in s.hist
    ensures
      var was, r := After(s.leaves[id], s.hist[id]), Next(s, BeginLeaf(t, id, op), fe);
      Enabled(was, op) && Inv(r, fe) && r.leaves == s.leaves && LeafDoing(r, t, id, s.hist[id] + OpEvents(was, op, fe))
  {
    hide OpEvents, Enabled, LeafHistory, InnerHistory, Valid, Older, LogsRight, OneEntryPerNode, After;
    StepKeepsInv(s, BeginLeaf(t, id, op), fe);
  }

  lemma LeafEnds(s: System, t: Thread, id: Id, whole: seq<Event>)
    requires LeafDoing(s, t, id, whole) && Releases(s, t, Advance(t))
    ensures id in s.hist && s.hist[id] == whole
  {
    assert s.hist[id] + [] == s.hist[id];
  }

  /** A leaf when the thread lets it go, whatever the others did meanwhile: the operation has been done to the leaf as
      the thread took it. */
  lemma LeafOperationDone(s: System, t: Thread, id: Id, op: Op, steps: seq<Step>, fe: nat)
    requires Inv(s, fe) && CanStep(s, BeginLeaf(t, id, op))
    requires AllowedRun(Next(s, BeginLeaf(t, id, op), fe), steps, fe) && NotReleased(Next(s, BeginLeaf(t, id, op), fe), steps, t, fe)
    requires Releases(RunSteps(Next(s, BeginLeaf(t, id, op), fe), steps, fe), t, Advance(t))
    ensures
      var z := RunSteps(Next(s, BeginLeaf(t, id, op), fe), steps, fe);
      && id in s.leaves && id in s.hist && id in z.hist && z.leaves == s.leaves
      && var was := After(s.leaves[id], s.hist[id]);
      && Enabled(was, op) && After(z.leaves[id], z.hist[id]) == After(was, OpEvents(was, op, fe))
  {
    hide OpEvents, Inv, After, LeafDoing, Releases, NotReleased, RunSteps, AllowedRun, Next, CanStep;
    LeafBegins(s, t, id, op, fe);
    var r := Next(s, BeginLeaf(t, id, op), fe);
    var was := After(s.leaves[id], s.hist[id]);
    var whole := s.hist[id] + OpEvents(was, op, fe);
    DoingRun(r, steps, t, id, true, whole, [], fe);
    RunKeepsInv(r, steps, fe);
    LeafEnds(RunSteps(r, steps, fe), t, id, whole);
    AfterConcat(s.leaves[id], s.hist[id], OpEvents(was, op, fe));
  }

  /** The last store to each place counts. */
  ghost predicate StoredInto(was: seq<nat>, stores: seq<InnerEvent>, after: seq<nat>) {
    && |after| == |was|
    && (forall i :: 0 <= i < |was| && (forall k :: 0 <= k < |stores| && stores[k].InnerStore? ==> stores[k].i != i) ==> after[i] == was[i])
    && (forall k :: 0 <= k < |stores| && stores[k].InnerStore? && stores[k].i < |was|
          && (forall m :: k < m < |stores| && stores[m].InnerStore? ==> stores[m].i != stores[k].i)
          ==> after[stores[k].i] == stores[k].v)
  }

  lemma {:induction false} InnerStores(s: Inner, stores: seq<InnerEvent>)
    requires forall i :: 0 <= i < |stores| ==> stores[i].InnerStore?
    ensures
      var v := InnerAfter(s, stores);
      v.loggedEpoch == s.loggedEpoch && StoredInto(s.body, stores, v.body)
    decreases |stores|
  {
    if stores != [] {
      var init, last := stores[..|stores| - 1], stores[|stores| - 1];
      InnerStores(s, init);
      var v := InnerAfter(s, init);
      assert stores == init + [last];
      assert forall k :: 0 <= k < |init| ==> stores[k] == init[k];
      assert InnerAfter(s, stores) == InnerApply(v, last);
    }
  }

  lemma {:induction false} InnerConcat(s: Inner, a: seq<InnerEvent>, b: seq<InnerEvent>)
    ensures InnerAfter(s, a + b) == InnerAfter(InnerAfter(s, a), b)
    decreases |b|
  {
    if b == [] {
      assert a + b == a;
    } else {
      var init := b[..|b| - 1];
      InnerConcat(s, a, init);
      assert (a + b)[..|a + b| - 1] == a + init;
    }
  }

  lemma InnerOperationLeaves(s: Inner, stores: seq<InnerEvent>, ge: nat)
    requires forall i :: 0 <= i < |stores| ==> stores[i].InnerStore?
    ensures
      var v := InnerAfter(s, InnerOpEvents(s, stores, ge));
      v.loggedEpoch == ge && StoredInto(s.body, stores, v.body)
  {
    var pro := if s.loggedEpoch != ge then [InnerRecord, InnerEpoch(ge)] else [];
    InnerConcat(s, pro, stores);
    if pro != [] {
      assert pro[..1] == [InnerRecord] && [InnerRecord][..0] == [];
      assert InnerAfter(s, [InnerRecord]) == s;
    }
    assert InnerAfter(s, pro) == s.(loggedEpoch := ge);
    InnerStores(InnerAfter(s, pro), stores);
  }

  lemma InnerBegins(s: System, t: Thread, id: Id, stores: seq<InnerEvent>, fe: nat)
    requires Inv(s, fe) && CanStep(s, BeginInner(t, id, stores))
    ensures id in s.inners && id in s.innerHist && forall i :: 0 <= i < |stores| ==> stores[i].InnerStore?
    ensures
      var was, r := InnerAfter(s.inners[id], s.innerHist[id]), Next(s, BeginInner(t, id, stores), fe);
      Inv(r, fe) && r.inners == s.inners && InnerDoing(r, t, id, s.innerHist[id] + InnerOpEvents(was, stores, fe))
  {
    hide InnerOpEvents, LeafHistory, InnerHistory, Valid, Older, LogsRight, OneEntryPerNode, InnerAfter;
    StepKeepsInv(s, BeginInner(t, id, stores), fe);
  }

  lemma InnerEnds(s: System, t: Thread, id: Id, whole: seq<InnerEvent>)
    requires InnerDoing(s, t, id, whole) && Releases(s, t, Advance(t))
    ensures id in s.innerHist && s.innerHist[id] == whole
  {
    assert s.innerHist[id] + [] == s.innerHist[id];
  }

  /** An internode when the thread lets it go: its stores have been made to the internode as the thread took it. */
  lemma InnerOperationDone(s: System, t: Thread, id: Id, stores: seq<InnerEvent>, steps: seq<Step>, fe: nat)
    requires Inv(s, fe) && CanStep(s, BeginInner(t, id, stores))
    requires AllowedRun(Next(s, BeginInner(t, id, stores), fe), steps, fe)
    requires NotReleased(Next(s, BeginInner(t, id, stores), fe), steps, t, fe)
    requires Releases(RunSteps(Next(s, BeginInner(t, id, stores), fe), steps, fe), t, Advance(t))
    ensures
      var z := RunSteps(Next(s, BeginInner(t, id, stores), fe), steps, fe);
      && id in s.inners && id in s.innerHist && id in z.innerHist && z.inners == s.inners
      && var was, now := InnerAfter(s.inners[id], s.innerHist[id]), InnerAfter(z.inners[id], z.innerHist[id]);
      now.loggedEpoch == fe && StoredInto(was.body, stores, now.body)
  {
    hide InnerOpEvents, Inv, InnerAfter, StoredInto, InnerDoing, Releases, NotReleased, RunSteps, AllowedRun, Next, CanStep;
    InnerBegins(s, t, id, stores, fe);
    var r := Next(s, BeginInner(t, id, stores), fe);
    var was := InnerAfter(s.inners[id], s.innerHist[id]);
    var whole := s.innerHist[id] + InnerOpEvents(was, stores, fe);
    DoingRun(r, steps, t, id, false, [], whole, fe);
    RunKeepsInv(r, steps, fe);
    InnerEnds(RunSteps(r, steps, fe), t, id, whole);
    InnerConcat(s.inners[id], s.innerHist[id], InnerOpEvents(was, stores, fe));
    InnerOperationLeaves(was, stores, fe);
  }

  function ToDo(w: Work): nat { if w.OnLeaf? then |w.todo| else |w.rest| }

  lemma AdvanceGoesOn(s: System, t: Thread, fe: nat)
    requires CanStep(s, Advance(t)) && ToDo(s.work[t]) > 0
    ensures
      var z := Next(s, Advance(t), fe);
      CanStep(z, Advance(t)) && ToDo(z.work[t]) == ToDo(s.work[t]) - 1
  {
  }

  lemma {:induction false} WorkEnds(s: System, t: Thread, fe: nat) returns (steps: seq<Step>)
    requires CanStep(s, Advance(t))
    ensures AllowedRun(s, steps, fe) && NotReleased(s, steps, t, fe) && Releases(RunSteps(s, steps, fe), t, Advance(t))
    decreases ToDo(s.work[t])
  {
    if ToDo(s.work[t]) == 0 {
      steps := [];
    } else {
      AdvanceGoesOn(s, t, fe);
      hide Next;
      var rest := WorkEnds(Next(s, Advance(t), fe), t, fe);
      steps := [Advance(t)] + rest;
      assert steps[1..] == rest;
    }
  }

  /** Locks are never in the way of a thread that has its node: every operation that begins can come to its end. */
  lemma OperationCanEnd(s: System, begin: Step, fe: nat)
    requires CanStep(s, begin) && !begin.Advance?
    ensures exists steps ::
      var r := Next(s, begin, fe);
      && AllowedRun(r, steps, fe) && NotReleased(r, steps, begin.t, fe)
      && Releases(RunSteps(r, steps, fe), begin.t, Advance(begin.t))
  {
    hide OpEvents, InnerOpEvents;
    var r := Next(s, begin, fe);
    assert CanStep(r, Advance(begin.t));
    hide AllowedRun, NotReleased, Releases, RunSteps, Next, CanStep;
    var steps := WorkEnds(r, begin.t, fe);
  }

  // ----- replay

  lemma {:induction false} ReplayLeaf(m: Memory, entries: seq<Entry>, id: Id, image: seq<LeafState>)
    requires |image| <= 1 && id in m.leaves
    requires forall e :: e in entries && e.LeafEntry? && e.id == id ==> image == [e.leaf]
    ensures id in Replay(m, entries).leaves
    ensures Replay(m, entries).leaves[id] ==
      if exists e :: e in entries && e.LeafEntry? && e.id == id then image[0] else m.leaves[id]
  {
    if entries != [] {
      var init := entries[..|entries| - 1];
      assert forall e :: e in entries <==> e in init || e == entries[|entries| - 1];
      ReplayLeaf(m, init, id, image);
    }
  }

  lemma {:induction false} ReplayInner(m: Memory, entries: seq<Entry>, id: Id, image: Inner)
    requires id in m.inners
    requires forall e :: e in entries && e.InnerEntry? && e.id == id ==> image == e.inner
    ensures id in Replay(m, entries).inners
    ensures Replay(m, entries).inners[id] ==
      if exists e :: e in entries && e.InnerEntry? && e.id == id then image else m.inners[id]
  {
    if entries != [] {
      var init := entries[..|entries| - 1];
      assert forall e :: e in entries <==> e in init || e == entries[|entries| - 1];
      ReplayInner(m, init, id, image);
    }
  }

  // ----- the main theorem

  lemma CrashCaseOf(s: System, cuts: map<Id, Cut>, m: Memory, id: Id, fe: nat)
    requires Inv(s, fe) && id in s.leaves && CrashMemory(s, cuts, m)
    ensures CrashCase(s.leaves[id], s.ops[id], |s.hist[id]|, cuts[id], fe)
    ensures RunEvents(s.leaves[id], s.ops[id], fe)[..|s.hist[id]|] == s.hist[id]
  {
    hide RunEvents, CanRun, Image, LogsRight, OneEntryPerNode, Kept, Valid, Older, LeafHistory, InnerHistory, Exclusive;
    LeafPrefix(s, id, fe);
  }

  /** A leaf after replay and undo is what LeafRecovery recovers from the leaf's own events. */
  lemma LeafRestored(s: System, cuts: map<Id, Cut>, m: Memory, order: seq<Entry>, id: Id, fe: nat, ge: nat)
    requires Inv(s, fe) && fe < ge && id in s.leaves && Ready(s.leaves[id], fe)
    requires CrashMemory(s, cuts, m) && AllEntries(s, order)
    ensures
      var r := Replay(m, order);
      && id in r.leaves && Valid(Undo(r.leaves[id], fe, ge))
      && Restored(Undo(r.leaves[id], fe, ge), s.leaves[id])
  {
    hide RunEvents, CanRun, Image, Undo, Kept, Ready, Older, Restored, LogsRight, OneEntryPerNode, Valid,
         LeafHistory, InnerHistory, Exclusive, AllEntries, Replay, CrashCase;
    var start, h := s.leaves[id], s.hist[id];
    CrashCaseOf(s, cuts, m, id, fe);
    CrashRestoresEpochStart(start, s.ops[id], |h|, cuts[id], fe, ge);
    EntriesOf(s, order, id);
    ReplayLeaf(m, order, id, Image(start, h));
  }

  lemma LeafPrefix(s: System, id: Id, fe: nat)
    requires Inv(s, fe) && id in s.leaves
    ensures CanRun(s.leaves[id], s.ops[id], fe) && s.hist[id] <= RunEvents(s.leaves[id], s.ops[id], fe)
  {
    hide RunEvents, CanRun, LogsRight, OneEntryPerNode;
    assert LeafHistory(s, id, fe);
    if Held(s, id, true) {
      var t :| t in s.work && s.work[t].id == id && s.work[t].OnLeaf?;
      assert s.hist[id] + s.work[t].todo == RunEvents(s.leaves[id], s.ops[id], fe);
    }
  }

  /** The entries for a leaf, in whatever order, all hold its image; there is one if and only
      if there is an image. */
  lemma EntriesOf(s: System, order: seq<Entry>, id: Id)
    requires WellFormed(s) && LogsRight(s) && AllEntries(s, order) && id in s.leaves
    ensures forall e :: e in order && e.LeafEntry? && e.id == id ==> Image(s.leaves[id], s.hist[id]) == [e.leaf]
    ensures Image(s.leaves[id], s.hist[id]) != [] <==> exists e :: e in order && e.LeafEntry? && e.id == id
  {
    hide Image;
    forall e | e in order
      ensures exists t, i :: EntryAt(s, t, i, e)
    {
      var t :| t in s.logs && e in s.logs[t];
      var i :| 0 <= i < |s.logs[t]| && s.logs[t][i] == e;
      assert EntryAt(s, t, i, e);
    }
    if Image(s.leaves[id], s.hist[id]) != [] {
      var t, i, e :| EntryAt(s, t, i, e) && e.LeafEntry? && e.id == id;
      assert e in s.logs[t] && e in order;
    }
  }

  lemma InnerRestored(s: System, cuts: map<Id, Cut>, m: Memory, order: seq<Entry>, id: Id, fe: nat)
    requires Inv(s, fe) && id in s.inners && CrashMemory(s, cuts, m) && AllEntries(s, order)
    ensures id in Replay(m, order).inners && Replay(m, order).inners[id] == s.inners[id]
  {
    hide Image, LeafHistory, InnerHistory, Valid, Kept;
    forall e | e in order && e.InnerEntry? && e.id == id
      ensures e.inner == s.inners[id]
    {
      var t :| t in s.logs && e in s.logs[t];
      var i :| 0 <= i < |s.logs[t]| && s.logs[t][i] == e;
      assert EntryAt(s, t, i, e) && RightEntry(s, e);
    }
    ReplayInner(m, order, id, s.inners[id]);
    if s.innerHist[id] != [] {
      var t, i, e :| EntryAt(s, t, i, e) && e.InnerEntry? && e.id == id;
      assert e in s.logs[t] && e in order;
    }
  }

  /** Over all runs of an epoch, with any interleaving of threads and a crash at any event:
      replaying all the logs in any order and undoing the slots restores every node of the
      checkpoint, and no node is logged twice. */
  lemma CrashRestoresCheckpoint(s0: System, steps: seq<Step>, cuts: map<Id, Cut>, m: Memory, order: seq<Entry>, fe: nat, ge: nat)
    requires AtCheckpoint(s0, fe) && AllowedRun(s0, steps, fe) && fe < ge
    requires forall id :: id in s0.leaves ==> Ready(s0.leaves[id], fe)
    requires CrashMemory(RunSteps(s0, steps, fe), cuts, m) && AllEntries(RunSteps(s0, steps, fe), order)
    ensures TreeRestored(s0, Replay(m, order), fe, ge)
    ensures OneEntryPerNode(RunSteps(s0, steps, fe))
  {
    hide Ready, LogsRight, LeafHistory, InnerHistory, Valid, Undo, Restored, CrashMemory, AllEntries, AllowedRun, RunSteps;
    CheckpointInv(s0, fe);
    RunKeepsInv(s0, steps, fe);
    var s := RunSteps(s0, steps, fe);
    forall id | id in s0.leaves
      ensures
        var r := Replay(m, order);
        id in r.leaves && Valid(Undo(r.leaves[id], fe, ge)) && Restored(Undo(r.leaves[id], fe, ge), s0.leaves[id])
    {
      LeafRestored(s, cuts, m, order, id, fe, ge);
    }
    forall id | id in s0.inners
      ensures id in Replay(m, order).inners && Replay(m, order).inners[id] == s0.inners[id]
    {
      InnerRestored(s, cuts, m, order, id, fe);
    }
  }
}
