/** Epoch-based reclamation: kvthread.hh (rcu_start, rcu_stop, record_rcu, min_active_epoch),
  kvthread.cc (hard_rcu_quiesce) and mtd.cc (epochinc), one shared access at a time.

  A block is unlinked from the tree, stamped with the global epoch and put in its thread's
  limbo; it returns to the pool when its stamp is below the active epoch. */
module Reclamation {

  type Thread = nat
  type Block = nat

  /** A retired block, its stamp, and (history) when it was unlinked. */
  datatype Retired = Retired(block: Block, stamp: nat, unlinkedAt: nat)

  /** `Entering` has read the global epoch and not yet stored it.  `Retiring` has unlinked a
      block and not yet stamped it.  `Collecting` has read the active epoch and is freeing the
      front of its limbo. */
  datatype Pc = Idle | Entering(epoch: nat) | Retiring(block: Block, unlinkedAt: nat) | Collecting(bound: int)

  /** `gc` is `gc_epoch_`, 0 outside critical sections.  `entry` and `enteredAt` are history:
      the global epoch and the moment when `gc` was last stored. */
  datatype Local = Local(gc: nat, pc: Pc, limbo: seq<Retired>, entry: nat, enteredAt: nat)

  datatype Scan = NoScan | Scanning(least: nat, rest: set<Thread>)

  /** `now` is a history clock that every step moves. */
  datatype State = State(global: nat, active: nat, scan: Scan, threads: map<Thread, Local>, now: nat)

  datatype Step =
    | Advance(amount: nat)                   // the global epoch grows
    | ScanStart                              // min_active_epoch: read the global epoch,
    | ScanOne(t: Thread)                     //   look at one thread,
    | ScanEnd                                //   and publish the minimum
    | ReadEpoch(t: Thread)                   // rcu_start: read the global epoch,
    | StoreEpoch(t: Thread)                  //   then store it
    | Unlink(t: Thread, b: Block)            // take a block out of the tree,
    | Stamp(t: Thread)                       //   then record_rcu it
    | ReadActive(t: Thread)                  // hard_rcu_quiesce: read the active epoch,
    | Free(t: Thread)                        //   free the oldest block,
    | EndCollect(t: Thread)                  //   and stop
    | Leave(t: Thread)                       // rcu_stop

  predicate CanStep(s: State, step: Step) {
    match step
    case Advance(amount) => amount > 0
    case ScanStart => s.scan.NoScan?
    case ScanOne(t) => s.scan.Scanning? && t in s.scan.rest && t in s.threads
    case ScanEnd => s.scan.Scanning? && s.scan.rest == {}
    case ReadEpoch(t) => t in s.threads && s.threads[t].pc.Idle?
    case StoreEpoch(t) => t in s.threads && s.threads[t].pc.Entering?
    case Unlink(t, _) => t in s.threads && s.threads[t].pc.Idle? && s.threads[t].gc != 0
    case Stamp(t) => t in s.threads && s.threads[t].pc.Retiring?
    case ReadActive(t) => t in s.threads && s.threads[t].pc.Idle? && s.threads[t].gc != 0
    case Free(t) =>
      && t in s.threads && s.threads[t].pc.Collecting?
      && s.threads[t].limbo != [] && s.threads[t].limbo[0].stamp <= s.threads[t].pc.bound
    case EndCollect(t) => t in s.threads && s.threads[t].pc.Collecting?
    case Leave(t) => t in s.threads && s.threads[t].pc.Idle? && s.threads[t].gc != 0
  }

  /** What a step does to the thread that makes it. */
  function Act(s: State, l: Local, step: Step): Local {
    match step
    case ReadEpoch(_) => l.(pc := Entering(s.global))
    case StoreEpoch(_) =>
      if l.pc.Entering? then l.(gc := l.pc.epoch, pc := Idle, entry := s.global, enteredAt := s.now) else l
    case Unlink(_, b) => l.(pc := Retiring(b, s.now))
    case Stamp(_) =>
      if l.pc.Retiring? then l.(limbo := l.limbo + [Retired(l.pc.block, s.global, l.pc.unlinkedAt)], pc := Idle) else l
    case ReadActive(_) => l.(pc := Collecting(s.active - 1))
    case Free(_) => if l.limbo != [] then l.(limbo := l.limbo[1..]) else l
    case EndCollect(_) => l.(pc := Idle)
    case Leave(_) => l.(gc := 0)
    case _ => l
  }

  function Next(s: State, step: Step): State
    requires CanStep(s, step)
  {
    match step
    case Advance(amount) => s.(global := s.global + amount, now := s.now + 1)
    case ScanStart => s.(scan := Scanning(s.global, s.threads.Keys), now := s.now + 1)
    case ScanOne(t) =>
      var te := s.threads[t].gc;
      s.(scan := Scanning(if te != 0 && te < s.scan.least then te else s.scan.least, s.scan.rest - {t}), now := s.now + 1)
    case ScanEnd => s.(active := s.scan.least, scan := NoScan, now := s.now + 1)
    case _ => s.(threads := s.threads[step.t := Act(s, s.threads[step.t], step)], now := s.now + 1)
  }

  // ----- the invariant

  /** One thread's epochs.  The active epoch is not above the epoch at which a thread inside
      entered, although it may be above the thread's own `gc`. */
  ghost predicate ThreadOk(s: State, t: Thread, l: Local) {
    && (l.pc.Entering? ==> 1 <= l.pc.epoch <= s.global)
    && (l.gc != 0 ==> l.gc <= l.entry <= s.global && s.active <= l.entry && l.enteredAt < s.now)
    && (l.gc != 0 && s.scan.Scanning? && t !in s.scan.rest ==> s.scan.least <= l.entry)
    && (l.pc.Retiring? ==> l.pc.unlinkedAt < s.now)
    && (forall r :: r in l.limbo ==> r.unlinkedAt < s.now)
  }

  /** `u` was inside its critical section when `r` was unlinked, and still is. */
  predicate Protects(u: Local, unlinkedAt: nat) {
    u.gc != 0 && u.enteredAt <= unlinkedAt
  }

  /** Between the thread `l` with its retired blocks and a thread `u` that may use them. */
  ghost predicate PairOk(l: Local, u: Local) {
    forall r :: r in l.limbo && Protects(u, r.unlinkedAt) ==>
      u.entry <= r.stamp && (l.pc.Collecting? ==> l.pc.bound < u.entry)
  }

  ghost predicate Inv(s: State) {
    && 1 <= s.global && s.active <= s.global
    && (s.scan.Scanning? ==> s.scan.least <= s.global && s.scan.rest <= s.threads.Keys)
    && (forall t :: t in s.threads ==> ThreadOk(s, t, s.threads[t]))
    && (forall t, u :: t in s.threads && u in s.threads ==> PairOk(s.threads[t], s.threads[u]))
  }

  lemma ThreadStep(s: State, step: Step, x: Thread)
    requires Inv(s) && CanStep(s, step) && x in s.threads
    ensures ThreadOk(Next(s, step), x, Next(s, step).threads[x])
  {
    assert ThreadOk(s, x, s.threads[x]);
  }

  predicate ByThread(step: Step) { !step.Advance? && !step.ScanStart? && !step.ScanOne? && !step.ScanEnd? }

  /** The thread with the retired blocks moves. */
  lemma PairOwner(s: State, step: Step, x: Thread, y: Thread)
    requires Inv(s) && CanStep(s, step) && ByThread(step) && x == step.t && y in s.threads && y != x
    ensures PairOk(Act(s, s.threads[x], step), s.threads[y])
  {
    assert PairOk(s.threads[x], s.threads[y]) && ThreadOk(s, y, s.threads[y]);
    hide Inv;
  }

  /** The thread that may use them moves. */
  lemma PairUser(s: State, step: Step, x: Thread, y: Thread)
    requires Inv(s) && CanStep(s, step) && ByThread(step) && y == step.t && x in s.threads && y != x
    ensures PairOk(s.threads[x], Act(s, s.threads[y], step))
  {
    assert PairOk(s.threads[x], s.threads[y]) && ThreadOk(s, x, s.threads[x]);
    hide Inv;
  }

  lemma PairSelf(s: State, step: Step, x: Thread)
    requires Inv(s) && CanStep(s, step) && ByThread(step) && x == step.t
    ensures PairOk(Act(s, s.threads[x], step), Act(s, s.threads[x], step))
  {
    assert PairOk(s.threads[x], s.threads[x]) && ThreadOk(s, x, s.threads[x]);
    hide Inv;
  }

  lemma PairStep(s: State, step: Step, x: Thread, y: Thread)
    requires Inv(s) && CanStep(s, step) && x in s.threads && y in s.threads
    ensures PairOk(Next(s, step).threads[x], Next(s, step).threads[y])
  {
    assert PairOk(s.threads[x], s.threads[y]);
    hide Inv, PairOk, Act;
    if ByThread(step) {
      if x == step.t && y == step.t {
        PairSelf(s, step, x);
      } else if x == step.t {
        PairOwner(s, step, x, y);
      } else if y == step.t {
        PairUser(s, step, x, y);
      }
    }
  }

  lemma StepKeepsInv(s: State, step: Step)
    requires Inv(s) && CanStep(s, step)
    ensures Inv(Next(s, step))
  {
    var s' := Next(s, step);
    forall t | t in s'.threads
      ensures ThreadOk(s', t, s'.threads[t])
    {
      ThreadStep(s, step, t);
    }
    forall t, u | t in s'.threads && u in s'.threads
      ensures PairOk(s'.threads[t], s'.threads[u])
    {
      PairStep(s, step, t, u);
    }
    hide ThreadOk, PairOk, Act;
  }

  // ----- runs

  ghost predicate AllowedRun(s: State, steps: seq<Step>)
    decreases |steps|
  {
    steps != [] ==> CanStep(s, steps[0]) && AllowedRun(Next(s, steps[0]), steps[1..])
  }

  ghost function Run(s: State, steps: seq<Step>): State
    requires AllowedRun(s, steps)
    decreases |steps|
  {
    if steps == [] then s else Run(Next(s, steps[0]), steps[1..])
  }

  predicate Initial(s: State) {
    && 1 <= s.global && s.active <= s.global && s.scan.NoScan?
    && forall t :: t in s.threads ==> s.threads[t] == Local(0, Idle, [], 0, 0)
  }

  lemma {:induction false} RunKeepsInv(s: State, steps: seq<Step>)
    requires Inv(s) && AllowedRun(s, steps)
    ensures Inv(Run(s, steps))
    decreases |steps|
  {
    hide Inv;
    if steps != [] {
      StepKeepsInv(s, steps[0]);
      RunKeepsInv(Next(s, steps[0]), steps[1..]);
    }
  }

  /** In every run, a block is freed only when every thread inside a critical section entered
      it after the block was unlinked.  Neither entering nor scanning need be atomic. */
  lemma FreedBlockIsUnused(s0: State, steps: seq<Step>, t: Thread)
    requires Initial(s0) && AllowedRun(s0, steps) && CanStep(Run(s0, steps), Free(t))
    ensures
      var s := Run(s0, steps);
      forall u :: u in s.threads && s.threads[u].gc != 0 ==> s.threads[u].enteredAt > s.threads[t].limbo[0].unlinkedAt
  {
    RunKeepsInv(s0, steps);
    var s := Run(s0, steps);
    var r := s.threads[t].limbo[0];
    assert r in s.threads[t].limbo;
    forall u | u in s.threads && s.threads[u].gc != 0
      ensures s.threads[u].enteredAt > r.unlinkedAt
    {
      assert PairOk(s.threads[t], s.threads[u]);
    }
  }

  // ----- what a scan publishes

  /** The epochs that the scan reads in these steps: those of the threads inside when it looks at them. */
  ghost function EpochsRead(s: State, steps: seq<Step>): seq<nat>
    requires AllowedRun(s, steps)
    decreases |steps|
  {
    if steps == [] then []
    else
      (if steps[0].ScanOne? && s.threads[steps[0].t].gc != 0 then [s.threads[steps[0].t].gc] else [])
      + EpochsRead(Next(s, steps[0]), steps[1..])
  }

  /** The scan is not ended in these steps, so none begins either. */
  ghost predicate OneScan(steps: seq<Step>) { forall i :: 0 <= i < |steps| ==> !steps[i].ScanEnd? }

  lemma {:induction false} ScanKeepsLeast(s: State, steps: seq<Step>)
    requires s.scan.Scanning? && s.scan.rest <= s.threads.Keys && AllowedRun(s, steps) && OneScan(steps)
    ensures
      var z, read := Run(s, steps), EpochsRead(s, steps);
      && z.scan.Scanning? && z.threads.Keys == s.threads.Keys
      && (z.scan.least == s.scan.least || z.scan.least in read) && z.scan.least <= s.scan.least
      && (forall e :: e in read ==> z.scan.least <= e)
      && (forall t :: t in s.scan.rest ==> t in z.scan.rest || ScanOne(t) in steps)
    decreases |steps|
  {
    if steps != [] {
      var s' := Next(s, steps[0]);
      assert OneScan(steps[1..]) && !steps[0].ScanEnd?;
      assert s'.threads.Keys == s.threads.Keys;
      ScanKeepsLeast(s', steps[1..]);
      var head := if steps[0].ScanOne? && s.threads[steps[0].t].gc != 0 then [s.threads[steps[0].t].gc] else [];
      assert EpochsRead(s, steps) == head + EpochsRead(s', steps[1..]);
      var z, read := Run(s, steps), EpochsRead(s, steps);
      assert z == Run(s', steps[1..]);
      forall e | e in read
        ensures z.scan.least <= e
      {
        if e in head {
          assert e == s.threads[steps[0].t].gc && s'.scan.least <= e;
        } else {
          assert e in EpochsRead(s', steps[1..]);
        }
      }
      forall t | t in s.scan.rest && t !in Run(s, steps).scan.rest
        ensures ScanOne(t) in steps
      {
        assert t !in s'.scan.rest || ScanOne(t) in steps[1..];
      }
    }
  }

  /** A completed scan, whatever happens while it runs: it looks at every thread, and the active epoch becomes the
      least of the global epoch at its start and the epochs it read. */
  lemma ScanPublishesMinimum(s: State, steps: seq<Step>)
    requires CanStep(s, ScanStart) && AllowedRun(Next(s, ScanStart), steps) && OneScan(steps)
    requires CanStep(Run(Next(s, ScanStart), steps), ScanEnd)
    ensures
      var z, epochs := Next(Run(Next(s, ScanStart), steps), ScanEnd), [s.global] + EpochsRead(Next(s, ScanStart), steps);
      z.active in epochs && forall e :: e in epochs ==> z.active <= e
    ensures forall t :: t in s.threads ==> ScanOne(t) in steps
  {
    ScanKeepsLeast(Next(s, ScanStart), steps);
  }

  // ----- blocks come back

  /** `z` can be reached from `s`. */
  ghost predicate Reaches(s: State, z: State) { exists steps :: AllowedRun(s, steps) && Run(s, steps) == z }

  lemma ReachesSelf(s: State)
    ensures Reaches(s, s)
  {
    assert AllowedRun(s, []) && Run(s, []) == s;
  }

  lemma ReachesStep(s: State, step: Step, z: State)
    requires CanStep(s, step) && Reaches(Next(s, step), z)
    ensures Reaches(s, z)
  {
    hide Next, CanStep;
    var steps :| AllowedRun(Next(s, step), steps) && Run(Next(s, step), steps) == z;
    var all := [step] + steps;
    assert all[0] == step && all[1..] == steps;
    assert AllowedRun(s, all) && Run(s, all) == z;
  }

  lemma {:induction false} RunJoin(s: State, a: seq<Step>, b: seq<Step>)
    requires AllowedRun(s, a) && AllowedRun(Run(s, a), b)
    ensures AllowedRun(s, a + b) && Run(s, a + b) == Run(Run(s, a), b)
    decreases |a|
  {
    hide Next, CanStep;
    if a == [] {
      assert a + b == b;
    } else {
      assert (a + b)[0] == a[0] && (a + b)[1..] == a[1..] + b;
      RunJoin(Next(s, a[0]), a[1..], b);
    }
  }

  lemma ReachesJoin(s: State, y: State, z: State)
    requires Reaches(s, y) && Reaches(y, z)
    ensures Reaches(s, z)
  {
    var a :| AllowedRun(s, a) && Run(s, a) == y;
    var b :| AllowedRun(y, b) && Run(y, b) == z;
    RunJoin(s, a, b);
  }

  /** The rest of a scan, in one go. */
  lemma {:induction false} ScanRest(s: State, least: nat) returns (scans: seq<Step>, z: State)
    requires s.scan.Scanning? && s.scan.rest <= s.threads.Keys && least <= s.scan.least
    requires forall u :: u in s.scan.rest && s.threads[u].gc != 0 ==> least <= s.threads[u].gc
    ensures AllowedRun(s, scans) && Run(s, scans) == z && forall i :: 0 <= i < |scans| ==> scans[i].ScanOne?
    ensures z == s.(scan := z.scan, now := z.now) && z.scan.Scanning? && z.scan.rest == {} && least <= z.scan.least
    decreases |s.scan.rest|
  {
    if s.scan.rest == {} {
      scans, z := [], s;
    } else {
      var u := Pick(s.scan.rest);
      var s' := Next(s, ScanOne(u));
      assert |s'.scan.rest| < |s.scan.rest|;
      var more;
      more, z := ScanRest(s', least);
      scans := [ScanOne(u)] + more;
      assert scans[1..] == more;
    }
  }

  /** The oldest block of a thread inside, when no thread inside announces an epoch up to the block's stamp: one scan
      and one collection free it. */
  lemma OldBlockIsFreed(s: State, t: Thread) returns (scans: seq<Step>, z: State)
    requires Inv(s) && s.scan.NoScan? && t in s.threads && s.threads[t].pc.Idle? && s.threads[t].gc != 0
    requires s.threads[t].limbo != []
    requires forall u :: u in s.threads && s.threads[u].gc != 0 ==> s.threads[t].limbo[0].stamp < s.threads[u].gc
    ensures forall i :: 0 <= i < |scans| ==> scans[i].ScanOne?
    ensures
      var steps := [ScanStart] + scans + [ScanEnd, ReadActive(t), Free(t)];
      AllowedRun(s, steps) && Run(s, steps) == z
    ensures z.scan.NoScan? && z.global == s.global && z.threads.Keys == s.threads.Keys
    ensures z.threads[t] == s.threads[t].(limbo := s.threads[t].limbo[1..], pc := z.threads[t].pc) && z.threads[t].pc.Collecting?
    ensures forall u :: u in s.threads && u != t ==> z.threads[u] == s.threads[u]
  {
    var stamp := s.threads[t].limbo[0].stamp;
    assert ThreadOk(s, t, s.threads[t]);
    hide Inv;
    var a := Next(s, ScanStart);
    var b;
    scans, b := ScanRest(a, stamp + 1);
    var c := Next(b, ScanEnd);
    var d := Next(c, ReadActive(t));
    z := Next(d, Free(t));
    var steps := [ScanStart] + scans + [ScanEnd, ReadActive(t), Free(t)];
    hide AllowedRun, Run, Next, CanStep;
    RunThree(b, ScanEnd, ReadActive(t), Free(t), c, d, z);
    RunJoin(a, scans, [ScanEnd, ReadActive(t), Free(t)]);
    RunOn(s, ScanStart, scans + [ScanEnd, ReadActive(t), Free(t)]);
    assert [ScanStart] + (scans + [ScanEnd, ReadActive(t), Free(t)]) == steps;
  }

  lemma RunOn(s: State, step: Step, rest: seq<Step>)
    requires CanStep(s, step) && AllowedRun(Next(s, step), rest)
    ensures AllowedRun(s, [step] + rest) && Run(s, [step] + rest) == Run(Next(s, step), rest)
  {
    hide CanStep, Next;
    assert ([step] + rest)[1..] == rest;
  }

  lemma RunThree(s: State, x: Step, y: Step, w: Step, a: State, b: State, c: State)
    requires CanStep(s, x) && a == Next(s, x) && CanStep(a, y) && b == Next(a, y) && CanStep(b, w) && c == Next(b, w)
    ensures AllowedRun(s, [x, y, w]) && Run(s, [x, y, w]) == c
  {
    hide CanStep, Next;
    EmptyRun(c);
    RunOn(b, w, []);
    RunOn(a, y, [w]);
    RunOn(s, x, [y, w]);
    assert [w] + [] == [w] && [y] + [w] == [y, w] && [x] + [y, w] == [x, y, w];
  }

  /** A block's stamp is an epoch that has been. */
  ghost predicate StampsPast(s: State) {
    forall t, r :: t in s.threads && r in s.threads[t].limbo ==> r.stamp <= s.global
  }

  lemma StepKeepsStamps(s: State, step: Step)
    requires CanStep(s, step) && StampsPast(s)
    ensures StampsPast(Next(s, step))
  {
    var s' := Next(s, step);
    forall t, r | t in s'.threads && r in s'.threads[t].limbo
      ensures r.stamp <= s'.global
    {
      assert t in s.threads && (r in s.threads[t].limbo || (step == Stamp(t) && r.stamp == s.global));
    }
  }

  lemma {:induction false} RunKeepsStamps(s: State, steps: seq<Step>)
    requires AllowedRun(s, steps) && StampsPast(s)
    ensures StampsPast(Run(s, steps))
    decreases |steps|
  {
    hide StampsPast, Next, CanStep;
    if steps != [] {
      StepKeepsStamps(s, steps[0]);
      RunKeepsStamps(Next(s, steps[0]), steps[1..]);
    }
  }

  /** The scan that is running, if any, comes to its end. */
  lemma ScanEnds(s: State) returns (z: State)
    requires Inv(s)
    ensures Reaches(s, z) && z.scan.NoScan? && z.threads == s.threads && z.global == s.global
  {
    if s.scan.NoScan? {
      ReachesSelf(s);
      z := s;
    } else {
      hide Inv;
      var scans, y := ScanRest(s, 0);
      z := Next(y, ScanEnd);
      ReachesSelf(z);
      ReachesStep(y, ScanEnd, z);
      assert Reaches(s, y);
      ReachesJoin(s, y, z);
    }
  }

  /** A thread leaves, and finishes first what it is doing. */
  lemma {:induction false} ThreadLeaves(s: State, u: Thread) returns (z: State)
    requires s.scan.NoScan? && u in s.threads
    ensures Reaches(s, z) && z.scan.NoScan? && z.global == s.global && z.threads.Keys == s.threads.Keys
    ensures z.threads[u].gc == 0 && z.threads[u].pc.Idle? && forall t :: t in s.threads && t != u ==> z.threads[t] == s.threads[t]
    decreases Distance(s.threads[u])
  {
    if Distance(s.threads[u]) == 0 {
      ReachesSelf(s);
      z := s;
    } else {
      var step := WayOut(s.threads[u], u);
      WayOutIs(s, u);
      assert Next(s, step).global == s.global;
      z := ThreadLeaves(Next(s, step), u);
      ReachesStep(s, step, z);
    }
  }

  lemma {:induction false} AllLeave(s: State, us: set<Thread>) returns (z: State)
    requires s.scan.NoScan? && us <= s.threads.Keys
    ensures Reaches(s, z) && z.scan.NoScan? && z.global == s.global && z.threads.Keys == s.threads.Keys
    ensures forall u :: u in us ==> z.threads[u].gc == 0 && z.threads[u].pc.Idle?
    ensures forall t :: t in s.threads && t !in us ==> z.threads[t] == s.threads[t]
    decreases us
  {
    if us == {} {
      ReachesSelf(s);
      z := s;
    } else {
      var u := Pick(us);
      var y := ThreadLeaves(s, u);
      z := AllLeave(y, us - {u});
      ReachesJoin(s, y, z);
    }
  }

  lemma ReachesKeeps(s: State, z: State)
    requires Inv(s) && StampsPast(s) && Reaches(s, z)
    ensures Inv(z) && StampsPast(z)
  {
    var steps :| AllowedRun(s, steps) && Run(s, steps) == z;
    RunKeepsInv(s, steps);
    RunKeepsStamps(s, steps);
  }

  lemma OneFreed(s: State, t: Thread) returns (z: State)
    requires Inv(s) && s.scan.NoScan? && t in s.threads && s.threads[t].pc.Idle? && s.threads[t].gc != 0
    requires forall u :: u in s.threads && u != t ==> s.threads[u].gc == 0
    requires s.threads[t].limbo != [] && s.threads[t].limbo[0].stamp < s.threads[t].gc
    ensures Reaches(s, z) && Inv(z) && z.scan.NoScan? && z.threads.Keys == s.threads.Keys
    ensures z.threads[t] == s.threads[t].(limbo := s.threads[t].limbo[1..])
    ensures forall u :: u in s.threads && u != t ==> z.threads[u] == s.threads[u]
  {
    hide Inv, Reaches, AllowedRun, Run;
    var y := FreedOnce(s, t);
    StepKeepsInv(y, EndCollect(t));
    z := Next(y, EndCollect(t));
    ReachesSelf(z);
    ReachesStep(y, EndCollect(t), z);
    ReachesJoin(s, y, z);
  }

  lemma FreedOnce(s: State, t: Thread) returns (y: State)
    requires Inv(s) && s.scan.NoScan? && t in s.threads && s.threads[t].pc.Idle? && s.threads[t].gc != 0
    requires forall u :: u in s.threads && u != t ==> s.threads[u].gc == 0
    requires s.threads[t].limbo != [] && s.threads[t].limbo[0].stamp < s.threads[t].gc
    ensures Reaches(s, y) && Inv(y) && y.scan.NoScan? && y.threads.Keys == s.threads.Keys && y.threads[t].pc.Collecting?
    ensures y.threads[t] == s.threads[t].(limbo := s.threads[t].limbo[1..], pc := y.threads[t].pc)
    ensures forall u :: u in s.threads && u != t ==> y.threads[u] == s.threads[u]
  {
    hide Inv, AllowedRun, Run;
    var scans;
    scans, y := OldBlockIsFreed(s, t);
    var steps := [ScanStart] + scans + [ScanEnd, ReadActive(t), Free(t)];
    assert Reaches(s, y);
    RunKeepsInv(s, steps);
  }

  /** Alone inside, and in an epoch later than all its stamps, a thread frees its blocks one by one. */
  lemma {:induction false} LimboIsEmptied(s: State, t: Thread) returns (z: State)
    requires Inv(s) && s.scan.NoScan? && t in s.threads && s.threads[t].pc.Idle? && s.threads[t].gc != 0
    requires forall u :: u in s.threads && u != t ==> s.threads[u].gc == 0
    requires forall r :: r in s.threads[t].limbo ==> r.stamp < s.threads[t].gc
    ensures Reaches(s, z) && t in z.threads && z.threads[t].limbo == []
    decreases |s.threads[t].limbo|
  {
    if s.threads[t].limbo == [] {
      ReachesSelf(s);
      z := s;
    } else {
      hide Inv, AllowedRun, Run;
      var x := OneFreed(s, t);
      assert forall r :: r in x.threads[t].limbo ==> r in s.threads[t].limbo;
      z := LimboIsEmptied(x, t);
      ReachesJoin(s, x, z);
    }
  }

  /** A thread enters an epoch that has just begun. */
  lemma EntersNewEpoch(s: State, t: Thread) returns (z: State)
    requires t in s.threads && s.threads[t].pc.Idle? && s.threads[t].gc == 0
    ensures Reaches(s, z) && z.scan == s.scan && z.threads.Keys == s.threads.Keys
    ensures z.threads[t].gc == s.global + 1 && z.threads[t].pc.Idle? && z.threads[t].limbo == s.threads[t].limbo
    ensures forall u :: u in s.threads && u != t ==> z.threads[u] == s.threads[u]
  {
    var a := Next(s, Advance(1));
    var b := Next(a, ReadEpoch(t));
    z := Next(b, StoreEpoch(t));
    ReachesSelf(z);
    ReachesStep(b, StoreEpoch(t), z);
    ReachesStep(a, ReadEpoch(t), z);
    ReachesStep(s, Advance(1), z);
  }

  /** No block is stuck: from every reachable state a run leads to one in which the limbo of a thread is empty. */
  lemma EveryBlockCanBeFreed(s0: State, past: seq<Step>, t: Thread) returns (z: State)
    requires Initial(s0) && AllowedRun(s0, past) && t in s0.threads
    ensures Reaches(Run(s0, past), z) && t in z.threads && z.threads[t].limbo == []
  {
    RunKeepsInv(s0, past);
    RunKeepsStamps(s0, past);
    RunKeepsThreads(s0, past);
    var s := Run(s0, past);
    hide Inv, StampsPast;
    var a := ScanEnds(s);
    ReachesKeeps(s, a);
    var b := AllLeave(a, a.threads.Keys);
    ReachesKeeps(a, b);
    var c := EntersNewEpoch(b, t);
    ReachesKeeps(b, c);
    StampsOf(b, t);
    z := LimboIsEmptied(c, t);
    ReachesJoin(b, c, z);
    ReachesJoin(a, b, z);
    ReachesJoin(s, a, z);
  }

  lemma StampsOf(s: State, t: Thread)
    requires StampsPast(s) && t in s.threads
    ensures forall r :: r in s.threads[t].limbo ==> r.stamp <= s.global
  {
  }

  lemma {:induction false} RunKeepsThreads(s: State, steps: seq<Step>)
    requires AllowedRun(s, steps)
    ensures Run(s, steps).threads.Keys == s.threads.Keys
    decreases |steps|
  {
    if steps != [] {
      assert Next(s, steps[0]).threads.Keys == s.threads.Keys;
      RunKeepsThreads(Next(s, steps[0]), steps[1..]);
    }
  }

  // ----- the epoch a thread announces

  /** When `t` may store the epoch it has read: neither the active epoch nor a scan that has already looked
      at the thread is ahead of it. */
  predicate CleanStore(s: State, t: Thread)
    requires CanStep(s, StoreEpoch(t))
  {
    var e := s.threads[t].pc.epoch;
    s.active <= e && (s.scan.Scanning? && t !in s.scan.rest ==> s.scan.least <= e)
  }

  predicate Bounded(s: State, t: Thread) {
    t in s.threads && s.active <= s.threads[t].gc <= s.global
  }

  /** `t` stays in its critical section, with the epoch it has announced. */
  predicate Stays(t: Thread, step: Step) { step != StoreEpoch(t) && step != Leave(t) }

  ghost predicate AllStay(t: Thread, steps: seq<Step>) { forall i :: 0 <= i < |steps| ==> Stays(t, steps[i]) }

  /** The bound, with what a running scan has seen. */
  predicate Safe(s: State, t: Thread) {
    && t in s.threads && s.threads[t].gc != 0 && s.active <= s.threads[t].gc <= s.global
    && (s.scan.Scanning? && t !in s.scan.rest ==> s.scan.least <= s.threads[t].gc)
  }

  lemma StepKeepsSafe(s: State, t: Thread, step: Step)
    requires CanStep(s, step) && Stays(t, step) && Safe(s, t)
    ensures Safe(Next(s, step), t)
  {
  }

  lemma {:induction false} RunKeepsSafe(s: State, t: Thread, steps: seq<Step>)
    requires AllowedRun(s, steps) && AllStay(t, steps) && Safe(s, t)
    ensures Safe(Run(s, steps), t)
    decreases |steps|
  {
    if steps != [] {
      assert Stays(t, steps[0]) && AllStay(t, steps[1..]);
      StepKeepsSafe(s, t, steps[0]);
      hide Safe;
      RunKeepsSafe(Next(s, steps[0]), t, steps[1..]);
    }
  }

  /** `z` can be reached while `t` stays. */
  ghost predicate Leads(s: State, t: Thread, z: State) {
    exists steps :: AllowedRun(s, steps) && AllStay(t, steps) && Run(s, steps) == z
  }

  lemma LeadsSelf(s: State, t: Thread)
    ensures Leads(s, t, s)
  {
    assert AllowedRun(s, []) && AllStay(t, []) && Run(s, []) == s;
  }

  lemma LeadsStep(s: State, step: Step, t: Thread, z: State)
    requires CanStep(s, step) && Stays(t, step) && Leads(Next(s, step), t, z)
    ensures Leads(s, t, z)
  {
    var steps :| AllowedRun(Next(s, step), steps) && AllStay(t, steps) && Run(Next(s, step), steps) == z;
    var all := [step] + steps;
    assert all[0] == step && all[1..] == steps;
    assert AllowedRun(s, all) && Run(s, all) == z;
    assert AllStay(t, all);
  }

  /** How far a thread is from being outside. */
  function Distance(l: Local): nat { if l.pc.Idle? then if l.gc == 0 then 0 else 1 else 2 }

  /** The next step on a thread's way out. */
  function WayOut(l: Local, u: Thread): Step
    requires Distance(l) > 0
  {
    match l.pc
    case Idle => Leave(u)
    case Entering(_) => StoreEpoch(u)
    case Retiring(_, _) => Stamp(u)
    case Collecting(_) => EndCollect(u)
  }

  lemma WayOutIs(s: State, u: Thread)
    requires u in s.threads && Distance(s.threads[u]) > 0
    ensures
      var step := WayOut(s.threads[u], u);
      && CanStep(s, step) && Distance(Next(s, step).threads[u]) < Distance(s.threads[u])
      && Next(s, step).scan == s.scan && Next(s, step).active == s.active && Next(s, step).threads.Keys == s.threads.Keys
      && (forall t :: t != u && t in s.threads ==> Next(s, step).threads[t] == s.threads[t])
  {
  }

  /** A scan that has passed `t` and is ahead of its epoch ends ahead of it, once the others have left. */
  lemma {:induction false} ScanPasses(s: State, t: Thread, u: Thread) returns (z: State)
    requires t in s.threads && s.scan.Scanning? && t !in s.scan.rest && s.scan.rest <= s.threads.Keys
    requires s.threads[t].gc < s.scan.least && (s.scan.rest == {} || u in s.scan.rest)
    ensures Leads(s, t, z) && t in z.threads && z.threads[t].gc < z.active
    decreases |s.scan.rest|, if u in s.threads then Distance(s.threads[u]) else 0
  {
    var s': State;
    if s.scan.rest == {} {
      s' := Next(s, ScanEnd);
      LeadsSelf(s', t);
      LeadsStep(s, ScanEnd, t, s');
      z := s';
    } else if Distance(s.threads[u]) > 0 {
      WayOutIs(s, u);
      s' := Next(s, WayOut(s.threads[u], u));
      z := ScanPasses(s', t, u);
      LeadsStep(s, WayOut(s.threads[u], u), t, z);
    } else {
      s' := Next(s, ScanOne(u));
      assert |s'.scan.rest| < |s.scan.rest|;
      var v := if s'.scan.rest == {} then u else Pick(s'.scan.rest);
      z := ScanPasses(s', t, v);
      LeadsStep(s, ScanOne(u), t, z);
    }
  }

  ghost function Pick(ts: set<Thread>): (t: Thread)
    requires ts != {}
    ensures t in ts
  {
    var t :| t in ts;
    t
  }

  /** The bound `active_epoch <= gc_epoch_ <= globalepoch` holds for as long as a thread stays inside, whatever the
      others do, if and only if its store was clean. */
  lemma AnnouncedBoundIff(s0: State, steps: seq<Step>, t: Thread)
    requires Initial(s0) && AllowedRun(s0, steps) && CanStep(Run(s0, steps), StoreEpoch(t))
    ensures
      var s := Run(s0, steps);
      CleanStore(s, t) <==> forall z :: Leads(Next(s, StoreEpoch(t)), t, z) ==> Bounded(z, t)
  {
    RunKeepsInv(s0, steps);
    var s := Run(s0, steps);
    assert ThreadOk(s, t, s.threads[t]);
    var s' := Next(s, StoreEpoch(t));
    if CleanStore(s, t) {
      forall z | Leads(s', t, z)
        ensures Bounded(z, t)
      {
        var more :| AllowedRun(s', more) && AllStay(t, more) && Run(s', more) == z;
        RunKeepsSafe(s', t, more);
      }
    } else if s.active > s.threads[t].pc.epoch {
      LeadsSelf(s', t);
    } else {
      var z := ScanPasses(s', t, if s'.scan.rest == {} then t else Pick(s'.scan.rest));
    }
  }

  /** In a run whose stores are all clean every thread inside keeps the bound. */
  ghost predicate CleanRun(s: State, steps: seq<Step>)
    requires AllowedRun(s, steps)
    decreases |steps|
  {
    steps != [] ==> (steps[0].StoreEpoch? ==> CleanStore(s, steps[0].t)) && CleanRun(Next(s, steps[0]), steps[1..])
  }

  ghost predicate AllSafe(s: State) {
    forall t :: t in s.threads && s.threads[t].gc != 0 ==> Safe(s, t)
  }

  lemma StepKeepsAllSafe(s: State, step: Step)
    requires Inv(s) && AllSafe(s) && CanStep(s, step) && (step.StoreEpoch? ==> CleanStore(s, step.t))
    ensures AllSafe(Next(s, step))
  {
    var s' := Next(s, step);
    forall t | t in s'.threads && s'.threads[t].gc != 0
      ensures Safe(s', t)
    {
      if step == StoreEpoch(t) {
        assert ThreadOk(s, t, s.threads[t]);
      } else if step != Leave(t) {
        StepKeepsSafe(s, t, step);
      }
    }
  }

  lemma {:induction false} CleanRunKeepsBound(s: State, steps: seq<Step>)
    requires Inv(s) && AllSafe(s) && AllowedRun(s, steps) && CleanRun(s, steps)
    ensures AllSafe(Run(s, steps))
    decreases |steps|
  {
    if steps != [] {
      StepKeepsInv(s, steps[0]);
      StepKeepsAllSafe(s, steps[0]);
      hide Inv, AllSafe;
      CleanRunKeepsBound(Next(s, steps[0]), steps[1..]);
    }
  }

  lemma CleanRunsAreBounded(s0: State, steps: seq<Step>)
    requires Initial(s0) && AllowedRun(s0, steps) && CleanRun(s0, steps)
    ensures
      var s := Run(s0, steps);
      forall t :: t in s.threads && s.threads[t].gc != 0 ==> Bounded(s, t)
  {
    CleanRunKeepsBound(s0, steps);
  }

  /** The active epoch can pass the epoch a thread announces, because reading the global epoch
      and storing it are two accesses: the bound that reclamation may rely on is the epoch at
      the moment of the store, not `gc_epoch_`. */
  lemma ActiveMayPassAnnounced()
    ensures exists s0, steps ::
      && Initial(s0) && AllowedRun(s0, steps)
      && var s := Run(s0, steps);
      && 0 in s.threads && s.threads[0].gc != 0 && s.threads[0].gc < s.active
  {
    hide AllowedRun, Run;
    var l := Local(0, Idle, [], 0, 0);
    var s0 := State(1, 0, NoScan, map[0 := l], 0);
    var s1 := State(1, 0, NoScan, map[0 := l.(pc := Entering(1))], 1);
    var s2 := s1.(global := 3, now := 2);
    var s3 := s2.(scan := Scanning(3, {0}), now := 3);
    var s4 := s3.(scan := Scanning(3, {}), now := 4);
    var s5 := s4.(scan := NoScan, active := 3, now := 5);
    var s6 := s5.(threads := map[0 := Local(1, Idle, [], 3, 5)], now := 6);
    assert s2.threads.Keys == {0} && Next(s3, ScanOne(0)).scan.rest == {};
    assert Next(s0, ReadEpoch(0)).threads == s1.threads && Next(s5, StoreEpoch(0)).threads == s6.threads;
    EmptyRun(s6);
    var run := Prepend(s5, StoreEpoch(0), [], s6);
    run := Prepend(s4, ScanEnd, run, s6);
    run := Prepend(s3, ScanOne(0), run, s6);
    run := Prepend(s2, ScanStart, run, s6);
    run := Prepend(s1, Advance(2), run, s6);
    run := Prepend(s0, ReadEpoch(0), run, s6);
  }

  lemma EmptyRun(s: State)
    ensures AllowedRun(s, []) && Run(s, []) == s
  {
  }

  lemma Prepend(s: State, step: Step, rest: seq<Step>, last: State) returns (run: seq<Step>)
    requires CanStep(s, step) && AllowedRun(Next(s, step), rest) && Run(Next(s, step), rest) == last
    ensures AllowedRun(s, run) && Run(s, run) == last
  {
    run := [step] + rest;
    assert run[1..] == rest;
  }
}
