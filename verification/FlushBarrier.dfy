/** The stop-the-world flush: incll_gf.hh.

  One flusher and `n - 1` other threads meet through two counting semaphores.  Each other
  thread posts `ack_sem` and waits on `flush_ack_sem`; the flusher takes one acknowledgement
  per other thread, flushes, and posts one release per other thread.  Releases are not
  addressed: a fast thread that comes round again may take the token meant for a slow one. */
module FlushBarrier {

  type Thread = nat

  /** Where a thread that acknowledges is.  `Ready` is between calls; `Warned` has seen the
      warning flag in `ack_flush`, and `Asked` the request flag too; `Parked` has posted its
      acknowledgement and waits for a release. */
  datatype Worker = Ready | Warned | Asked | Parked

  /** Where the flusher is; `left` counts the iterations its loop has still to do. */
  datatype Flusher =
    | Idle
    | Warning                 // about to raise `waitingFlush`
    | Gathering(left: nat)    // waiting for acknowledgements
    | Flushing                // running the flush
    | Advancing               // flushed; about to move the epoch or lower the request
    | Releasing(left: nat)    // posting releases
    | Finishing               // about to lower the warning

  /** `others` is `nthreads - 1`; `manual` is `flush_manual`, which moves the epoch and uses no
      flags. */
  datatype State = State(
    workers: map<Thread, Worker>, others: nat, flusher: Flusher, manual: bool,
    ackSem: nat, releaseSem: nat, warning: bool, waiting: bool,
    epoch: nat, flushes: nat)

  datatype Step =
    | StartFlush(manual: bool)
    | FlusherStep
    | SeeWarning(t: Thread)      // ack_flush: the warning flag is up
    | SeeRequest(t: Thread)      // ack_flush: a flush is waiting
    | NoRequest(t: Thread)       // ack_flush: no flush is waiting
    | Acknowledge(t: Thread)     // post ack_sem
    | TakeRelease(t: Thread)     // sem_wait(flush_ack_sem) succeeds

  predicate CanStep(s: State, step: Step) {
    match step
    case StartFlush(_) => s.flusher.Idle?
    case FlusherStep => !s.flusher.Idle? && (s.flusher.Gathering? && s.flusher.left > 0 ==> s.ackSem > 0)
    case SeeWarning(t) => t in s.workers && s.workers[t].Ready? && s.warning
    case SeeRequest(t) => t in s.workers && s.workers[t].Warned? && s.waiting
    case NoRequest(t) => t in s.workers && s.workers[t].Warned? && !s.waiting
    // `ack_flush_manual` posts at once, `ack_flush` after seeing both flags
    case Acknowledge(t) => t in s.workers && (s.workers[t].Asked? || s.workers[t].Ready?)
    case TakeRelease(t) => t in s.workers && s.workers[t].Parked? && s.releaseSem > 0
  }

  function Next(s: State, step: Step): State
    requires CanStep(s, step)
  {
    match step
    case StartFlush(manual) =>
      if manual then s.(manual := true, flusher := Gathering(s.others))
      else s.(manual := false, warning := true, flusher := Warning)
    case FlusherStep =>
      (match s.flusher
       case Idle => s
       case Warning => s.(waiting := true, flusher := Gathering(s.others))
       case Gathering(left) =>
         if left > 0 then s.(ackSem := s.ackSem - 1, flusher := Gathering(left - 1)) else s.(flusher := Flushing)
       case Flushing => s.(flushes := s.flushes + 1, flusher := Advancing)
       case Advancing =>
         if s.manual then s.(epoch := s.epoch + 1, flusher := Releasing(s.others))
         else s.(waiting := false, flusher := Releasing(s.others))
       case Releasing(left) =>
         if left > 0 then s.(releaseSem := s.releaseSem + 1, flusher := Releasing(left - 1))
         else s.(flusher := Finishing)
       case Finishing => s.(warning := if s.manual then s.warning else false, flusher := Idle))
    case SeeWarning(t) => s.(workers := s.workers[t := Warned])
    case SeeRequest(t) => s.(workers := s.workers[t := Asked])
    case NoRequest(t) => s.(workers := s.workers[t := Ready])
    case Acknowledge(t) => s.(ackSem := s.ackSem + 1, workers := s.workers[t := Parked])
    case TakeRelease(t) => s.(releaseSem := s.releaseSem - 1, workers := s.workers[t := Ready])
  }

  function ParkedThreads(s: State): set<Thread> {
    set t | t in s.workers && s.workers[t].Parked?
  }

  /** Acknowledgements the flusher has taken and not yet answered with a release. */
  function Owed(s: State): nat {
    match s.flusher
    case Idle => 0
    case Warning => 0
    case Gathering(left) => if left <= s.others then s.others - left else 0
    case Flushing => s.others
    case Advancing => s.others
    case Releasing(left) => left
    case Finishing => 0
  }

  /** Every parked thread is matched by an acknowledgement not yet taken, one taken and not yet
      answered, or a release not yet taken: no other count is kept, and no token is addressed. */
  ghost predicate Inv(s: State) {
    && |s.workers.Keys| == s.others
    && (s.flusher.Gathering? || s.flusher.Releasing? ==> s.flusher.left <= s.others)
    && |ParkedThreads(s)| == s.ackSem + Owed(s) + s.releaseSem
  }

  /** All other threads have posted their acknowledgement and not been released, and no token
      of this or an earlier round is left. */
  ghost predicate AllParked(s: State) {
    && (forall t :: t in s.workers ==> s.workers[t].Parked?)
    && s.ackSem == 0 && s.releaseSem == 0
  }

  lemma ParkedAtMostAll(s: State)
    ensures |ParkedThreads(s)| <= |s.workers.Keys|
    ensures |ParkedThreads(s)| == |s.workers.Keys| ==> forall t :: t in s.workers ==> s.workers[t].Parked?
  {
    SubsetSize(ParkedThreads(s), s.workers.Keys);
  }

  lemma {:induction false} SubsetSize(a: set<Thread>, b: set<Thread>)
    requires a <= b
    ensures |a| <= |b|
    ensures |a| == |b| ==> a == b
  {
    if a != {} {
      var x :| x in a;
      SubsetSize(a - {x}, b - {x});
    }
  }

  /** Moving one thread in or out of the parked ones. */
  lemma ParkedChange(s: State, s': State, t: Thread)
    requires t in s.workers && t in s'.workers && s'.workers == s.workers[t := s'.workers[t]]
    ensures
      var before, after := s.workers[t].Parked?, s'.workers[t].Parked?;
      |ParkedThreads(s')| == |ParkedThreads(s)| + (if after && !before then 1 else if before && !after then -1 else 0)
  {
    var p, p' := ParkedThreads(s), ParkedThreads(s');
    assert (t in p <==> s.workers[t].Parked?) && (t in p' <==> s'.workers[t].Parked?);
    if s'.workers[t].Parked? {
      assert p' == p + {t};
    } else {
      assert p' == p - {t};
    }
  }

  lemma SameParked(s: State, s': State)
    requires s'.workers == s.workers
    ensures ParkedThreads(s') == ParkedThreads(s)
  {
  }

  lemma FlusherKeepsInv(s: State)
    requires Inv(s) && CanStep(s, FlusherStep)
    ensures Inv(Next(s, FlusherStep)) && Next(s, FlusherStep).workers == s.workers
  {
    hide ParkedThreads;
    FlusherCounts(s);
    SameParked(s, Next(s, FlusherStep));
    hide Owed, Next, CanStep;
  }

  /** A step of the flusher moves a count from one place to another. */
  lemma FlusherCounts(s: State)
    requires CanStep(s, FlusherStep) && (s.flusher.Gathering? || s.flusher.Releasing? ==> s.flusher.left <= s.others)
    ensures
      var s' := Next(s, FlusherStep);
      && s'.workers == s.workers && s'.others == s.others
      && (s'.flusher.Gathering? || s'.flusher.Releasing? ==> s'.flusher.left <= s'.others)
      && s'.ackSem + Owed(s') + s'.releaseSem == s.ackSem + Owed(s) + s.releaseSem
  {
    match s.flusher
    case Idle =>
    case Warning =>
    case Gathering(_) =>
    case Flushing =>
    case Advancing =>
    case Releasing(_) =>
    case Finishing =>
  }

  lemma StepKeepsInv(s: State, step: Step)
    requires Inv(s) && CanStep(s, step)
    ensures Inv(Next(s, step))
  {
    var s' := Next(s, step);
    match step
    case StartFlush(_) => assert ParkedThreads(s') == ParkedThreads(s);
    case FlusherStep => FlusherKeepsInv(s);
    case SeeWarning(t) => SameThreads(s, s', t);
    case SeeRequest(t) => SameThreads(s, s', t);
    case Acknowledge(t) => SameThreads(s, s', t);
    case NoRequest(t) => SameThreads(s, s', t);
    case TakeRelease(t) => SameThreads(s, s', t);
  }

  lemma SameThreads(s: State, s': State, t: Thread)
    requires t in s.workers && t in s'.workers && s'.workers == s.workers[t := s'.workers[t]]
    ensures s'.workers.Keys == s.workers.Keys
    ensures
      var before, after := s.workers[t].Parked?, s'.workers[t].Parked?;
      |ParkedThreads(s')| == |ParkedThreads(s)| + (if after && !before then 1 else if before && !after then -1 else 0)
  {
    ParkedChange(s, s', t);
  }

  /** While the flusher flushes, and until it has answered, the world is stopped. */
  lemma FlushFindsAllParked(s: State)
    requires Inv(s) && (s.flusher.Flushing? || s.flusher.Advancing?)
    ensures AllParked(s)
  {
    ParkedAtMostAll(s);
  }

  // ----- runs

  ghost predicate AllowedRun(s: State, steps: seq<Step>)
    decreases |steps|
  {
    steps != [] ==> CanStep(s, steps[0]) && AllowedRun(Next(s, steps[0]), steps[1..])
  }

  ghost function Run(s: State, steps: seq<Step>): State
    requires AllowedRun(s, steps)
    decreases |steps|
  {
    if steps == [] then s else Run(Next(s, steps[0]), steps[1..])
  }

  predicate Initial(s: State) {
    && (forall t :: t in s.workers ==> s.workers[t].Ready?)
    && s.others == |s.workers.Keys| && s.flusher.Idle? && s.ackSem == 0 && s.releaseSem == 0
  }

  lemma {:induction false} RunKeepsInv(s: State, steps: seq<Step>)
    requires Inv(s) && AllowedRun(s, steps)
    ensures Inv(Run(s, steps))
    decreases |steps|
  {
    if steps != [] {
      StepKeepsInv(s, steps[0]);
      RunKeepsInv(Next(s, steps[0]), steps[1..]);
    }
  }

  /** In every interleaving, over any number of rounds and of either kind of flush: the flush
      runs, and the epoch moves, only while every other thread is parked between its
      acknowledgement and its release and both semaphores are 0. */
  lemma WorldStoppedDuringFlush(s0: State, steps: seq<Step>, step: Step)
    requires Initial(s0) && AllowedRun(s0, steps) && CanStep(Run(s0, steps), step)
    ensures
      var s, s' := Run(s0, steps), Next(Run(s0, steps), step);
      (s'.flushes != s.flushes || s'.epoch != s.epoch ==> AllParked(s))
  {
    assert ParkedThreads(s0) == {};
    RunKeepsInv(s0, steps);
    var s := Run(s0, steps);
    if s.flusher.Flushing? || s.flusher.Advancing? {
      FlushFindsAllParked(s);
    }
  }

  /** No release is lost or made up: when the flusher is idle, the threads still parked are
      exactly as many as the tokens they can take, plus the acknowledgements of the next round. */
  lemma EveryReleaseIsTaken(s0: State, steps: seq<Step>)
    requires Initial(s0) && AllowedRun(s0, steps) && Run(s0, steps).flusher.Idle?
    ensures var s := Run(s0, steps); |ParkedThreads(s)| == s.releaseSem + s.ackSem
  {
    assert ParkedThreads(s0) == {};
    RunKeepsInv(s0, steps);
  }

  // ----- what a round does

  /** No round begins in these steps. */
  ghost predicate OneRound(steps: seq<Step>) { forall i :: 0 <= i < |steps| ==> !steps[i].StartFlush? }

  /** How far the round that began in `s0` has come: the flush is counted when it has run, the epoch moves behind it
      in a manual round, and in a plain one the request falls then and the warning at the end. */
  predicate Underway(s0: State, manual: bool, s: State) {
    var moved := if manual then 1 else 0;
    && s.others == s0.others && s.manual == manual
    && (manual ==> s.warning == s0.warning && s.waiting == s0.waiting)
    && match s.flusher
       case Warning => !manual && s.flushes == s0.flushes && s.epoch == s0.epoch && s.warning
       case Gathering(_) => s.flushes == s0.flushes && s.epoch == s0.epoch && (!manual ==> s.warning && s.waiting)
       case Flushing => s.flushes == s0.flushes && s.epoch == s0.epoch && (!manual ==> s.warning && s.waiting)
       case Advancing => s.flushes == s0.flushes + 1 && s.epoch == s0.epoch && (!manual ==> s.warning && s.waiting)
       case Releasing(_) => s.flushes == s0.flushes + 1 && s.epoch == s0.epoch + moved && (!manual ==> s.warning && !s.waiting)
       case Finishing => s.flushes == s0.flushes + 1 && s.epoch == s0.epoch + moved && (!manual ==> s.warning && !s.waiting)
       case Idle => s.flushes == s0.flushes + 1 && s.epoch == s0.epoch + moved && (!manual ==> !s.warning && !s.waiting)
  }

  lemma UnderwayStep(s0: State, manual: bool, s: State, step: Step)
    requires Underway(s0, manual, s) && CanStep(s, step) && !step.StartFlush?
    ensures Underway(s0, manual, Next(s, step))
  {
  }

  lemma {:induction false} UnderwayRun(s0: State, manual: bool, s: State, steps: seq<Step>)
    requires Underway(s0, manual, s) && AllowedRun(s, steps) && OneRound(steps)
    ensures Underway(s0, manual, Run(s, steps))
    decreases |steps|
  {
    hide Next, CanStep, Underway;
    if steps != [] {
      assert OneRound(steps[1..]) && !steps[0].StartFlush?;
      UnderwayStep(s0, manual, s, steps[0]);
      UnderwayRun(s0, manual, Next(s, steps[0]), steps[1..]);
    }
  }

  /** In every interleaving: from the start of a round to the next time the flusher is idle the cache is flushed once,
      and the epoch moves by one in a manual round, which leaves the flags alone, and stays in a plain one, whose flags
      are down again. */
  lemma RoundFlushesOnce(s: State, manual: bool, steps: seq<Step>)
    requires CanStep(s, StartFlush(manual)) && AllowedRun(Next(s, StartFlush(manual)), steps) && OneRound(steps)
    requires Run(Next(s, StartFlush(manual)), steps).flusher.Idle?
    ensures
      var z := Run(Next(s, StartFlush(manual)), steps);
      && z.flushes == s.flushes + 1 && z.epoch == s.epoch + (if manual then 1 else 0)
      && (if manual then z.warning == s.warning && z.waiting == s.waiting else !z.warning && !z.waiting)
  {
    UnderwayRun(s, manual, Next(s, StartFlush(manual)), steps);
  }

  // ----- no round is stuck

  /** `z` can be reached from `s` within the round. */
  ghost predicate Reaches(s: State, z: State) {
    exists steps :: AllowedRun(s, steps) && OneRound(steps) && Run(s, steps) == z
  }

  lemma ReachesStep(s: State, step: Step, z: State)
    requires CanStep(s, step) && !step.StartFlush? && Reaches(Next(s, step), z)
    ensures Reaches(s, z)
  {
    hide Next, CanStep;
    var steps :| AllowedRun(Next(s, step), steps) && OneRound(steps) && Run(Next(s, step), steps) == z;
    var all := [step] + steps;
    assert all[0] == step && all[1..] == steps;
    assert AllowedRun(s, all) && Run(s, all) == z && OneRound(all);
  }

  /** The steps the flusher has still to make. */
  function StepsLeft(s: State): nat {
    match s.flusher
    case Idle => 0
    case Warning => 2 * s.others + 6
    case Gathering(left) => left + s.others + 5
    case Flushing => s.others + 4
    case Advancing => s.others + 3
    case Releasing(left) => left + 2
    case Finishing => 1
  }

  /** The steps that a thread has to make until it posts its next acknowledgement. */
  function StepsToAck(s: State, t: Thread): nat
    requires t in s.workers
  {
    match s.workers[t]
    case Asked => 1
    case Warned => 2
    case Ready => if s.manual then 1 else 3
    case Parked => 4
  }

  /** The next of these steps: in a plain round through both flags. */
  function AckStep(s: State, t: Thread): Step
    requires t in s.workers
  {
    match s.workers[t]
    case Asked => Acknowledge(t)
    case Warned => if s.waiting then SeeRequest(t) else NoRequest(t)
    case Ready => if s.manual then Acknowledge(t) else SeeWarning(t)
    case Parked => TakeRelease(t)
  }

  /** The flusher waits for an acknowledgement that has not been posted. */
  predicate Starved(s: State) { s.flusher.Gathering? && s.flusher.left > 0 && s.ackSem == 0 }

  lemma AckStepIs(s: State, t: Thread)
    requires Inv(s) && Starved(s) && t in s.workers && (!s.manual ==> s.warning && s.waiting)
    requires s.workers[t].Parked? ==> s.releaseSem > 0
    ensures
      var s' := Next(s, AckStep(s, t));
      && CanStep(s, AckStep(s, t)) && !AckStep(s, t).StartFlush? && Inv(s')
      && s'.flusher == s.flusher && s'.others == s.others && s'.manual == s.manual
      && s'.warning == s.warning && s'.waiting == s.waiting && t in s'.workers
      && (Starved(s') ==> !s'.workers[t].Parked? && StepsToAck(s', t) < StepsToAck(s, t))
  {
    StepKeepsInv(s, AckStep(s, t));
    hide Inv;
  }

  /** Somebody can post: a thread that is not parked, or one that is and whose release is waiting for it. */
  lemma SomebodyCanAck(s: State) returns (t: Thread)
    requires Inv(s) && Starved(s)
    ensures t in s.workers && (s.workers[t].Parked? ==> s.releaseSem > 0)
  {
    ParkedAtMostAll(s);
    if t' :| t' in s.workers && !s.workers[t'].Parked? {
      t := t';
    } else {
      assert ParkedThreads(s) == s.workers.Keys;
      assert s.workers.Keys != {};
      t :| t in s.workers;
    }
  }

  /** From any point of a round, whatever the other threads have done so far, the round can be brought to its end. */
  lemma {:induction false} RoundCanEnd(s0: State, manual: bool, s: State, t: Thread) returns (z: State)
    requires Inv(s) && Underway(s0, manual, s)
    requires Starved(s) ==> t in s.workers && (s.workers[t].Parked? ==> s.releaseSem > 0)
    ensures Reaches(s, z) && z.flusher.Idle?
    decreases StepsLeft(s), if Starved(s) && t in s.workers then StepsToAck(s, t) else 0
  {
    if s.flusher.Idle? {
      z := s;
      assert AllowedRun(s, []) && OneRound([]) && Run(s, []) == s;
      return;
    }
    var step := if Starved(s) then AckStep(s, t) else FlusherStep;
    if Starved(s) {
      AckStepIs(s, t);
    } else {
      FlusherKeepsInv(s);
      assert StepsLeft(Next(s, FlusherStep)) < StepsLeft(s);
    }
    UnderwayStep(s0, manual, s, step);
    var s' := Next(s, step);
    hide Inv, Underway, AckStep, CanStep, Next;
    var u := t;
    if !Starved(s) && Starved(s') {
      u := SomebodyCanAck(s');
    }
    z := RoundCanEnd(s0, manual, s', u);
    ReachesStep(s, step, z);
  }

  /** No deadlock: in every reachable state a round that is under way can be brought to its end, with the cache flushed
      once by then. */
  lemma EveryRoundCanEnd(s0: State, past: seq<Step>, manual: bool, steps: seq<Step>) returns (z: State)
    requires Initial(s0) && AllowedRun(s0, past) && CanStep(Run(s0, past), StartFlush(manual))
    requires AllowedRun(Next(Run(s0, past), StartFlush(manual)), steps) && OneRound(steps)
    ensures
      var s := Run(s0, past);
      && Reaches(Run(Next(s, StartFlush(manual)), steps), z) && z.flusher.Idle?
      && z.flushes == s.flushes + 1 && z.epoch == s.epoch + (if manual then 1 else 0)
  {
    assert ParkedThreads(s0) == {};
    RunKeepsInv(s0, past);
    var s := Run(s0, past);
    var r := Next(s, StartFlush(manual));
    StepKeepsInv(s, StartFlush(manual));
    RunKeepsInv(r, steps);
    UnderwayRun(s, manual, r, steps);
    var now := Run(r, steps);
    var t := 0;
    if Starved(now) {
      t := SomebodyCanAck(now);
    }
    z := RoundCanEnd(s, manual, now, t);
    var more :| AllowedRun(now, more) && OneRound(more) && Run(now, more) == z;
    UnderwayRun(s, manual, now, more);
  }

  // ----- releases are not addressed

  /** `z` can be reached from `s` by steps other than a release of `slow`. */
  ghost predicate Leads(s: State, slow: Thread, z: State) {
    exists steps :: AllowedRun(s, steps) && TakeRelease(slow) !in steps && Run(s, steps) == z
  }

  lemma LeadsStep(s: State, slow: Thread, z: State, step: Step)
    requires Leads(s, slow, z) && CanStep(z, step) && step != TakeRelease(slow)
    ensures Leads(s, slow, Next(z, step))
  {
    hide Next, CanStep;
    var steps :| AllowedRun(s, steps) && TakeRelease(slow) !in steps && Run(s, steps) == z;
    RunSnoc(s, steps, step);
  }

  lemma {:induction false} RunSnoc(s: State, steps: seq<Step>, step: Step)
    requires AllowedRun(s, steps) && CanStep(Run(s, steps), step)
    ensures AllowedRun(s, steps + [step]) && Run(s, steps + [step]) == Next(Run(s, steps), step)
    decreases |steps|
  {
    hide Next, CanStep;
    if steps == [] {
      assert [] + [step] == [step] && [step][1..] == [];
    } else {
      assert (steps + [step])[0] == steps[0] && (steps + [step])[1..] == steps[1..] + [step];
      RunSnoc(Next(s, steps[0]), steps[1..], step);
    }
  }

  lemma LeadsSelf(s: State, slow: Thread)
    ensures Leads(s, slow, s)
  {
    assert AllowedRun(s, []) && Run(s, []) == s;
  }

  /** A thread sees the flags and acknowledges. */
  lemma Acknowledges(s: State, slow: Thread, z: State, t: Thread)
    requires Leads(s, slow, z) && t in z.workers && z.workers[t].Ready? && z.warning && z.waiting
    ensures Leads(s, slow, z.(workers := z.workers[t := Parked], ackSem := z.ackSem + 1))
  {
    hide Leads;
    var a := Next(z, SeeWarning(t));
    var b := Next(a, SeeRequest(t));
    LeadsStep(s, slow, z, SeeWarning(t));
    LeadsStep(s, slow, a, SeeRequest(t));
    LeadsStep(s, slow, b, Acknowledge(t));
    assert b.workers[t := Parked] == z.workers[t := Parked];
  }

  /** The flusher starts a round. */
  lemma Starts(s: State, slow: Thread, z: State)
    requires Leads(s, slow, z) && z.flusher.Idle?
    ensures Leads(s, slow, z.(manual := false, warning := true, waiting := true, flusher := Gathering(z.others)))
  {
    hide Leads;
    LeadsStep(s, slow, z, StartFlush(false));
    LeadsStep(s, slow, Next(z, StartFlush(false)), FlusherStep);
  }

  /** The flusher's steps from two acknowledgements to two releases and the end of the round. */
  lemma Flushes(s: State, slow: Thread, z: State)
    requires Leads(s, slow, z) && z.flusher == Gathering(2) && z.others == 2 && z.ackSem == 2 && !z.manual
    ensures
      Leads(s, slow, z.(ackSem := 0, flushes := z.flushes + 1, waiting := false, releaseSem := z.releaseSem + 2,
                        warning := false, flusher := Idle))
  {
    hide Leads;
    var a := Next(Next(Next(z, FlusherStep), FlusherStep), FlusherStep);
    LeadsStep(s, slow, z, FlusherStep);
    LeadsStep(s, slow, Next(z, FlusherStep), FlusherStep);
    LeadsStep(s, slow, Next(Next(z, FlusherStep), FlusherStep), FlusherStep);
    var b := Next(Next(a, FlusherStep), FlusherStep);
    LeadsStep(s, slow, a, FlusherStep);
    LeadsStep(s, slow, Next(a, FlusherStep), FlusherStep);
    LeadsStep(s, slow, b, FlusherStep);
    LeadsStep(s, slow, Next(b, FlusherStep), FlusherStep);
    LeadsStep(s, slow, Next(Next(b, FlusherStep), FlusherStep), FlusherStep);
    LeadsStep(s, slow, Next(Next(Next(b, FlusherStep), FlusherStep), FlusherStep), FlusherStep);
  }

  /** The token of a slow thread can go to a fast one: from the start there is a run in which the slow thread
      never takes its release of the first round, the fast thread passes the barrier in the first round and,
      on the slow thread's token, again in the second, and both acknowledgements of the second round are its own. */
  lemma FastThreadTakesSlowToken(s: State, fast: Thread, slow: Thread)
    requires Initial(s) && fast != slow && s.workers == map[fast := Ready, slow := Ready]
    ensures exists z ::
      && Leads(s, slow, z) && z.workers == map[fast := Parked, slow := Parked]
      && z.flushes == s.flushes + 1 && z.flusher == Gathering(2) && z.ackSem == 2 && z.releaseSem == 0
  {
    assert s.workers.Keys == {fast, slow};
    hide Leads;
    LeadsSelf(s, slow);
    Starts(s, slow, s);
    var z := s.(manual := false, warning := true, waiting := true, flusher := Gathering(2));
    Acknowledges(s, slow, z, fast);
    z := z.(workers := z.workers[fast := Parked], ackSem := 1);
    Acknowledges(s, slow, z, slow);
    z := z.(workers := z.workers[slow := Parked], ackSem := 2);
    Flushes(s, slow, z);
    z := z.(ackSem := 0, flushes := s.flushes + 1, waiting := false, releaseSem := 2, warning := false, flusher := Idle);
    SecondRound(s, fast, slow, z);
  }

  lemma SecondRound(s: State, fast: Thread, slow: Thread, z0: State)
    requires Leads(s, slow, z0) && fast != slow && z0.flusher.Idle? && z0.others == 2
    requires fast in z0.workers && slow in z0.workers && z0.workers.Keys == {fast, slow} && z0.workers[fast] == z0.workers[slow] == Parked
    requires z0.ackSem == 0 && z0.releaseSem == 2 && z0.flushes == s.flushes + 1
    ensures exists z ::
      && Leads(s, slow, z) && z.workers == map[fast := Parked, slow := Parked]
      && z.flushes == s.flushes + 1 && z.flusher == Gathering(2) && z.ackSem == 2 && z.releaseSem == 0
  {
    hide Leads;
    LeadsStep(s, slow, z0, TakeRelease(fast));
    var z := Next(z0, TakeRelease(fast));
    Starts(s, slow, z);
    z := z.(manual := false, warning := true, waiting := true, flusher := Gathering(2));
    Acknowledges(s, slow, z, fast);
    z := z.(workers := z.workers[fast := Parked], ackSem := 1);
    LeadsStep(s, slow, z, TakeRelease(fast));
    z := Next(z, TakeRelease(fast));
    Acknowledges(s, slow, z, fast);
    z := z.(workers := z.workers[fast := Parked], ackSem := 2);
    assert z.workers == map[fast := Parked, slow := Parked];
  }
}
