/** The dispatch-queue monitor of the macOS watcher (fsevents_stubs.c), as a step system over any number
    of threads: the OCaml runtime lock, the mutex `dq_lock`, the condition variable, the stream counter
    and the exception flag. Every lock operation and every statement under `dq_lock` is a step. */
module Monitor {

  type Thread = nat
  type Stream = nat

  datatype Owner = Free | By(t: Thread)

  /** The five critical sections of `dq_lock`: in start, in its failure branch, in stop, in the wait and in
      the exception path of the callback. */
  datatype Section = Count(st: Stream) | Undo(st: Stream) | Uncount(st: Stream) | Check | Raise

  /** Where a thread is: outside, in code that holds the runtime lock, waiting for `dq_lock`, about to run the
      statements under it, about to broadcast, about to unlock, waiting for the runtime lock again, about to
      start the stream, asleep on the condition variable, or in the callback after it has read the `dq` field of
      its stream, with and without the runtime lock; `found` says whether the field was set. */
  datatype Pc =
    | Away
    | Ocaml
    | Want(at: Section)
    | Inside(at: Section)
    | Signal(at: Section)
    | Done(at: Section)
    | Back(at: Section)
    | Starting(stream: Stream)
    | Asleep
    | Calling(found: bool)
    | Suspended(found: bool)

  /** What the threads share. `streams` is the 32-bit counter, `attached` holds the streams whose `dq` field is
      set, and `counted` records the streams whose last change of the counter was the increment. */
  datatype Shared = Shared(
    runtime: Owner,
    dqLock: Owner,
    streams: nat,
    hasExn: bool,
    attached: set<Stream>,
    counted: set<Stream>)

  datatype State = State(pcs: map<Thread, Pc>, sh: Shared)

  const Initial := State(map[], Shared(Free, Free, 0, false, {}, {}))

  const TWO_32: nat := 0x1_0000_0000

  function PcOf(s: State, t: Thread): Pc {
    if t in s.pcs then s.pcs[t] else Away
  }

  predicate HoldsDq(pc: Pc) {
    pc.Inside? || pc.Signal? || pc.Done?
  }

  /** The failure branch of start and the callback take `dq_lock` without releasing the runtime lock. */
  predicate HoldsRuntime(pc: Pc) {
    pc.Ocaml? || pc.Starting? || pc.Calling? || ((HoldsDq(pc) || pc.Want?) && (pc.at.Undo? || pc.at.Raise?))
  }

  predicate WantsRuntime(pc: Pc) {
    pc.Away? || pc.Back? || pc.Suspended?
  }

  /** A step of a thread inside `dq_lock`, or the outcome of FSEventStreamStart. */
  predicate CanAdvance(pc: Pc) {
    HoldsDq(pc) || pc.Starting?
  }

  datatype Step =
    | TakeRuntime(t: Thread)
    | Leave(t: Thread)
    | CallStart(t: Thread, st: Stream)
    | CallStop(t: Thread, st: Stream)
    | CallWait(t: Thread)
    | CallbackReads(t: Thread, st: Stream)
    | CallbackYields(t: Thread)
    | CallbackRaises(t: Thread)
    | CallbackReturns(t: Thread)
    | LockDq(t: Thread)
    | Advance(t: Thread, started: bool)
    | Spurious(t: Thread)

  /** Whether a thread at `pc` can take the step. A callback that raises needs the field it has read. */
  predicate CanStep(sh: Shared, pc: Pc, step: Step) {
    match step
    case TakeRuntime(_) => WantsRuntime(pc) && sh.runtime == Free
    case Leave(_) => pc.Ocaml?
    case CallStart(_, _) => pc.Ocaml?
    case CallStop(_, _) => pc.Ocaml?
    case CallWait(_) => pc.Ocaml?
    case CallbackReads(_, _) => pc.Ocaml?
    case CallbackYields(_) => pc.Calling?
    case CallbackRaises(_) => pc.Calling? && pc.found
    case CallbackReturns(_) => pc.Calling?
    case LockDq(_) => pc.Want? && sh.dqLock == Free
    case Advance(_, _) => CanAdvance(pc)
    case Spurious(_) => pc.Asleep?
  }

  /** What a step does: the new position of its thread, the shared variables, and whether it broadcasts. */
  datatype Effect = Effect(pc: Pc, sh: Shared, wake: bool)

  function Increment(n: nat): nat {
    (n + 1) % 0x1_0000_0000
  }

  function Decrement(n: nat): nat {
    if n == 0 then 0xFFFF_FFFF else n - 1
  }

  /** The decrement, and the test whether the last stream is gone. */
  function Uncounting(sh: Shared, at: Section, st: Stream): Effect {
    var n := Decrement(sh.streams);
    Effect(if n == 0 then Signal(at) else Done(at), sh.(streams := n, counted := sh.counted - {st}), false)
  }

  /** The statements under `dq_lock`. */
  function Body(sh: Shared, at: Section): Effect {
    match at
    case Count(st) =>
      Effect(Done(at), sh.(streams := Increment(sh.streams), counted := sh.counted + {st}), false)
    case Undo(st) => Uncounting(sh, at, st)
    case Uncount(st) => Uncounting(sh, at, st)
    case Check =>
      if sh.streams > 0 && !sh.hasExn then Effect(Asleep, sh.(dqLock := Free), false)
      else Effect(Done(at), sh, false)
    case Raise => Effect(Signal(at), sh.(hasExn := true), false)
  }

  /** The unlock, and what follows it without another lock. */
  function Unlock(sh: Shared, at: Section): Effect {
    match at
    case Undo(st) => Effect(Ocaml, sh.(dqLock := Free, attached := sh.attached - {st}), false)
    case Raise => Effect(Ocaml, sh.(dqLock := Free), false)
    case _ => Effect(Back(at), sh.(dqLock := Free), false)
  }

  /** A step of a thread that holds `dq_lock`, or the outcome of FSEventStreamStart. */
  function Advanced(sh: Shared, pc: Pc, started: bool): Effect
    requires CanAdvance(pc)
  {
    match pc
    case Starting(st) => Effect(if started then Ocaml else Want(Undo(st)), sh, false)
    case Inside(at) => Body(sh, at)
    case Signal(at) => Effect(Done(at), sh, true)
    case Done(at) => Unlock(sh, at)
  }

  /** The runtime lock is taken, at the end of a blocking section or from outside. */
  function Resumed(sh: Shared, pc: Pc, t: Thread): Effect
    requires WantsRuntime(pc)
  {
    match pc
    case Back(Count(st)) => Effect(Starting(st), sh.(runtime := By(t)), false)
    case Back(Uncount(st)) => Effect(Ocaml, sh.(runtime := By(t), attached := sh.attached - {st}), false)
    case Suspended(found) => Effect(Calling(found), sh.(runtime := By(t)), false)
    case _ => Effect(Ocaml, sh.(runtime := By(t)), false)
  }

  function EffectOf(sh: Shared, pc: Pc, step: Step): Effect
    requires CanStep(sh, pc, step)
  {
    match step
    case TakeRuntime(t) => Resumed(sh, pc, t)
    case Leave(_) => Effect(Away, sh.(runtime := Free), false)
    case CallStart(_, st) =>
      Effect(Want(Count(st)), sh.(runtime := Free, attached := sh.attached + {st}), false)
    case CallStop(_, st) =>
      if st !in sh.attached then Effect(Ocaml, sh, false)
      else Effect(Want(Uncount(st)), sh.(runtime := Free), false)
    case CallWait(_) => Effect(Want(Check), sh.(runtime := Free), false)
    case CallbackReads(_, st) => Effect(Calling(st in sh.attached), sh, false)
    case CallbackYields(_) => Effect(Suspended(pc.found), sh.(runtime := Free), false)
    case CallbackRaises(_) => Effect(Want(Raise), sh, false)
    case CallbackReturns(_) => Effect(Ocaml, sh, false)
    case LockDq(t) => Effect(Inside(pc.at), sh.(dqLock := By(t)), false)
    case Advance(_, started) => Advanced(sh, pc, started)
    case Spurious(_) => Effect(Want(Check), sh, false)
  }

  predicate Enabled(s: State, step: Step) {
    CanStep(s.sh, PcOf(s, step.t), step)
  }

  /** pthread_cond_broadcast: every sleeping thread competes for the lock again. */
  function Woken(pcs: map<Thread, Pc>): map<Thread, Pc> {
    map t | t in pcs :: if pcs[t].Asleep? then Want(Check) else pcs[t]
  }

  function Apply(s: State, step: Step): State
    requires Enabled(s, step)
  {
    var e := EffectOf(s.sh, PcOf(s, step.t), step);
    State((if e.wake then Woken(s.pcs) else s.pcs)[step.t := e.pc], e.sh)
  }

  // ----- positions and streams

  /** A thread at `pc` is in one of the sections of start and stop, before, inside or behind it. */
  predicate InSection(pc: Pc) {
    if pc.Back? then pc.at.Count? || pc.at.Uncount?
    else (HoldsDq(pc) || pc.Want?) && (pc.at.Count? || pc.at.Undo? || pc.at.Uncount?)
  }

  /** A thread at `pc` is starting or stopping the stream. */
  predicate WorksOn(pc: Pc, st: Stream) {
    (pc.Starting? && pc.stream == st) || (InSection(pc) && pc.at.st == st)
  }

  /** Whether a stream is counted when its thread is here: after the increment and before the decrement. */
  predicate CountedAt(pc: Pc) {
    pc.Starting? || (InSection(pc) && (pc.Want? || pc.Inside?) != pc.at.Count?)
  }

  /** Some thread is starting or stopping the stream. */
  ghost predicate Busy(s: State, st: Stream) {
    exists t: Thread :: WorksOn(PcOf(s, t), st)
  }

  // ----- the discipline

  /** A stream is started only while its `dq` field is null, and stopped only while no other thread is starting
      or stopping it; a stop of a stream whose field is null does nothing. */
  ghost predicate Disciplined(s: State, step: Step) {
    match step
    case CallStart(_, st) => st !in s.sh.attached
    case CallStop(_, st) => st !in s.sh.attached || !Busy(s, st)
    case _ => true
  }

  ghost predicate IsRun(states: seq<State>, steps: seq<Step>) {
    && |states| == |steps| + 1 && states[0] == Initial
    && forall i | 0 <= i < |steps| :: Enabled(states[i], steps[i]) && states[i + 1] == Apply(states[i], steps[i])
  }

  ghost predicate IsDisciplinedRun(states: seq<State>, steps: seq<Step>) {
    IsRun(states, steps) && forall i | 0 <= i < |steps| :: Disciplined(states[i], steps[i])
  }

  // ----- the invariant

  /** Each lock is held by the one thread whose position says so. */
  ghost predicate Locks(s: State) {
    && (forall t: Thread :: HoldsDq(PcOf(s, t)) <==> s.sh.dqLock == By(t))
    && (forall t: Thread :: HoldsRuntime(PcOf(s, t)) <==> s.sh.runtime == By(t))
  }

  /** No two threads work on one stream ... */
  ghost predicate OneWorker(s: State) {
    forall t: Thread, u: Thread, st: Stream | WorksOn(PcOf(s, t), st) && WorksOn(PcOf(s, u), st) :: t == u
  }

  /** ... whose `dq` field is set then, and which is counted as the position says ... */
  ghost predicate Positions(s: State) {
    forall t: Thread, st: Stream | WorksOn(PcOf(s, t), st) ::
      st in s.sh.attached && (st in s.sh.counted <==> CountedAt(PcOf(s, t)))
  }

  /** ... and a stream that nobody works on is counted exactly when its field is set. */
  ghost predicate AtRest(s: State) {
    forall st: Stream | !Busy(s, st) :: st in s.sh.attached <==> st in s.sh.counted
  }

  /** The counter is the number of counted streams, modulo 2^32. */
  predicate Exact(sh: Shared) {
    sh.streams == |sh.counted| % 0x1_0000_0000
  }

  ghost predicate Inv(s: State) {
    Locks(s) && OneWorker(s) && Positions(s) && AtRest(s) && Exact(s.sh)
  }

  predicate ShouldSleep(sh: Shared) {
    sh.streams > 0 && !sh.hasExn
  }

  /** A thread sleeps only while it should, or while the thread that will wake it holds the lock. */
  ghost predicate Sleepers(s: State) {
    forall t: Thread | PcOf(s, t).Asleep? :: ShouldSleep(s.sh) || exists u: Thread :: PcOf(s, u).Signal?
  }

  // ----- every step keeps it: the locks

  /** Only `t` moves; the others stay where they are, or are woken. */
  ghost predicate Moves(s: State, s': State, t: Thread) {
    forall u: Thread | u != t :: PcOf(s', u) == PcOf(s, u) || (PcOf(s, u).Asleep? && PcOf(s', u) == Want(Check))
  }

  lemma StepMoves(s: State, step: Step)
    requires Enabled(s, step)
    ensures Moves(s, Apply(s, step), step.t)
  {
    hide EffectOf, CanStep;
  }

  /** A lock changes hands as the positions of the moving thread say. */
  predicate Passes(held: bool, holds: bool, before: Owner, after: Owner, t: Thread) {
    if holds then after == By(t) && (held || before == Free) else after == if held then Free else before
  }

  lemma PassesDq(sh: Shared, pc: Pc, step: Step)
    requires CanStep(sh, pc, step) && (HoldsDq(pc) <==> sh.dqLock == By(step.t))
    ensures var e := EffectOf(sh, pc, step); Passes(HoldsDq(pc), HoldsDq(e.pc), sh.dqLock, e.sh.dqLock, step.t)
  {
  }

  lemma PassesRuntime(sh: Shared, pc: Pc, step: Step)
    requires CanStep(sh, pc, step) && (HoldsRuntime(pc) <==> sh.runtime == By(step.t))
    ensures var e := EffectOf(sh, pc, step);
            Passes(HoldsRuntime(pc), HoldsRuntime(e.pc), sh.runtime, e.sh.runtime, step.t)
  {
  }

  lemma StepLocks(s: State, step: Step)
    requires Locks(s) && Enabled(s, step)
    ensures Locks(Apply(s, step))
  {
    hide EffectOf, CanStep, HoldsDq, HoldsRuntime;
    StepMoves(s, step);
    PassesDq(s.sh, PcOf(s, step.t), step);
    PassesRuntime(s.sh, PcOf(s, step.t), step);
    var s' := Apply(s, step);
    forall u: Thread
      ensures HoldsDq(PcOf(s', u)) <==> s'.sh.dqLock == By(u)
      ensures HoldsRuntime(PcOf(s', u)) <==> s'.sh.runtime == By(u)
    {
      SleepersHoldNothing();
      assert HoldsDq(PcOf(s, u)) <==> s.sh.dqLock == By(u);
      assert HoldsRuntime(PcOf(s, u)) <==> s.sh.runtime == By(u);
    }
  }

  lemma SleepersHoldNothing()
    ensures !HoldsDq(Asleep) && !HoldsDq(Want(Check)) && !HoldsRuntime(Asleep) && !HoldsRuntime(Want(Check))
  {
  }

  // ----- every step keeps it: the streams

  /** The thread at `pc` finds its stream attached, and counted as its position says. */
  predicate Fits(sh: Shared, pc: Pc, st: Stream) {
    st in sh.attached && (st in sh.counted <==> CountedAt(pc))
  }

  /** What a step does to one stream: a thread that goes on working on it fits its new position, a thread that
      leaves it puts it to rest, only the two calls begin work on it, and no other step touches it. */
  lemma StepOnStream(sh: Shared, pc: Pc, step: Step, st: Stream)
    requires CanStep(sh, pc, step) && (WorksOn(pc, st) ==> Fits(sh, pc, st))
    requires step == CallStart(step.t, st) ==> st !in sh.counted
    requires step == CallStop(step.t, st) && st in sh.attached ==> st in sh.counted
    ensures var e := EffectOf(sh, pc, step);
            && (WorksOn(e.pc, st) ==> Fits(e.sh, e.pc, st))
            && (WorksOn(pc, st) && !WorksOn(e.pc, st) ==> (st in e.sh.attached <==> st in e.sh.counted))
            && (WorksOn(e.pc, st) && !WorksOn(pc, st) ==>
                step == CallStart(step.t, st) || (step == CallStop(step.t, st) && st in sh.attached))
            && (!WorksOn(e.pc, st) && !WorksOn(pc, st) ==>
                (st in e.sh.attached <==> st in sh.attached) && (st in e.sh.counted <==> st in sh.counted))
  {
  }

  lemma OthersWork(s: State, s': State, t: Thread, u: Thread, st: Stream)
    requires Moves(s, s', t) && u != t
    ensures WorksOn(PcOf(s', u), st) <==> WorksOn(PcOf(s, u), st)
    ensures WorksOn(PcOf(s', u), st) ==> PcOf(s', u) == PcOf(s, u)
  {
    assert !WorksOn(Asleep, st) && !WorksOn(Want(Check), st);
  }

  ghost predicate Settled(s: State) {
    OneWorker(s) && Positions(s) && AtRest(s)
  }

  /** The discipline gives the two calls a stream that nobody works on. */
  lemma CallIsAlone(s: State, step: Step, st: Stream)
    requires Settled(s) && Disciplined(s, step)
    ensures step == CallStart(step.t, st) ==> !Busy(s, st) && st !in s.sh.counted
    ensures step == CallStop(step.t, st) && st in s.sh.attached ==> !Busy(s, st) && st in s.sh.counted
  {
    hide WorksOn, CountedAt;
  }

  /** What a disciplined step does to one stream, as StepOnStream says. */
  lemma StepOnSettled(s: State, step: Step, st: Stream)
    requires Settled(s) && Enabled(s, step) && Disciplined(s, step)
    ensures var s', t := Apply(s, step), step.t;
            && (WorksOn(PcOf(s', t), st) ==> Fits(s'.sh, PcOf(s', t), st))
            && (WorksOn(PcOf(s, t), st) && !WorksOn(PcOf(s', t), st) ==>
                (st in s'.sh.attached <==> st in s'.sh.counted))
            && (WorksOn(PcOf(s', t), st) && !WorksOn(PcOf(s, t), st) ==> !Busy(s, st))
            && (!WorksOn(PcOf(s', t), st) && !WorksOn(PcOf(s, t), st) ==>
                (st in s'.sh.attached <==> st in s.sh.attached) && (st in s'.sh.counted <==> st in s.sh.counted))
  {
    CallIsAlone(s, step, st);
    StepOnStream(s.sh, PcOf(s, step.t), step, st);
    hide EffectOf, WorksOn, CountedAt, Busy;
  }

  lemma StepOneWorker(s: State, step: Step)
    requires Settled(s) && Enabled(s, step) && Disciplined(s, step)
    ensures OneWorker(Apply(s, step))
  {
    hide Apply, WorksOn, Positions, AtRest;
    var s', t := Apply(s, step), step.t;
    StepMoves(s, step);
    forall u: Thread, v: Thread, st: Stream | WorksOn(PcOf(s', u), st) && WorksOn(PcOf(s', v), st)
      ensures u == v
    {
      StepOnSettled(s, step, st);
      if u != t {
        OthersWork(s, s', t, u, st);
        assert Busy(s, st);
      }
      if v != t {
        OthersWork(s, s', t, v, st);
        assert Busy(s, st);
      }
    }
  }

  lemma StepPositions(s: State, step: Step)
    requires Settled(s) && Enabled(s, step) && Disciplined(s, step)
    ensures Positions(Apply(s, step))
  {
    hide Apply, WorksOn, CountedAt;
    var s', t := Apply(s, step), step.t;
    StepMoves(s, step);
    forall u: Thread, st: Stream | WorksOn(PcOf(s', u), st)
      ensures Fits(s'.sh, PcOf(s', u), st)
    {
      StepOnSettled(s, step, st);
      if u != t {
        OthersWork(s, s', t, u, st);
        assert Busy(s, st);
      }
    }
  }

  lemma StepAtRest(s: State, step: Step)
    requires Settled(s) && Enabled(s, step) && Disciplined(s, step)
    ensures AtRest(Apply(s, step))
  {
    hide Apply, WorksOn, CountedAt, Positions;
    var s', t := Apply(s, step), step.t;
    StepMoves(s, step);
    forall st: Stream | !Busy(s', st)
      ensures st in s'.sh.attached <==> st in s'.sh.counted
    {
      StepOnSettled(s, step, st);
      assert !WorksOn(PcOf(s', t), st);
      if !WorksOn(PcOf(s, t), st) {
        StaysIdle(s, s', t, st);
      }
    }
  }

  lemma StaysIdle(s: State, s': State, t: Thread, st: Stream)
    requires Moves(s, s', t) && !Busy(s', st) && !WorksOn(PcOf(s, t), st)
    ensures !Busy(s, st)
  {
    hide WorksOn;
    forall u: Thread
      ensures !WorksOn(PcOf(s, u), st)
    {
      if u != t {
        OthersWork(s, s', t, u, st);
      }
    }
  }

  // ----- every step keeps it: the counter

  lemma RemoveOne(a: set<Stream>, x: Stream)
    ensures |a| == |a - {x}| + if x in a then 1 else 0
  {
    if x in a {
      assert a == (a - {x}) + {x};
    } else {
      assert a == a - {x};
    }
  }

  lemma Modulo(n: nat)
    ensures Increment(n % 0x1_0000_0000) == (n + 1) % 0x1_0000_0000 != n % 0x1_0000_0000
    ensures Decrement((n + 1) % 0x1_0000_0000) == n % 0x1_0000_0000
    ensures Decrement(n % 0x1_0000_0000) != n % 0x1_0000_0000
  {
  }

  /** An increment keeps the counter right exactly when the stream was not counted ... */
  lemma IncrementIsExact(sh: Shared, st: Stream)
    requires Exact(sh)
    ensures Exact(sh.(streams := Increment(sh.streams), counted := sh.counted + {st})) <==> st !in sh.counted
  {
    hide Increment;
    Modulo(|sh.counted|);
    if st in sh.counted {
      assert sh.counted + {st} == sh.counted;
    }
  }

  /** ... and a decrement exactly when it was. */
  lemma DecrementIsExact(sh: Shared, st: Stream)
    requires Exact(sh)
    ensures Exact(sh.(streams := Decrement(sh.streams), counted := sh.counted - {st})) <==> st in sh.counted
  {
    hide Decrement;
    RemoveOne(sh.counted, st);
    Modulo(|sh.counted|);
    Modulo(|sh.counted - {st}|);
  }

  /** So the counter stays right exactly unless a thread increments for a counted stream or decrements for
      another. */
  predicate BreaksCounter(sh: Shared, pc: Pc, step: Step) {
    step.Advance? && pc.Inside? && InSection(pc) && (pc.at.st in sh.counted) != CountedAt(pc)
  }

  lemma EffectCounts(sh: Shared, pc: Pc, step: Step)
    requires CanStep(sh, pc, step) && Exact(sh)
    ensures Exact(EffectOf(sh, pc, step).sh) <==> !BreaksCounter(sh, pc, step)
  {
    if step.Advance? && pc.Inside? && InSection(pc) {
      IncrementIsExact(sh, pc.at.st);
      DecrementIsExact(sh, pc.at.st);
    }
  }

  lemma StepCounter(s: State, step: Step)
    requires Positions(s) && Exact(s.sh) && Enabled(s, step)
    ensures Exact(Apply(s, step).sh)
  {
    hide EffectOf, Exact;
    var pc := PcOf(s, step.t);
    EffectCounts(s.sh, pc, step);
    if pc.Inside? && InSection(pc) {
      assert WorksOn(pc, pc.at.st);
    }
  }

  lemma StepKeeps(s: State, step: Step)
    requires Inv(s) && Enabled(s, step) && Disciplined(s, step)
    ensures Inv(Apply(s, step))
  {
    hide Apply, Exact, OneWorker, Positions, AtRest, Locks;
    assert Settled(s);
    StepLocks(s, step);
    StepOneWorker(s, step);
    StepPositions(s, step);
    StepAtRest(s, step);
    StepCounter(s, step);
  }

  lemma InitialInv()
    ensures Inv(Initial) && Sleepers(Initial)
  {
  }

  lemma {:induction false} RunsKeep(states: seq<State>, steps: seq<Step>, i: nat)
    requires IsDisciplinedRun(states, steps) && i < |states|
    ensures Inv(states[i])
  {
    if i == 0 {
      InitialInv();
    } else {
      RunsKeep(states, steps, i - 1);
      assert Enabled(states[i - 1], steps[i - 1]) && states[i - 1 + 1] == Apply(states[i - 1], steps[i - 1]);
      StepKeeps(states[i - 1], steps[i - 1]);
    }
  }

  // ----- every step keeps it: the sleepers

  /** The increment does not wrap around. */
  predicate HasRoom(sh: Shared, pc: Pc) {
    pc.Inside? && pc.at.Count? ==> sh.streams + 1 < TWO_32
  }

  /** Whoever makes the stop condition true must broadcast next, the thread that must broadcast does, and a
      thread falls asleep only while it should. */
  lemma EffectWakes(sh: Shared, pc: Pc, step: Step)
    requires CanStep(sh, pc, step) && HasRoom(sh, pc)
    ensures var e := EffectOf(sh, pc, step);
            && (ShouldSleep(sh) ==> ShouldSleep(e.sh) || e.pc.Signal?)
            && (pc.Signal? ==> e.wake && !e.pc.Asleep?)
            && (e.pc.Asleep? ==> ShouldSleep(e.sh))
  {
  }

  lemma StepSleepers(s: State, step: Step)
    requires Sleepers(s) && Enabled(s, step) && HasRoom(s.sh, PcOf(s, step.t))
    ensures Sleepers(Apply(s, step))
  {
    EffectWakes(s.sh, PcOf(s, step.t), step);
    StepMoves(s, step);
    hide EffectOf, CanStep, HasRoom, ShouldSleep;
    var s' := Apply(s, step);
    forall u: Thread | PcOf(s', u).Asleep?
      ensures ShouldSleep(s'.sh) || exists v: Thread :: PcOf(s', v).Signal?
    {
      if u != step.t && !ShouldSleep(s.sh) {
        assert PcOf(s, u).Asleep?;
        var v: Thread :| PcOf(s, v).Signal?;
        assert PcOf(s', v).Signal?;
      } else if u != step.t && !ShouldSleep(s'.sh) {
        assert PcOf(s', step.t).Signal?;
      }
    }
  }

  /** The counter has room as long as fewer than 2^32 streams are counted after the step. */
  lemma CounterHasRoom(s: State, step: Step)
    requires Positions(s) && Exact(s.sh) && Enabled(s, step) && |Apply(s, step).sh.counted| < TWO_32
    ensures HasRoom(s.sh, PcOf(s, step.t))
  {
    var pc := PcOf(s, step.t);
    if pc.Inside? && pc.at.Count? {
      assert WorksOn(pc, pc.at.st);
    }
  }

  lemma {:induction false} RunsSleep(states: seq<State>, steps: seq<Step>, i: nat)
    requires IsDisciplinedRun(states, steps) && i < |states|
    requires forall k | 0 <= k <= i :: |states[k].sh.counted| < TWO_32
    ensures Sleepers(states[i])
  {
    hide Apply, Inv;
    if i == 0 {
      InitialInv();
    } else {
      RunsSleep(states, steps, i - 1);
      RunsKeep(states, steps, i - 1);
      assert Enabled(states[i - 1], steps[i - 1]) && states[i - 1 + 1] == Apply(states[i - 1], steps[i - 1]);
      CounterHasRoom(states[i - 1], steps[i - 1]);
      StepSleepers(states[i - 1], steps[i - 1]);
    }
  }

  // ----- what the monitor promises

  /** In every interleaving the counter is the number of counted streams modulo 2^32, and at most one thread is
      inside `dq_lock`. If there never were 2^32 counted streams at once, then nobody is asleep when that lock
      is free and the wait should end. */
  lemma MonitorIsSafe(states: seq<State>, steps: seq<Step>, i: nat)
    requires IsDisciplinedRun(states, steps) && i < |states|
    ensures var s := states[i];
            && s.sh.streams == |s.sh.counted| % TWO_32
            && (forall t: Thread, u: Thread | HoldsDq(PcOf(s, t)) && HoldsDq(PcOf(s, u)) :: t == u)
            && ((forall k | 0 <= k <= i :: |states[k].sh.counted| < TWO_32) && s.sh.dqLock == Free && !ShouldSleep(s.sh)
                ==> forall t: Thread :: !PcOf(s, t).Asleep?)
  {
    RunsKeep(states, steps, i);
    var s := states[i];
    if (forall k | 0 <= k <= i :: |states[k].sh.counted| < TWO_32) && s.sh.dqLock == Free {
      RunsSleep(states, steps, i);
      forall t: Thread
        ensures !PcOf(s, t).Signal?
      {
        assert HoldsDq(PcOf(s, t)) <==> s.sh.dqLock == By(t);
      }
    }
  }

  /** A thread blocks on a lock that another thread holds. */
  ghost predicate Blocked(s: State, t: Thread) {
    || (PcOf(s, t).Want? && s.sh.dqLock != Free)
    || (WantsRuntime(PcOf(s, t)) && s.sh.runtime != Free)
  }

  /** A thread that holds `dq_lock` never waits for the runtime lock, so the two cannot deadlock: when a thread
      is blocked, the holder of the lock, or the holder of the lock that one waits for, can go on. */
  lemma NoDeadlock(s: State, t: Thread) returns (u: Thread, step: Step)
    requires Locks(s) && Blocked(s, t)
    ensures u != t && step.t == u && Enabled(s, step)
    ensures step == Leave(u) || step == LockDq(u) || step == Advance(u, true) || step == CallbackReturns(u)
    ensures s.sh.runtime == By(u) || s.sh.dqLock == By(u)
  {
    if PcOf(s, t).Want? {
      u := s.sh.dqLock.t;
      assert HoldsDq(PcOf(s, u));
      step := Advance(u, true);
    } else {
      u := s.sh.runtime.t;
      assert HoldsRuntime(PcOf(s, u));
      if PcOf(s, u).Want? && s.sh.dqLock != Free {
        u := s.sh.dqLock.t;
        assert HoldsDq(PcOf(s, u));
        step := Advance(u, true);
      } else if PcOf(s, u).Want? {
        step := LockDq(u);
      } else if PcOf(s, u).Ocaml? {
        step := Leave(u);
      } else if PcOf(s, u).Calling? {
        step := CallbackReturns(u);
      } else {
        step := Advance(u, true);
      }
    }
  }

  /** How many steps a thread inside `dq_lock` still takes before it is free. */
  function Remaining(pc: Pc): nat {
    if pc.Inside? then 3 else if pc.Signal? then 2 else if pc.Done? then 1 else 0
  }

  /** The holder of `dq_lock` is never blocked, nobody else can move it or take the lock from it, and each of its
      own steps brings it closer to the unlock: it leaves after at most three. */
  lemma LockIsReleased(s: State, step: Step, t: Thread)
    requires Locks(s) && Enabled(s, step) && s.sh.dqLock == By(t)
    ensures Enabled(s, Advance(t, true)) && 0 < Remaining(PcOf(s, t)) <= 3
    ensures step.t == t ==> Remaining(PcOf(Apply(s, step), t)) < Remaining(PcOf(s, t))
    ensures step.t != t ==> PcOf(Apply(s, step), t) == PcOf(s, t) && Apply(s, step).sh.dqLock == By(t)
    ensures Apply(s, step).sh.dqLock == if Remaining(PcOf(Apply(s, step), t)) == 0 then Free else By(t)
  {
    assert HoldsDq(PcOf(s, t));
    assert HoldsDq(PcOf(s, step.t)) <==> s.sh.dqLock == By(step.t);
    StepMoves(s, step);
    PassesDq(s.sh, PcOf(s, step.t), step);
    if step.t == t {
      HolderLeaves(s.sh, PcOf(s, t), step);
    }
    hide EffectOf;
  }

  lemma HolderLeaves(sh: Shared, pc: Pc, step: Step)
    requires CanStep(sh, pc, step) && HoldsDq(pc)
    ensures Remaining(EffectOf(sh, pc, step).pc) < Remaining(pc)
  {
  }

  /** The `dq` field of a stream is set as long as the stream is counted or a thread is starting or stopping it,
      and not otherwise. */
  lemma FieldIsSet(s: State, st: Stream)
    requires Inv(s)
    ensures st in s.sh.attached <==> st in s.sh.counted || Busy(s, st)
  {
    hide WorksOn, CountedAt, Locks, Exact;
    if Busy(s, st) {
      var t: Thread :| WorksOn(PcOf(s, t), st);
    }
  }

  /** So a callback may raise exactly when the stream was counted or being started or stopped at the moment the
      callback read the field, whatever happens to the stream before it raises. */
  lemma CallbackFindsQueue(s: State, t: Thread, st: Stream)
    requires Inv(s) && PcOf(s, t).Ocaml?
    ensures PcOf(Apply(s, CallbackReads(t, st)), t) == Calling(st in s.sh.counted || Busy(s, st))
  {
    FieldIsSet(s, st);
    hide Busy;
  }

  /** Nobody else can change what it has read. */
  lemma FoundStays(s: State, step: Step, t: Thread)
    requires Enabled(s, step) && (PcOf(s, t).Calling? || PcOf(s, t).Suspended?)
    ensures var pc, pc' := PcOf(s, t), PcOf(Apply(s, step), t);
            if pc'.Calling? || pc'.Suspended? then pc'.found == pc.found
            else step == CallbackReturns(t) || (step == CallbackRaises(t) && pc.found)
  {
    StepMoves(s, step);
  }

  // ----- the discipline is exactly what the counter needs

  /** The steps can be taken one after another, every call among them within the discipline. */
  ghost predicate Goes(s: State, steps: seq<Step>)
    decreases |steps|
  {
    steps == [] ||
    (Enabled(s, steps[0]) && Disciplined(s, steps[0]) && Goes(Apply(s, steps[0]), steps[1..]))
  }

  ghost function After(s: State, steps: seq<Step>): State
    requires Goes(s, steps)
    decreases |steps|
  {
    if steps == [] then s else After(Apply(s, steps[0]), steps[1..])
  }

  /** Some disciplined continuation makes the counter wrong. */
  ghost predicate Harmed(s: State) {
    exists steps: seq<Step> :: Goes(s, steps) && !Exact(After(s, steps).sh)
  }

  lemma HarmedNow(s: State)
    requires !Exact(s.sh)
    ensures Harmed(s)
  {
    ghost var none: seq<Step> := [];
    assert Goes(s, none) && After(s, none) == s;
  }

  lemma HarmedBefore(s: State, step: Step)
    requires Enabled(s, step) && Disciplined(s, step) && Harmed(Apply(s, step))
    ensures Harmed(s)
  {
    hide Enabled, Disciplined, Apply, Exact;
    var steps: seq<Step> :| Goes(Apply(s, step), steps) && !Exact(After(Apply(s, step), steps).sh);
    var more := [step] + steps;
    assert more[0] == step && more[1..] == steps;
    assert Goes(s, more) && After(s, more) == After(Apply(s, step), steps);
  }

  lemma {:induction false} NoHarm(s: State, steps: seq<Step>)
    requires Inv(s) && Goes(s, steps)
    ensures Exact(After(s, steps).sh)
    decreases |steps|
  {
    hide Apply, Exact, Locks, Positions, AtRest, OneWorker;
    if steps != [] {
      StepKeeps(s, steps[0]);
      NoHarm(Apply(s, steps[0]), steps[1..]);
    }
  }

  // A thread that enters its section with the stream in the wrong state breaks the counter.

  lemma BreakNow(s: State, t: Thread)
    requires Exact(s.sh) && s.sh.dqLock == Free && PcOf(s, t).Want? && InSection(PcOf(s, t))
    requires (PcOf(s, t).at.st in s.sh.counted) != CountedAt(PcOf(s, t))
    ensures Harmed(s)
  {
    hide Exact, Harmed;
    var s1 := Apply(s, LockDq(t));
    var step := Advance(t, true);
    assert PcOf(s1, t) == Inside(PcOf(s, t).at) && s1.sh.counted == s.sh.counted;
    SameCounter(s.sh, s1.sh);
    EffectCounts(s1.sh, PcOf(s1, t), step);
    HarmedNow(Apply(s1, step));
    HarmedBefore(s1, step);
    HarmedBefore(s, LockDq(t));
  }

  lemma SameCounter(a: Shared, b: Shared)
    requires a.streams == b.streams && a.counted == b.counted
    ensures Exact(a) <==> Exact(b)
  {
  }

  /** A thread with a fitting stream goes through its section undisturbed. */
  lemma PassThrough(s: State, t: Thread) returns (s': State)
    requires Exact(s.sh) && s.sh.dqLock == Free && PcOf(s, t).Want? && (PcOf(s, t).at.Count? || PcOf(s, t).at.Uncount?)
    requires PcOf(s, t).at.st in s.sh.counted <==> CountedAt(PcOf(s, t))
    ensures Harmed(s') ==> Harmed(s)
    ensures Exact(s'.sh) && s'.sh.dqLock == Free && Moves(s, s', t) && PcOf(s', t) == Back(PcOf(s, t).at)
    ensures s'.sh.runtime == s.sh.runtime && s'.sh.attached == s.sh.attached
    ensures PcOf(s, t).at.st in s'.sh.counted <==> PcOf(s, t).at.st !in s.sh.counted
  {
    hide Exact, Harmed;
    var at := PcOf(s, t).at;
    var step := Advance(t, true);
    var s1 := Apply(s, LockDq(t));
    SameCounter(s.sh, s1.sh);
    assert PcOf(s1, t) == Inside(at) && s1.sh == s.sh.(dqLock := By(t));
    var s2 := Apply(s1, step);
    EffectCounts(s1.sh, PcOf(s1, t), step);
    BodyOf(s1.sh, at);
    StepMoves(s, LockDq(t));
    StepMoves(s1, step);
    s' := LeaveSection(s2, t, at);
    SameCounter(s2.sh, s'.sh);
    if Harmed(s') {
      HarmedBefore(s1, step);
      HarmedBefore(s, LockDq(t));
    }
  }

  lemma BodyOf(sh: Shared, at: Section)
    requires at.Count? || at.Uncount?
    ensures var e := Body(sh, at);
            && (e.pc == Done(at) || e.pc == Signal(at)) && !e.wake
            && e.sh == sh.(streams := e.sh.streams, counted := e.sh.counted)
            && (at.st in e.sh.counted <==> at.Count?)
  {
  }

  /** From behind the statements to behind the unlock. */
  lemma LeaveSection(s: State, t: Thread, at: Section) returns (s': State)
    requires (PcOf(s, t) == Done(at) || PcOf(s, t) == Signal(at)) && (at.Count? || at.Uncount?)
    ensures Harmed(s') ==> Harmed(s)
    ensures Moves(s, s', t) && PcOf(s', t) == Back(at) && s'.sh == s.sh.(dqLock := Free)
    decreases Remaining(PcOf(s, t))
  {
    hide Exact, Harmed;
    var step := Advance(t, true);
    var s1 := Apply(s, step);
    StepMoves(s, step);
    if PcOf(s, t).Signal? {
      s' := LeaveSection(s1, t, at);
    } else {
      s' := s1;
    }
    if Harmed(s') {
      HarmedBefore(s, step);
    }
  }

  // After a call outside the discipline: everybody but the caller is as the invariant says.

  /** A thread other than `t` is right about its stream. */
  ghost predicate OthersFit(s: State, t: Thread) {
    forall u: Thread, st: Stream | u != t && WorksOn(PcOf(s, u), st) ::
      st in s.sh.counted <==> CountedAt(PcOf(s, u))
  }

  ghost predicate OthersAlone(s: State, t: Thread) {
    forall u: Thread, v: Thread, st: Stream
      | u != t && v != t && WorksOn(PcOf(s, u), st) && WorksOn(PcOf(s, v), st) :: u == v
  }

  /** `t` waits for the lock, and nobody has the runtime lock. */
  ghost predicate Aftermath(s: State, t: Thread) {
    Locks(s) && Exact(s.sh) && OthersFit(s, t) && OthersAlone(s, t) && s.sh.runtime == Free && PcOf(s, t).Want?
  }

  /** With the runtime lock free, whoever holds `dq_lock` is counting, uncounting or checking, and goes on to
      wait for the runtime lock or to sleep. */
  lemma HolderGoesOn(sh: Shared, pc: Pc, v: Thread, st: Stream)
    requires HoldsDq(pc) && !HoldsRuntime(pc)
    requires WorksOn(pc, st) ==> (st in sh.counted <==> CountedAt(pc))
    ensures CanStep(sh, pc, Advance(v, true))
    ensures var e := EffectOf(sh, pc, Advance(v, true));
            && e.sh.runtime == sh.runtime && !HoldsRuntime(e.pc)
            && (WorksOn(e.pc, st) <==> WorksOn(pc, st))
            && (WorksOn(pc, st) ==> (st in e.sh.counted <==> CountedAt(e.pc)))
            && (!WorksOn(pc, st) ==> (st in e.sh.counted <==> st in sh.counted))
  {
  }

  /** One step of the holder of `dq_lock` keeps all this. */
  lemma HolderStep(s: State, t: Thread) returns (v: Thread, s': State)
    requires Aftermath(s, t) && s.sh.dqLock != Free
    ensures v != t && s.sh.dqLock == By(v) && Enabled(s, Advance(v, true)) && s' == Apply(s, Advance(v, true))
    ensures Aftermath(s', t) && PcOf(s', t) == PcOf(s, t)
    ensures s'.sh.dqLock != Free ==> s'.sh.dqLock == By(v)
    ensures Remaining(PcOf(s', v)) < Remaining(PcOf(s, v))
    ensures forall u: Thread, st: Stream | u != t :: WorksOn(PcOf(s', u), st) <==> WorksOn(PcOf(s, u), st)
    ensures forall st: Stream | !WorksOn(PcOf(s, v), st) :: st in s'.sh.counted <==> st in s.sh.counted
  {
    v := s.sh.dqLock.t;
    var step := Advance(v, true);
    assert HoldsDq(PcOf(s, v)) && !HoldsRuntime(PcOf(s, v));
    assert !HoldsDq(PcOf(s, t));
    s' := Apply(s, step);
    LockIsReleased(s, step, v);
    StepLocks(s, step);
    HolderGoesOn(s.sh, PcOf(s, v), v, 0);
    HolderCounts(s, t, v);
    HolderOthers(s, s', t, v);
  }

  lemma HolderCounts(s: State, t: Thread, v: Thread)
    requires Exact(s.sh) && OthersFit(s, t) && v != t && HoldsDq(PcOf(s, v))
    ensures Exact(Apply(s, Advance(v, true)).sh)
  {
    hide EffectOf, Exact;
    var pc := PcOf(s, v);
    EffectCounts(s.sh, pc, Advance(v, true));
    if pc.Inside? && InSection(pc) {
      assert WorksOn(pc, pc.at.st);
    }
  }

  lemma HolderOthers(s: State, s': State, t: Thread, v: Thread)
    requires OthersFit(s, t) && OthersAlone(s, t) && v != t && PcOf(s, t).Want?
    requires HoldsDq(PcOf(s, v)) && !HoldsRuntime(PcOf(s, v)) && s' == Apply(s, Advance(v, true))
    ensures OthersFit(s', t) && OthersAlone(s', t) && PcOf(s', t) == PcOf(s, t)
    ensures forall u: Thread, st: Stream | u != t :: WorksOn(PcOf(s', u), st) <==> WorksOn(PcOf(s, u), st)
    ensures forall st: Stream | !WorksOn(PcOf(s, v), st) :: st in s'.sh.counted <==> st in s.sh.counted
  {
    StepMoves(s, Advance(v, true));
    forall u: Thread, st: Stream | u != t
      ensures WorksOn(PcOf(s', u), st) <==> WorksOn(PcOf(s, u), st)
      ensures WorksOn(PcOf(s', u), st) ==> (st in s'.sh.counted <==> CountedAt(PcOf(s', u)))
    {
      HolderOnStream(s, s', t, v, u, st);
    }
    forall st: Stream | !WorksOn(PcOf(s, v), st)
      ensures st in s'.sh.counted <==> st in s.sh.counted
    {
      HolderGoesOn(s.sh, PcOf(s, v), v, st);
    }
    hide Apply;
  }

  lemma HolderOnStream(s: State, s': State, t: Thread, v: Thread, u: Thread, st: Stream)
    requires OthersFit(s, t) && OthersAlone(s, t) && v != t && u != t && Moves(s, s', v)
    requires HoldsDq(PcOf(s, v)) && !HoldsRuntime(PcOf(s, v)) && s' == Apply(s, Advance(v, true))
    ensures WorksOn(PcOf(s', u), st) <==> WorksOn(PcOf(s, u), st)
    ensures WorksOn(PcOf(s', u), st) ==> (st in s'.sh.counted <==> CountedAt(PcOf(s', u)))
  {
    HolderGoesOn(s.sh, PcOf(s, v), v, st);
    hide EffectOf, WorksOn, CountedAt;
    if u != v {
      OthersWork(s, s', v, u, st);
    }
  }

  /** Both locks free: another thread that works on a stream waits for one of them. */
  lemma WaitsFor(s: State, u: Thread, st: Stream)
    requires Locks(s) && s.sh.dqLock == Free && s.sh.runtime == Free && WorksOn(PcOf(s, u), st)
    ensures var pc := PcOf(s, u);
            pc == Want(Count(st)) || pc == Back(Count(st)) || pc == Want(Uncount(st)) || pc == Back(Uncount(st))
  {
    assert !HoldsDq(PcOf(s, u)) && !HoldsRuntime(PcOf(s, u));
  }

  /** The stream is uncounted, and a thread still expects it to be counted. */
  lemma UncountsAgain(s: State, u: Thread, st: Stream)
    requires Exact(s.sh) && s.sh.dqLock == Free && s.sh.runtime == Free && st !in s.sh.counted
    requires PcOf(s, u) == Want(Uncount(st)) || PcOf(s, u) == Back(Count(st))
    ensures Harmed(s)
  {
    hide Exact, Harmed;
    if PcOf(s, u).Want? {
      BreakNow(s, u);
    } else {
      var s1 := Apply(s, TakeRuntime(u));
      var s2 := Apply(s1, Advance(u, false));
      SameCounter(s.sh, s2.sh);
      BreakNow(s2, u);
      HarmedBefore(s1, Advance(u, false));
      HarmedBefore(s, TakeRuntime(u));
    }
  }

  /** The stream is counted, and a thread is about to count it or to clear its `dq` field. */
  lemma CountsAgain(s: State, u: Thread, st: Stream)
    requires Exact(s.sh) && s.sh.dqLock == Free && s.sh.runtime == Free && st in s.sh.counted
    requires PcOf(s, u) == Want(Count(st)) || PcOf(s, u) == Back(Uncount(st))
    ensures Harmed(s)
  {
    hide Exact, Harmed;
    if PcOf(s, u).Want? {
      BreakNow(s, u);
    } else {
      var s1 := Apply(s, TakeRuntime(u));
      assert st !in s1.sh.attached;
      var s2 := Apply(s1, CallStart(u, st));
      SameCounter(s.sh, s2.sh);
      BreakNow(s2, u);
      HarmedBefore(s1, CallStart(u, st));
      HarmedBefore(s, TakeRuntime(u));
    }
  }

  /** A stop while another thread is starting or stopping the stream. */
  lemma {:induction false} StopHarms(s: State, t: Thread, u: Thread, st: Stream)
    requires Aftermath(s, t) && PcOf(s, t) == Want(Uncount(st)) && u != t && WorksOn(PcOf(s, u), st)
    ensures Harmed(s)
    decreases if s.sh.dqLock == Free then 0 else Remaining(PcOf(s, s.sh.dqLock.t))
  {
    hide Exact, Harmed;
    if s.sh.dqLock != Free {
      var v, s' := HolderStep(s, t);
      hide Apply;
      StopHarms(s', t, u, st);
      HarmedBefore(s, Advance(v, true));
    } else {
      WaitsFor(s, u, st);
      if st !in s.sh.counted {
        BreakNow(s, t);
      } else {
        var s' := PassThrough(s, t);
        UncountsAgain(s', u, st);
      }
    }
  }

  /** A start of a stream that is counted, or that another thread is starting or stopping. */
  lemma {:induction false} StartHarms(s: State, t: Thread, u: Thread, st: Stream)
    requires Aftermath(s, t) && PcOf(s, t) == Want(Count(st))
    requires st in s.sh.counted || (u != t && WorksOn(PcOf(s, u), st))
    ensures Harmed(s)
    decreases if s.sh.dqLock == Free then 0 else Remaining(PcOf(s, s.sh.dqLock.t))
  {
    hide Exact, Harmed;
    if s.sh.dqLock != Free {
      var v, s' := HolderStep(s, t);
      hide Apply;
      StartHarms(s', t, if WorksOn(PcOf(s, v), st) then v else u, st);
      HarmedBefore(s, Advance(v, true));
    } else if st in s.sh.counted {
      BreakNow(s, t);
    } else {
      WaitsFor(s, u, st);
      var s' := PassThrough(s, t);
      CountsAgain(s', u, st);
    }
  }

  /** A call outside the discipline leaves everybody but the caller as the invariant says. */
  lemma CallAftermath(s: State, step: Step)
    requires Inv(s) && Enabled(s, step) && !Disciplined(s, step)
    ensures Aftermath(Apply(s, step), step.t)
    ensures PcOf(Apply(s, step), step.t) == if step.CallStart? then Want(Count(step.st)) else Want(Uncount(step.st))
    ensures forall u: Thread | u != step.t :: PcOf(Apply(s, step), u) == PcOf(s, u)
    ensures Apply(s, step).sh.counted == s.sh.counted && step.st in s.sh.attached
  {
    StepLocks(s, step);
    SameCounter(s.sh, Apply(s, step).sh);
    hide Exact, WorksOn, CountedAt;
  }

  lemma UndisciplinedHarms(s: State, step: Step)
    requires Inv(s) && Enabled(s, step) && !Disciplined(s, step)
    ensures Harmed(Apply(s, step))
  {
    CallAftermath(s, step);
    FieldIsSet(s, step.st);
    hide Apply, Harmed, Exact, CountedAt, Locks, AtRest, Positions, OneWorker;
    if Busy(s, step.st) {
      var u: Thread :| WorksOn(PcOf(s, u), step.st);
      assert !WorksOn(Ocaml, step.st);
      if step.CallStart? {
        StartHarms(Apply(s, step), step.t, u, step.st);
      } else {
        StopHarms(Apply(s, step), step.t, u, step.st);
      }
    } else {
      StartHarms(Apply(s, step), step.t, step.t, step.st);
    }
  }

  /** The discipline is exactly what the counter needs: after a disciplined run, a call keeps the counter right in
      every disciplined continuation if and only if it is within the discipline itself. */
  lemma DisciplineIsExact(states: seq<State>, steps: seq<Step>, step: Step)
    requires IsDisciplinedRun(states, steps) && Enabled(states[|steps|], step)
    ensures Disciplined(states[|steps|], step) <==> !Harmed(Apply(states[|steps|], step))
  {
    RunsKeep(states, steps, |steps|);
    var s := states[|steps|];
    hide Apply, IsDisciplinedRun, Locks, OneWorker, Positions, AtRest;
    if Disciplined(s, step) {
      StepKeeps(s, step);
      forall more: seq<Step> | Goes(Apply(s, step), more)
        ensures Exact(After(Apply(s, step), more).sh)
      {
        NoHarm(Apply(s, step), more);
      }
    } else {
      UndisciplinedHarms(s, step);
    }
  }

  // ----- two runs

  /** Some run ends in `s`; with `kept` it keeps the discipline. */
  ghost predicate Reachable(s: State, kept: bool) {
    exists states: seq<State>, steps: seq<Step> ::
      IsRun(states, steps) && (kept ==> IsDisciplinedRun(states, steps)) && states[|steps|] == s
  }

  lemma InitialIsReachable()
    ensures Reachable(Initial, true)
  {
    var states, steps: seq<Step> := [Initial], [];
    assert IsRun(states, steps) && IsDisciplinedRun(states, steps) && states[|steps|] == Initial;
  }

  lemma Extend(states: seq<State>, steps: seq<Step>, step: Step)
    requires IsRun(states, steps) && Enabled(states[|steps|], step)
    ensures IsRun(states + [Apply(states[|steps|], step)], steps + [step])
    ensures IsDisciplinedRun(states, steps) && Disciplined(states[|steps|], step) ==>
              IsDisciplinedRun(states + [Apply(states[|steps|], step)], steps + [step])
  {
    hide Enabled, Disciplined, Apply;
    var states', steps' := states + [Apply(states[|steps|], step)], steps + [step];
    forall i | 0 <= i < |steps'|
      ensures Enabled(states'[i], steps'[i]) && states'[i + 1] == Apply(states'[i], steps'[i])
    {
      if i < |steps| {
        assert Enabled(states[i], steps[i]) && states[i + 1] == Apply(states[i], steps[i]);
      }
    }
  }

  lemma ReachNext(s: State, step: Step, kept: bool) returns (s': State)
    requires Reachable(s, kept) && Enabled(s, step) && (kept ==> Disciplined(s, step))
    ensures s' == Apply(s, step) && Reachable(s', kept)
  {
    hide Apply, Enabled, Disciplined;
    s' := Apply(s, step);
    var states: seq<State>, steps: seq<Step> :|
      IsRun(states, steps) && (kept ==> IsDisciplinedRun(states, steps)) && states[|steps|] == s;
    Extend(states, steps, step);
    assert (states + [s'])[|steps + [step]|] == s';
  }

  lemma ForgetDiscipline(s: State)
    requires Reachable(s, true)
    ensures Reachable(s, false)
  {
    var states: seq<State>, steps: seq<Step> :|
      IsRun(states, steps) && IsDisciplinedRun(states, steps) && states[|steps|] == s;
  }

  lemma OneCounting() returns (s: State)
    ensures Reachable(s, true)
    ensures s == State(map[0 := Inside(Count(7))], Shared(Free, By(0), 0, false, {7}, {}))
  {
    hide Reachable;
    InitialIsReachable();
    s := ReachNext(Initial, TakeRuntime(0), true);
    s := ReachNext(s, CallStart(0, 7), true);
    s := ReachNext(s, LockDq(0), true);
  }

  lemma OneStarted() returns (s: State)
    ensures Reachable(s, true)
    ensures s == State(map[0 := Ocaml], Shared(By(0), Free, 1, false, {7}, {7}))
  {
    hide Reachable;
    s := OneCounting();
    s := ReachNext(s, Advance(0, true), true);
    s := ReachNext(s, Advance(0, true), true);
    s := ReachNext(s, TakeRuntime(0), true);
    s := ReachNext(s, Advance(0, true), true);
  }

  lemma TwoStopping() returns (s: State)
    ensures Reachable(s, false)
    ensures s == State(map[0 := Want(Uncount(7)), 1 := Want(Uncount(7))], Shared(Free, Free, 1, false, {7}, {7}))
  {
    hide Reachable;
    s := OneStarted();
    ForgetDiscipline(s);
    s := ReachNext(s, CallStop(0, 7), false);
    s := ReachNext(s, TakeRuntime(1), false);
    s := ReachNext(s, CallStop(1, 7), false);
  }

  /** Outside the discipline, two threads can both stop a stream before either has cleared its `dq` field. The
      counter is then decremented twice and wraps around: no stream is counted, yet a waiter would sleep. */
  lemma TwoStopsWrap() returns (s: State)
    ensures Reachable(s, false) && s.sh.streams == TWO_32 - 1 && s.sh.counted == {}
  {
    hide Reachable;
    s := TwoStopping();
    s := ReachNext(s, LockDq(0), false);
    s := ReachNext(s, Advance(0, true), false);
    s := ReachNext(s, Advance(0, true), false);
    s := ReachNext(s, Advance(0, true), false);
    s := ReachNext(s, LockDq(1), false);
    s := ReachNext(s, Advance(1, true), false);
  }

  lemma OneStopping() returns (s: State)
    ensures Reachable(s, true)
    ensures s == State(map[0 := Inside(Uncount(7))], Shared(Free, By(0), 1, false, {7}, {7}))
  {
    hide Reachable;
    s := OneStarted();
    assert forall t: Thread :: !WorksOn(PcOf(s, t), 7);
    s := ReachNext(s, CallStop(0, 7), true);
    s := ReachNext(s, LockDq(0), true);
  }

  /** Within the discipline, a callback that gets the runtime lock only after its stream was stopped finds the
      `dq` field of the stream null, and has no lock to take when it raises. */
  lemma LateCallback() returns (s: State)
    ensures Reachable(s, true) && PcOf(s, 1) == Calling(false) && !Enabled(s, CallbackRaises(1))
  {
    hide Reachable;
    s := OneStopping();
    s := ReachNext(s, Advance(0, true), true);
    s := ReachNext(s, Advance(0, true), true);
    s := ReachNext(s, Advance(0, true), true);
    s := ReachNext(s, TakeRuntime(0), true);
    s := ReachNext(s, Leave(0), true);
    s := ReachNext(s, TakeRuntime(1), true);
    s := ReachNext(s, CallbackReads(1, 7), true);
  }
}
