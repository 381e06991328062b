/** The OCaml side of the macOS watcher (fsevents.ml): it calls the stubs of the monitor inside a critical section per
    stream, and thereby keeps their discipline. */
module Fsevents {
  import opened Monitor

  /** The state that fsevents.ml keeps for a stream. */
  datatype Mark = Fresh | Started | Stopped

  /** The monitor, the marks, and who is inside the critical section of each stream, that is, holds its mutex. */
  datatype Wrapper = Wrapper(s: State, marks: map<Stream, Mark>, owners: map<Stream, Thread>)

  datatype WrapperStep =
    | Acquire(t: Thread, st: Stream)
    | Release(t: Thread, st: Stream)
    | Stub(step: Step)

  function MarkOf(w: Wrapper, st: Stream): Mark {
    if st in w.marks then w.marks[st] else Fresh
  }

  predicate HoldsMutex(w: Wrapper, t: Thread, st: Stream) {
    st in w.owners && w.owners[st] == t
  }

  /** OCaml code takes and gives back the mutex of a stream, and calls start and stop only inside, in the right
      state. Everything else the monitor does is free. */
  predicate WrapperCan(w: Wrapper, step: WrapperStep) {
    match step
    case Acquire(t, st) => PcOf(w.s, t).Ocaml? && st !in w.owners
    case Release(t, st) => PcOf(w.s, t).Ocaml? && HoldsMutex(w, t, st)
    case Stub(CallStart(t, st)) => Enabled(w.s, step.step) && HoldsMutex(w, t, st) && MarkOf(w, st) == Fresh
    case Stub(CallStop(t, st)) => Enabled(w.s, step.step) && HoldsMutex(w, t, st) && MarkOf(w, st) == Started
    case Stub(inner) => Enabled(w.s, inner)
  }

  /** A stream is marked as stopped before it is stopped, and as started when its start has succeeded. */
  function MarksAfter(pc: Pc, marks: map<Stream, Mark>, step: Step): map<Stream, Mark> {
    if step.CallStop? then marks[step.st := Stopped]
    else if step.Advance? && step.started && pc.Starting? then marks[pc.stream := Started]
    else marks
  }

  function WrapperApply(w: Wrapper, step: WrapperStep): Wrapper
    requires WrapperCan(w, step)
  {
    match step
    case Acquire(t, st) => w.(owners := w.owners[st := t])
    case Release(t, st) => w.(owners := w.owners - {st})
    case Stub(inner) => w.(s := Apply(w.s, inner), marks := MarksAfter(PcOf(w.s, inner.t), w.marks, inner))
  }

  ghost predicate IsWrapperRun(ws: seq<Wrapper>, steps: seq<WrapperStep>) {
    && |ws| == |steps| + 1 && ws[0] == Wrapper(Initial, map[], map[])
    && forall i | 0 <= i < |steps| :: WrapperCan(ws[i], steps[i]) && ws[i + 1] == WrapperApply(ws[i], steps[i])
  }

  /** Whoever starts or stops a stream is inside its critical section. */
  ghost predicate WorkersInside(w: Wrapper) {
    forall t: Thread, st: Stream | WorksOn(PcOf(w.s, t), st) :: HoldsMutex(w, t, st)
  }

  /** A stream that is attached while nobody works on it is marked as started. */
  ghost predicate Marked(w: Wrapper) {
    forall st: Stream | st in w.s.sh.attached && !Busy(w.s, st) :: MarkOf(w, st) == Started
  }

  /** The mutex keeps a caller alone with its stream: this is where the discipline comes from. */
  lemma MutexMakesAlone(w: Wrapper, t: Thread, st: Stream)
    requires WorkersInside(w) && HoldsMutex(w, t, st) && PcOf(w.s, t).Ocaml?
    ensures !Busy(w.s, st)
  {
    assert forall u: Thread | WorksOn(PcOf(w.s, u), st) :: u == t;
  }

  lemma CallIsDisciplined(w: Wrapper, step: Step)
    requires WorkersInside(w) && Marked(w) && WrapperCan(w, Stub(step))
    ensures Disciplined(w.s, step)
  {
    if step.CallStart? || step.CallStop? {
      MutexMakesAlone(w, step.t, step.st);
    }
    hide Busy, WorksOn;
  }

  /** Only the two calls begin work on a stream. */
  lemma BeginsWork(sh: Shared, pc: Pc, step: Step, st: Stream)
    requires CanStep(sh, pc, step) && WorksOn(EffectOf(sh, pc, step).pc, st) && !WorksOn(pc, st)
    ensures step == CallStart(step.t, st) || step == CallStop(step.t, st)
  {
  }

  lemma StepInside(w: Wrapper, step: WrapperStep)
    requires WorkersInside(w) && WrapperCan(w, step)
    ensures WorkersInside(WrapperApply(w, step))
  {
    var w' := WrapperApply(w, step);
    forall u: Thread, st: Stream | WorksOn(PcOf(w'.s, u), st)
      ensures HoldsMutex(w', u, st)
    {
      if step.Stub? {
        StubInside(w, step.step, u, st);
      } else {
        assert HoldsMutex(w, u, st);
      }
    }
  }

  lemma StubInside(w: Wrapper, step: Step, u: Thread, st: Stream)
    requires WorkersInside(w) && WrapperCan(w, Stub(step)) && WorksOn(PcOf(Apply(w.s, step), u), st)
    ensures HoldsMutex(w, u, st)
  {
    StepMoves(w.s, step);
    if u != step.t {
      OthersWork(w.s, Apply(w.s, step), step.t, u, st);
    } else if !WorksOn(PcOf(w.s, u), st) {
      BeginsWork(w.s.sh, PcOf(w.s, u), step, st);
    }
    hide EffectOf, WorksOn;
  }

  /** Only a start that succeeds leaves its stream attached. */
  lemma LeavesAttached(sh: Shared, pc: Pc, step: Step, marks: map<Stream, Mark>, st: Stream)
    requires CanStep(sh, pc, step)
    requires st in EffectOf(sh, pc, step).sh.attached && !WorksOn(EffectOf(sh, pc, step).pc, st)
    ensures WorksOn(pc, st) ==> MarksAfter(pc, marks, step) == marks[st := Started]
    ensures !WorksOn(pc, st) ==> st in sh.attached
    ensures !WorksOn(pc, st) && st in marks ==>
              st in MarksAfter(pc, marks, step) && MarksAfter(pc, marks, step)[st] == marks[st]
  {
  }

  lemma StepMarked(w: Wrapper, step: WrapperStep)
    requires Marked(w) && WrapperCan(w, step)
    ensures Marked(WrapperApply(w, step))
  {
    if step.Stub? {
      var inner, s, s' := step.step, w.s, Apply(w.s, step.step);
      StepMoves(s, inner);
      forall st: Stream | st in s'.sh.attached && !Busy(s', st)
        ensures MarkOf(WrapperApply(w, step), st) == Started
      {
        assert !WorksOn(PcOf(s', inner.t), st);
        LeavesAttached(s.sh, PcOf(s, inner.t), inner, w.marks, st);
        if !WorksOn(PcOf(s, inner.t), st) {
          StaysIdle(s, s', inner.t, st);
        }
      }
    }
  }

  /** Every run in which the stubs are called through fsevents.ml keeps the discipline: the monitor goes through the
      states of a disciplined run, and the next call is within the discipline. */
  lemma {:induction false} WrapperIsDisciplined(ws: seq<Wrapper>, steps: seq<WrapperStep>, i: nat)
    requires IsWrapperRun(ws, steps) && i < |ws|
    ensures WorkersInside(ws[i]) && Marked(ws[i]) && Reachable(ws[i].s, true)
    ensures i < |steps| && steps[i].Stub? ==> Disciplined(ws[i].s, steps[i].step)
  {
    hide Reachable, WorkersInside, Marked, Disciplined, Apply, MarksAfter;
    if i == 0 {
      InitialIsReachable();
      FirstWrapper();
    } else {
      WrapperIsDisciplined(ws, steps, i - 1);
      var w, step := ws[i - 1], steps[i - 1];
      assert WrapperCan(w, step) && ws[i - 1 + 1] == WrapperApply(w, step);
      StepInside(w, step);
      StepMarked(w, step);
      if step.Stub? {
        var s' := ReachNext(w.s, step.step, true);
      }
    }
    if i < |steps| && steps[i].Stub? {
      assert WrapperCan(ws[i], steps[i]);
      CallIsDisciplined(ws[i], steps[i].step);
    }
  }

  lemma FirstWrapper()
    ensures WorkersInside(Wrapper(Initial, map[], map[])) && Marked(Wrapper(Initial, map[], map[]))
  {
  }

  // ----- the marks are exact

  /** While a stream is being started or stopped its mark says which. */
  ghost predicate MarksOfWork(w: Wrapper) {
    forall t: Thread, st: Stream | WorksOn(PcOf(w.s, t), st) ::
      MarkOf(w, st) == if Stopping(PcOf(w.s, t)) then Stopped else Fresh
  }

  predicate Stopping(pc: Pc) {
    InSection(pc) && pc.at.Uncount?
  }

  /** A stream that is marked as started has its field set, and nobody works on it. */
  ghost predicate StartedIsAttached(w: Wrapper) {
    forall st: Stream | MarkOf(w, st) == Started :: st in w.s.sh.attached && !Busy(w.s, st)
  }

  /** What a step does to the mark of one stream. */
  lemma StubMarks(w: Wrapper, step: Step, st: Stream)
    requires WrapperCan(w, Stub(step))
    ensures var m, m' := MarkOf(w, st), MarkOf(WrapperApply(w, Stub(step)), st); var pc := PcOf(w.s, step.t);
            if step == CallStop(step.t, st) then m == Started && m' == Stopped
            else if step == Advance(step.t, true) && pc == Starting(st) then m' == Started
            else m' == m
  {
    hide Apply;
  }

  /** The position of the thread that moves. */
  lemma WorkGoesOn(sh: Shared, pc: Pc, step: Step, st: Stream)
    requires CanStep(sh, pc, step) && WorksOn(EffectOf(sh, pc, step).pc, st)
    requires step == CallStop(step.t, st) ==> st in sh.attached
    ensures step == CallStop(step.t, st) ==> Stopping(EffectOf(sh, pc, step).pc)
    ensures step == CallStart(step.t, st) ==> !Stopping(EffectOf(sh, pc, step).pc)
    ensures step != CallStop(step.t, st) && step != CallStart(step.t, st) ==>
              WorksOn(pc, st) && (Stopping(EffectOf(sh, pc, step).pc) <==> Stopping(pc))
    ensures !(step == Advance(step.t, true) && pc == Starting(st))
  {
  }

  lemma StepMarksOfWork(w: Wrapper, step: Step)
    requires WorkersInside(w) && MarksOfWork(w) && StartedIsAttached(w) && WrapperCan(w, Stub(step))
    ensures MarksOfWork(WrapperApply(w, Stub(step)))
  {
    hide Busy, WorksOn, Stopping, EffectOf;
    var w' := WrapperApply(w, Stub(step));
    StepMoves(w.s, step);
    forall u: Thread, st: Stream | WorksOn(PcOf(w'.s, u), st)
      ensures MarkOf(w', st) == if Stopping(PcOf(w'.s, u)) then Stopped else Fresh
    {
      StubMarks(w, step, st);
      if u == step.t {
        WorkGoesOn(w.s.sh, PcOf(w.s, u), step, st);
      } else {
        OthersWork(w.s, w'.s, step.t, u, st);
        assert HoldsMutex(w, u, st);
        assert PcOf(w.s, step.t) == Starting(st) ==> WorksOn(PcOf(w.s, step.t), st) by { StartingWorks(st); }
      }
    }
  }

  lemma StartingWorks(st: Stream)
    ensures WorksOn(Starting(st), st) && !Stopping(Starting(st))
  {
  }

  lemma StepStarted(w: Wrapper, step: Step)
    requires WorkersInside(w) && StartedIsAttached(w) && Inv(w.s) && WrapperCan(w, Stub(step))
    ensures StartedIsAttached(WrapperApply(w, Stub(step)))
  {
    hide WorksOn, EffectOf, Locks, AtRest, OneWorker, Exact, CountedAt;
    var w' := WrapperApply(w, Stub(step));
    StepMoves(w.s, step);
    forall st: Stream | MarkOf(w', st) == Started
      ensures st in w'.s.sh.attached && !Busy(w'.s, st)
    {
      StubMarks(w, step, st);
      if step == Advance(step.t, true) && PcOf(w.s, step.t) == Starting(st) {
        StartingWorks(st);
        assert st in w.s.sh.attached;
        StartSucceeds(w.s, step, st);
        NobodyElse(w, w'.s, step.t, st);
      } else {
        NotTouched(w.s, step, st);
      }
    }
  }

  lemma StartSucceeds(s: State, step: Step, st: Stream)
    requires Enabled(s, step) && step == Advance(step.t, true) && PcOf(s, step.t) == Starting(st)
    ensures PcOf(Apply(s, step), step.t) == Ocaml && Apply(s, step).sh.attached == s.sh.attached
    ensures !WorksOn(PcOf(Apply(s, step), step.t), st)
  {
  }

  lemma NobodyElse(w: Wrapper, s': State, t: Thread, st: Stream)
    requires WorkersInside(w) && Moves(w.s, s', t) && WorksOn(PcOf(w.s, t), st) && !WorksOn(PcOf(s', t), st)
    ensures !Busy(s', st)
  {
    hide WorksOn;
    forall u: Thread
      ensures !WorksOn(PcOf(s', u), st)
    {
      if u != t {
        OthersWork(w.s, s', t, u, st);
        assert HoldsMutex(w, t, st);
        assert WorksOn(PcOf(w.s, u), st) ==> HoldsMutex(w, u, st);
      }
    }
  }

  /** A stream that nobody works on, and that the step does not begin to start or stop, stays as it is. */
  lemma NotTouched(s: State, step: Step, st: Stream)
    requires Enabled(s, step) && !Busy(s, st) && st in s.sh.attached
    requires step != CallStop(step.t, st)
    requires step != CallStart(step.t, st)
    ensures st in Apply(s, step).sh.attached && !Busy(Apply(s, step), st)
  {
    hide EffectOf;
    var s' := Apply(s, step);
    StepMoves(s, step);
    assert !WorksOn(PcOf(s, step.t), st);
    LeavesAlone(s.sh, PcOf(s, step.t), step, st);
    forall u: Thread
      ensures !WorksOn(PcOf(s', u), st)
    {
      if u != step.t {
        OthersWork(s, s', step.t, u, st);
      }
    }
  }

  lemma LeavesAlone(sh: Shared, pc: Pc, step: Step, st: Stream)
    requires CanStep(sh, pc, step) && !WorksOn(pc, st)
    requires step != CallStop(step.t, st) && step != CallStart(step.t, st)
    ensures !WorksOn(EffectOf(sh, pc, step).pc, st)
    ensures st in EffectOf(sh, pc, step).sh.attached <==> st in sh.attached
  {
  }

  lemma {:induction false} MarksKeep(ws: seq<Wrapper>, steps: seq<WrapperStep>, i: nat)
    requires IsWrapperRun(ws, steps) && i < |ws|
    ensures MarksOfWork(ws[i]) && StartedIsAttached(ws[i]) && Inv(ws[i].s)
    decreases i
  {
    hide MarksOfWork, StartedIsAttached, Inv, WorkersInside, Marked, Reachable, Apply, MarksAfter;
    WrapperIsDisciplined(ws, steps, i);
    ReachableInv(ws[i].s);
    if i == 0 {
      FirstMarks();
    } else {
      MarksKeep(ws, steps, i - 1);
      var w, step := ws[i - 1], steps[i - 1];
      assert WrapperCan(w, step) && ws[i - 1 + 1] == WrapperApply(w, step);
      WrapperIsDisciplined(ws, steps, i - 1);
      if step.Stub? {
        StepMarksOfWork(w, step.step);
        StepStarted(w, step.step);
      } else {
        MutexKeepsMarks(w, step);
      }
    }
  }

  lemma MutexKeepsMarks(w: Wrapper, step: WrapperStep)
    requires MarksOfWork(w) && StartedIsAttached(w) && WrapperCan(w, step) && !step.Stub?
    ensures MarksOfWork(WrapperApply(w, step)) && StartedIsAttached(WrapperApply(w, step))
  {
    hide WorksOn, Busy;
    var w' := WrapperApply(w, step);
    assert w'.s == w.s && forall st: Stream :: MarkOf(w', st) == MarkOf(w, st);
  }

  lemma FirstMarks()
    ensures MarksOfWork(Wrapper(Initial, map[], map[])) && StartedIsAttached(Wrapper(Initial, map[], map[]))
  {
  }

  lemma ReachableInv(s: State)
    requires Reachable(s, true)
    ensures Inv(s)
  {
    hide Inv, Apply, Enabled, Disciplined;
    var states: seq<State>, steps: seq<Step> :| IsDisciplinedRun(states, steps) && states[|steps|] == s;
    RunsKeep(states, steps, |steps|);
  }

  /** In every run through fsevents.ml, a stream is marked as started exactly when it is counted and nobody is
      starting or stopping it. */
  lemma MarkIsExact(ws: seq<Wrapper>, steps: seq<WrapperStep>, i: nat, st: Stream)
    requires IsWrapperRun(ws, steps) && i < |ws|
    ensures MarkOf(ws[i], st) == Started <==> st in ws[i].s.sh.counted && !Busy(ws[i].s, st)
  {
    hide WrapperApply, WrapperCan;
    MarksKeep(ws, steps, i);
    WrapperIsDisciplined(ws, steps, i);
    RestingMark(ws[i], st);
  }

  lemma RestingMark(w: Wrapper, st: Stream)
    requires Marked(w) && StartedIsAttached(w) && Inv(w.s)
    ensures MarkOf(w, st) == Started <==> st in w.s.sh.counted && !Busy(w.s, st)
  {
    hide Busy;
    assert !Busy(w.s, st) ==> (st in w.s.sh.attached <==> st in w.s.sh.counted);
  }
}
