/** What each call on the dispatch-queue monitor of fsevents_stubs.c has done by the time it returns, over all
    runs: the wait ends for a reason, exceptions are recorded, starts and stops take effect. */
module MonitorCalls {
  import opened Monitor

  // ----- the wait

  /** Thread `t` tests the condition of the wait here and finds that it need not sleep. */
  predicate Passes(s: State, step: Step, t: Thread) {
    step.Advance? && step.t == t && PcOf(s, t) == Inside(Check) && (s.sh.streams == 0 || s.sh.hasExn)
  }

  /** In the wait and not past its loop; past it, on the way out. */
  predicate InWait(pc: Pc) {
    pc == Want(Check) || pc == Inside(Check) || pc == Asleep
  }

  predicate PastWait(pc: Pc) {
    pc == Signal(Check) || pc == Done(Check) || pc == Back(Check)
  }

  ghost predicate PassedBetween(states: seq<State>, steps: seq<Step>, k: nat, i: nat, t: Thread)
    requires |states| > |steps| >= i
  {
    exists j: nat | k < j < i :: Passes(states[j], steps[j], t)
  }

  lemma WaitStep(s: State, step: Step, t: Thread)
    requires Enabled(s, step) && InWait(PcOf(s, t))
    ensures InWait(PcOf(Apply(s, step), t)) || Passes(s, step, t)
  {
    StepMoves(s, step);
  }

  lemma PastStep(s: State, step: Step, t: Thread)
    requires Enabled(s, step) && PastWait(PcOf(Apply(s, step), t))
    ensures PastWait(PcOf(s, t)) || Passes(s, step, t)
  {
    StepMoves(s, step);
  }

  lemma {:induction false} StillWaiting(states: seq<State>, steps: seq<Step>, k: nat, i: nat, t: Thread)
    requires IsRun(states, steps) && k < i <= |steps| && steps[k] == CallWait(t)
    ensures InWait(PcOf(states[i], t)) || PassedBetween(states, steps, k, i, t)
    decreases i
  {
    assert Enabled(states[i - 1], steps[i - 1]) && states[(i - 1) + 1] == Apply(states[i - 1], steps[i - 1]);
    if i > k + 1 {
      hide Apply, Enabled, Passes, InWait;
      StillWaiting(states, steps, k, i - 1, t);
      if PassedBetween(states, steps, k, i - 1, t) {
        var j: nat :| k < j < i - 1 && Passes(states[j], steps[j], t);
        assert PassedBetween(states, steps, k, i, t);
      } else {
        WaitStep(states[i - 1], steps[i - 1], t);
      }
    }
  }

  /** A wait that has returned has seen, under the lock and after it was called, that no stream is counted or that
      an exception was recorded. */
  lemma WaitEndsForAReason(states: seq<State>, steps: seq<Step>, k: nat, i: nat, t: Thread)
    requires IsRun(states, steps) && k < i <= |steps| && steps[k] == CallWait(t) && PcOf(states[i], t) == Ocaml
    ensures exists j: nat | k < j < i ::
              && PcOf(states[j], t) == Inside(Check) && steps[j].Advance? && steps[j].t == t
              && (states[j].sh.streams == 0 || states[j].sh.hasExn)
  {
    hide Apply, Enabled;
    StillWaiting(states, steps, k, i, t);
    var j: nat :| k < j < i && Passes(states[j], steps[j], t);
    assert PcOf(states[j], t) == Inside(Check);
  }

  /** A thread past the loop of the wait left it in an earlier state of the run, for that reason. */
  lemma {:induction false} PastTheLoop(states: seq<State>, steps: seq<Step>, i: nat, t: Thread) returns (j: nat)
    requires IsRun(states, steps) && i <= |steps| && PastWait(PcOf(states[i], t))
    ensures j < i && PcOf(states[j], t) == Inside(Check) && (states[j].sh.streams == 0 || states[j].sh.hasExn)
    decreases i
  {
    assert i > 0;
    assert Enabled(states[i - 1], steps[i - 1]) && states[(i - 1) + 1] == Apply(states[i - 1], steps[i - 1]);
    PastStep(states[i - 1], steps[i - 1], t);
    if Passes(states[i - 1], steps[i - 1], t) {
      j := i - 1;
    } else {
      hide Apply, Enabled;
      j := PastTheLoop(states, steps, i - 1, t);
    }
  }

  /** At the test a thread falls asleep exactly when there are streams and no exception. */
  lemma WaitDecides(s: State, step: Step)
    requires Enabled(s, step) && step.Advance? && PcOf(s, step.t) == Inside(Check)
    ensures var pc := PcOf(Apply(s, step), step.t);
            && (pc == Asleep <==> s.sh.streams > 0 && !s.sh.hasExn)
            && (pc == Done(Check) <==> s.sh.streams == 0 || s.sh.hasExn)
  {
  }

  // ----- the exception

  /** The step records an exception. */
  predicate Records(s: State, step: Step) {
    step.Advance? && PcOf(s, step.t) == Inside(Raise)
  }

  ghost predicate RecordedBefore(states: seq<State>, steps: seq<Step>, i: nat)
    requires |states| > |steps| >= i
  {
    exists j: nat | j < i :: Records(states[j], steps[j])
  }

  lemma ExceptionStep(s: State, step: Step)
    requires Enabled(s, step)
    ensures Apply(s, step).sh.hasExn <==> s.sh.hasExn || Records(s, step)
  {
  }

  /** The flag is set exactly when some callback recorded an exception; it is never cleared. */
  lemma {:induction false} ExceptionIsExact(states: seq<State>, steps: seq<Step>, i: nat)
    requires IsRun(states, steps) && i <= |steps|
    ensures states[i].sh.hasExn <==> RecordedBefore(states, steps, i)
    decreases i
  {
    hide Apply, Enabled, Records;
    if i > 0 {
      assert Enabled(states[i - 1], steps[i - 1]) && states[(i - 1) + 1] == Apply(states[i - 1], steps[i - 1]);
      ExceptionStep(states[i - 1], steps[i - 1]);
      ExceptionIsExact(states, steps, i - 1);
      if RecordedBefore(states, steps, i - 1) {
        var j: nat :| j < i - 1 && Records(states[j], steps[j]);
        assert RecordedBefore(states, steps, i);
      }
    }
  }

  predicate AboutToRecord(pc: Pc) {
    pc == Want(Raise) || pc == Inside(Raise)
  }

  lemma RaiseStep(s: State, step: Step, t: Thread)
    requires Enabled(s, step) && AboutToRecord(PcOf(s, t))
    ensures AboutToRecord(PcOf(Apply(s, step), t)) || Apply(s, step).sh.hasExn
  {
    StepMoves(s, step);
  }

  /** A callback that raises has its exception recorded before it does anything else. */
  lemma {:induction false} RaiseIsRecorded(states: seq<State>, steps: seq<Step>, k: nat, i: nat, t: Thread)
    requires IsRun(states, steps) && k < i <= |steps| && steps[k] == CallbackRaises(t)
    ensures AboutToRecord(PcOf(states[i], t)) || states[i].sh.hasExn
    decreases i
  {
    assert Enabled(states[i - 1], steps[i - 1]) && states[(i - 1) + 1] == Apply(states[i - 1], steps[i - 1]);
    if i > k + 1 {
      hide Apply, Enabled, AboutToRecord;
      RaiseIsRecorded(states, steps, k, i - 1, t);
      if AboutToRecord(PcOf(states[i - 1], t)) {
        RaiseStep(states[i - 1], steps[i - 1], t);
      } else {
        ExceptionStep(states[i - 1], steps[i - 1]);
      }
    }
  }

  /** A thread goes on to broadcast exactly when it records an exception or takes the last stream off the counter. */
  lemma BroadcastIsExact(sh: Shared, pc: Pc, step: Step)
    requires CanStep(sh, pc, step) && !pc.Signal?
    ensures var e := EffectOf(sh, pc, step);
            e.pc.Signal? <==>
              step.Advance? && pc.Inside? && (pc.at.Raise? || ((pc.at.Uncount? || pc.at.Undo?) && sh.streams == 1))
  {
  }

  // ----- start and stop

  /** In the section `at` and not out of it yet. */
  predicate At(pc: Pc, at: Section) {
    pc == Want(at) || pc == Inside(at) || pc == Signal(at) || pc == Done(at) || (pc == Back(at) && !at.Undo?)
  }

  lemma SectionStep(s: State, step: Step, t: Thread, at: Section)
    requires Enabled(s, step) && At(PcOf(s, t), at) && (at.Uncount? || at.Undo?)
    ensures var s' := Apply(s, step);
            At(PcOf(s', t), at) || (step.t == t && PcOf(s', t) == Ocaml && at.st !in s'.sh.attached)
  {
    StepMoves(s, step);
  }

  /** Thread `t` came out of its call with the stream detached. */
  ghost predicate Detached(states: seq<State>, k: nat, i: nat, t: Thread, st: Stream)
    requires i < |states|
  {
    exists j: nat | k < j <= i :: PcOf(states[j], t) == Ocaml && st !in states[j].sh.attached
  }

  lemma {:induction false} SectionRuns(states: seq<State>, steps: seq<Step>, k: nat, i: nat, t: Thread, at: Section)
    requires IsRun(states, steps) && k < i <= |steps| && (at.Uncount? || at.Undo?) && PcOf(states[k + 1], t) == Want(at)
    ensures At(PcOf(states[i], t), at) || Detached(states, k, i, t, at.st)
    decreases i
  {
    if i > k + 1 {
      assert Enabled(states[i - 1], steps[i - 1]) && states[(i - 1) + 1] == Apply(states[i - 1], steps[i - 1]);
      hide Apply, Enabled, At;
      SectionRuns(states, steps, k, i - 1, t, at);
      if Detached(states, k, i - 1, t, at.st) {
        var j: nat :| k < j <= i - 1 && PcOf(states[j], t) == Ocaml && at.st !in states[j].sh.attached;
        assert Detached(states, k, i, t, at.st);
      } else {
        SectionStep(states[i - 1], steps[i - 1], t, at);
      }
    }
  }

  /** A stop of a stream with its field set returns with the field clear and, in a disciplined run, the stream off the
      counter. */
  lemma StopTakesEffect(states: seq<State>, steps: seq<Step>, k: nat, i: nat, t: Thread, st: Stream)
    requires IsDisciplinedRun(states, steps) && k < i <= |steps|
    requires steps[k] == CallStop(t, st) && st in states[k].sh.attached
    ensures At(PcOf(states[i], t), Uncount(st)) ||
            exists j: nat | k < j <= i :: PcOf(states[j], t) == Ocaml && st !in states[j].sh.attached
                                          && st !in states[j].sh.counted
  {
    assert Enabled(states[k], steps[k]) && states[k + 1] == Apply(states[k], steps[k]);
    SectionRuns(states, steps, k, i, t, Uncount(st));
    OffTheCounter(states, steps, k, i, t, st);
  }

  lemma OffTheCounter(states: seq<State>, steps: seq<Step>, k: nat, i: nat, t: Thread, st: Stream)
    requires IsDisciplinedRun(states, steps) && k < i <= |steps|
    ensures Detached(states, k, i, t, st) ==>
              exists j: nat | k < j <= i :: PcOf(states[j], t) == Ocaml && st !in states[j].sh.attached
                                            && st !in states[j].sh.counted
  {
    hide Apply, Enabled, Inv;
    if Detached(states, k, i, t, st) {
      var j: nat :| k < j <= i && PcOf(states[j], t) == Ocaml && st !in states[j].sh.attached;
      RunsKeep(states, steps, j);
      FieldIsSet(states[j], st);
      assert PcOf(states[j], t) == Ocaml && st !in states[j].sh.counted;
    }
  }

  /** A start whose stream could not be started is undone before it returns. */
  lemma FailedStartIsUndone(states: seq<State>, steps: seq<Step>, k: nat, i: nat, t: Thread, st: Stream)
    requires IsDisciplinedRun(states, steps) && k < i <= |steps|
    requires steps[k] == Advance(t, false) && PcOf(states[k], t) == Starting(st)
    ensures At(PcOf(states[i], t), Undo(st)) ||
            exists j: nat | k < j <= i :: PcOf(states[j], t) == Ocaml && st !in states[j].sh.attached
                                          && st !in states[j].sh.counted
  {
    assert Enabled(states[k], steps[k]) && states[k + 1] == Apply(states[k], steps[k]);
    SectionRuns(states, steps, k, i, t, Undo(st));
    OffTheCounter(states, steps, k, i, t, st);
  }

  /** The call is over: the system has answered, and `t` comes out with the stream counted or goes on to undo it. */
  predicate StartAnswered(s: State, step: Step, s': State, t: Thread, st: Stream) {
    && step.Advance? && step.t == t && PcOf(s, t) == Starting(st)
    && PcOf(s', t) == (if step.started then Ocaml else Want(Undo(st)))
  }

  lemma StartStep(s: State, step: Step, t: Thread, st: Stream)
    requires Enabled(s, step) && (At(PcOf(s, t), Count(st)) || PcOf(s, t) == Starting(st))
    ensures var s' := Apply(s, step);
            || At(PcOf(s', t), Count(st)) || PcOf(s', t) == Starting(st)
            || StartAnswered(s, step, s', t, st)
  {
    StepMoves(s, step);
  }

  ghost predicate AnsweredBetween(states: seq<State>, steps: seq<Step>, k: nat, i: nat, t: Thread, st: Stream)
    requires |states| > |steps| >= i
  {
    exists j: nat | k < j < i ::
      && StartAnswered(states[j], steps[j], states[j + 1], t, st)
      && st in states[j + 1].sh.attached && st in states[j + 1].sh.counted
  }

  lemma AnsweredIsCounted(s: State, step: Step, t: Thread, st: Stream)
    requires Inv(s) && Enabled(s, step) && StartAnswered(s, step, Apply(s, step), t, st)
    ensures st in Apply(s, step).sh.attached && st in Apply(s, step).sh.counted
  {
    hide Locks, AtRest, OneWorker, Exact;
    assert WorksOn(PcOf(s, t), st);
  }

  /** A start goes on until the system has answered, and then the stream is counted and its field is set. */
  lemma {:induction false} StartTakesEffect(states: seq<State>, steps: seq<Step>, k: nat, i: nat, t: Thread, st: Stream)
    requires IsDisciplinedRun(states, steps) && k < i <= |steps| && steps[k] == CallStart(t, st)
    ensures || At(PcOf(states[i], t), Count(st)) || PcOf(states[i], t) == Starting(st)
            || AnsweredBetween(states, steps, k, i, t, st)
    decreases i
  {
    assert Enabled(states[i - 1], steps[i - 1]) && states[(i - 1) + 1] == Apply(states[i - 1], steps[i - 1]);
    if i > k + 1 {
      hide Apply, Enabled, At, StartAnswered, Inv;
      StartTakesEffect(states, steps, k, i - 1, t, st);
      if AnsweredBetween(states, steps, k, i - 1, t, st) {
        var j: nat :| k < j < i - 1 && StartAnswered(states[j], steps[j], states[j + 1], t, st)
          && st in states[j + 1].sh.attached && st in states[j + 1].sh.counted;
        assert AnsweredBetween(states, steps, k, i, t, st);
      } else {
        StartStep(states[i - 1], steps[i - 1], t, st);
        if StartAnswered(states[i - 1], steps[i - 1], states[(i - 1) + 1], t, st) {
          RunsKeep(states, steps, i - 1);
          AnsweredIsCounted(states[i - 1], steps[i - 1], t, st);
          assert AnsweredBetween(states, steps, k, i, t, st);
        }
      }
    }
  }
}
