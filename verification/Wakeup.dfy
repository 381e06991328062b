/** How the consumer of fswatch_win_stubs.c learns of new packets: a producer pushes and then sets the event
    `signal`; fswatch_win_wait waits for the event, which resets itself, takes the whole list, and then resets the
    event once more. */
module Wakeup {

  /** The consumer waits for the event, is about to take the list, or is about to reset the event. */
  datatype Consumer = Waiting | Woken | Took

  /** The number of packets in the list, the event, and the number of producers that have pushed and not yet set the
      event. */
  datatype State = State(packets: nat, signal: bool, owing: nat, consumer: Consumer)

  const Initial := State(0, false, 0, Waiting)

  datatype Step = Push | SetEvent | Wake | Take | ResetEvent

  predicate Enabled(s: State, step: Step) {
    match step
    case Push => true
    case SetEvent => s.owing > 0
    case Wake => s.consumer.Waiting? && s.signal
    case Take => s.consumer.Woken?
    case ResetEvent => s.consumer.Took?
  }

  function Apply(s: State, step: Step): State
    requires Enabled(s, step)
  {
    match step
    case Push => s.(packets := s.packets + 1, owing := s.owing + 1)
    case SetEvent => s.(signal := true, owing := s.owing - 1)
    case Wake => s.(signal := false, consumer := Woken)
    case Take => s.(packets := 0, consumer := Took)
    case ResetEvent => s.(signal := false, consumer := Waiting)
  }

  ghost predicate IsRun(states: seq<State>, steps: seq<Step>) {
    && |states| == |steps| + 1 && states[0] == Initial
    && forall i | 0 <= i < |steps| :: Enabled(states[i], steps[i]) && states[i + 1] == Apply(states[i], steps[i])
  }

  /** Packets lie in the list, the consumer waits, and nobody is about to wake it. */
  predicate Stranded(s: State) {
    s.packets > 0 && s.consumer.Waiting? && !s.signal && s.owing == 0
  }

  /** The second reset of the event forgets packets that were pushed and announced after the list was taken. */
  predicate Forgets(s: State, step: Step) {
    step.ResetEvent? && s.packets > 0 && s.owing == 0
  }

  /** Somebody will look at the list. */
  predicate Announced(s: State) {
    s.packets > 0 ==> s.signal || s.owing > 0 || s.consumer.Woken?
  }

  lemma StepAnnounces(s: State, step: Step)
    requires Announced(s) && Enabled(s, step)
    ensures Announced(Apply(s, step)) <==> !Forgets(s, step)
    ensures Stranded(Apply(s, step)) <==> Forgets(s, step)
  {
  }

  lemma {:induction false} RunsAnnounce(states: seq<State>, steps: seq<Step>, i: nat)
    requires IsRun(states, steps) && i <= |steps| && forall k | 0 <= k < i :: !Forgets(states[k], steps[k])
    ensures Announced(states[i])
    decreases i
  {
    hide Apply, Enabled, Announced, Forgets;
    if i == 0 {
      NothingToAnnounce();
    } else {
      RunsAnnounce(states, steps, i - 1);
      assert Enabled(states[i - 1], steps[i - 1]) && states[(i - 1) + 1] == Apply(states[i - 1], steps[i - 1]);
      StepAnnounces(states[i - 1], steps[i - 1]);
    }
  }

  lemma NothingToAnnounce()
    ensures Announced(Initial) && !Stranded(Initial)
  {
  }

  lemma AnnouncedIsNotStranded(s: State)
    requires Announced(s)
    ensures !Stranded(s)
  {
  }

  /** A run never strands a packet if and only if, at every second reset of the event, the list is empty or a
      producer has yet to set the event. */
  lemma NoPacketIsStranded(states: seq<State>, steps: seq<Step>)
    requires IsRun(states, steps)
    ensures (forall i | 0 <= i <= |steps| :: !Stranded(states[i]))
            <==> (forall i | 0 <= i < |steps| :: !Forgets(states[i], steps[i]))
  {
    hide Apply, Enabled, Announced, Forgets, Stranded;
    if forall i | 0 <= i < |steps| :: !Forgets(states[i], steps[i]) {
      forall i | 0 <= i <= |steps|
        ensures !Stranded(states[i])
      {
        RunsAnnounce(states, steps, i);
        AnnouncedIsNotStranded(states[i]);
      }
    } else {
      var i :| 0 <= i < |steps| && Forgets(states[i], steps[i]);
      assert Enabled(states[i], steps[i]) && states[i + 1] == Apply(states[i], steps[i]);
      ForgottenIsStranded(states[i], steps[i]);
    }
  }

  lemma ForgottenIsStranded(s: State, step: Step)
    requires Enabled(s, step) && Forgets(s, step)
    ensures Stranded(Apply(s, step))
  {
  }

  /** A stranded packet stays in the list until the next push. */
  lemma StrandedStays(s: State, step: Step)
    requires Stranded(s) && Enabled(s, step)
    ensures step == Push
  {
  }

  /** A run that strands a packet: a second one is pushed and announced between the taking of the list and the
      reset. */
  lemma PacketIsStranded() returns (states: seq<State>, steps: seq<Step>)
    ensures IsRun(states, steps) && Stranded(states[|steps|])
  {
    steps := [Push, SetEvent, Wake, Take, Push, SetEvent, ResetEvent];
    states := [Initial, State(1, false, 1, Waiting), State(1, true, 0, Waiting), State(1, false, 0, Woken),
               State(0, false, 0, Took), State(1, false, 1, Took), State(1, true, 0, Took),
               State(1, false, 0, Waiting)];
  }
}
