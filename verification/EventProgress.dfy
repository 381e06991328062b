/** What a push and a pop of fswatch_win_stubs.c get done: neither loop is left without its effect, and a thread
    that is not disturbed leaves it after one turn. */
module EventProgress {
  import opened EventList

  predicate InPop(pc: Pc) {
    pc.WantPop? || pc.Popping?
  }

  /** The step takes the whole list out, as one chain. */
  ghost predicate TakesList(s: State, s': State, t: Thread) {
    && s'.mem.popped == s.mem.popped + [PacketsOf(s.mem.heap, s.mem.list)]
    && s'.mem.list == [] && s'.mem.events == 0 && s'.mem.heap == s.mem.heap
    && PcOf(s', t) == Holding(s.mem.events, s.mem.list)
  }

  /** A thread leaves the loop of pop_events only by taking the list, which it then holds ... */
  lemma PopEndsByTaking(s: State, step: Step, t: Thread)
    requires Enabled(s, step) && InPop(PcOf(s, t))
    ensures InPop(PcOf(Apply(s, step), t)) || (step.t == t && TakesList(s, Apply(s, step), t))
  {
    hide PacketsOf;
  }

  /** ... and nothing else takes anything out. */
  lemma OnlyPopTakes(s: State, step: Step)
    requires Enabled(s, step)
    ensures var s' := Apply(s, step);
            s'.mem.popped == s.mem.popped || (InPop(PcOf(s, step.t)) && TakesList(s, s', step.t))
  {
    hide PacketsOf;
  }

  ghost predicate TookBetween(states: seq<State>, k: nat, i: nat, t: Thread)
    requires i < |states|
  {
    exists j: nat | k <= j < i :: TakesList(states[j], states[j + 1], t)
  }

  /** In every run, a thread that began to pop is still at it or has taken a chain. */
  lemma {:induction false} PopTakesEffect(states: seq<State>, steps: seq<Step>, k: nat, i: nat, t: Thread)
    requires IsRun(states, steps) && k < i <= |steps| && steps[k] == StartPop(t)
    ensures InPop(PcOf(states[i], t)) || TookBetween(states, k, i, t)
    decreases i
  {
    assert Enabled(states[i - 1], steps[i - 1]) && states[(i - 1) + 1] == Apply(states[i - 1], steps[i - 1]);
    if i > k + 1 {
      hide Apply, Enabled, InPop, TakesList;
      PopTakesEffect(states, steps, k, i - 1, t);
      if TookBetween(states, k, i - 1, t) {
        var j: nat :| k <= j < i - 1 && TakesList(states[j], states[j + 1], t);
        assert TookBetween(states, k, i, t);
      } else {
        PopEndsByTaking(states[i - 1], steps[i - 1], t);
      }
    }
  }

  // ----- push

  /** Thread `t` has the packet in hand, or it has entered the list. */
  ghost predicate OnItsWay(s: State, t: Thread, p: nat) {
    CarriesAt(s.mem, PcOf(s, t), p) || p in s.mem.pushed
  }

  lemma PushStep(s: State, step: Step, t: Thread, p: nat)
    requires Inv(s) && Enabled(s, step) && ReadsSame(s.mem, PcOf(s, step.t), step) && OnItsWay(s, t, p)
    ensures OnItsWay(Apply(s, step), t, p)
  {
    hide ListIntact, AllSound, Apart, Accounted, History, Conservation, CarriesAt, EffectOf;
    var s' := Apply(s, step);
    assert Sound(s.mem, PcOf(s, step.t)) by { SoundAt(s, step.t); }
    EffectPackets(s.mem, PcOf(s, step.t), step);
    if step.t != t {
      OthersUntouched(s, step, t);
      assert Carriers(s')(t, p) == Carriers(s)(t, p);
    }
  }

  lemma SoundAt(s: State, t: Thread)
    requires AllSound(s)
    ensures Sound(s.mem, PcOf(s, t))
  {
  }

  lemma AllocCarries(s: State, step: Step)
    requires Enabled(s, step) && step.Alloc?
    ensures OnItsWay(Apply(s, step), step.t, s.mem.issued)
  {
  }

  /** No read of a link goes wrong in a safe run. */
  lemma SafeReads(states: seq<State>, steps: seq<Step>, i: nat)
    requires SafeRun(states, steps) && i < |steps|
    ensures Inv(states[i]) && Enabled(states[i], steps[i]) && states[i + 1] == Apply(states[i], steps[i])
    ensures ReadsSame(states[i].mem, PcOf(states[i], steps[i].t), steps[i])
  {
    RunsKeep(states, steps, i);
    assert Enabled(states[i], steps[i]) && states[i + 1] == Apply(states[i], steps[i]);
    hide Apply, Enabled, ListIntact, AllSound, Apart, Accounted, History, Conservation, Pending;
    if CarefulRun(states, steps) {
      StepReadsSame(states[i], steps[i]);
    }
  }

  /** In every safe run, a packet that a thread began to push is in its hand until it has entered the list. */
  lemma {:induction false} PushTakesEffect(states: seq<State>, steps: seq<Step>, k: nat, i: nat, t: Thread)
    requires SafeRun(states, steps) && k < i <= |steps| && steps[k].Alloc? && steps[k].t == t
    ensures OnItsWay(states[i], t, states[k].mem.issued)
    decreases i
  {
    hide Apply, Inv, Enabled, OnItsWay, Careful, ReadsSame, PcOf;
    SafeReads(states, steps, i - 1);
    if i == k + 1 {
      AllocCarries(states[k], steps[k]);
    } else {
      PushTakesEffect(states, steps, k, i - 1, t);
      PushStep(states[i - 1], steps[i - 1], t, states[k].mem.issued);
    }
  }

  // ----- undisturbed

  /** A thread that nobody disturbs pushes its packet in one turn of the loop ... */
  lemma PushAlone(s: State, t: Thread, e: Addr) returns (s': State)
    requires PcOf(s, t).Idle? && e != 0 && e !in s.mem.heap
    ensures var s1 := Apply(s, Alloc(t, e));
            && Enabled(s1, Link(t)) && Enabled(Apply(s1, Link(t)), ExchangePush(t))
            && Enabled(Apply(Apply(s1, Link(t)), ExchangePush(t)), Compare(t))
            && s' == Apply(Apply(Apply(s1, Link(t)), ExchangePush(t)), Compare(t))
    ensures PcOf(s', t) == Idle && s'.mem.events == e && s'.mem.list == [e] + s.mem.list
    ensures s'.mem.heap == s.mem.heap[e := Cell(s.mem.events, s.mem.issued)]
    ensures s'.mem.pushed == s.mem.pushed + [s.mem.issued] && s'.mem.popped == s.mem.popped
  {
    s' := Apply(Apply(Apply(Apply(s, Alloc(t, e)), Link(t)), ExchangePush(t)), Compare(t));
  }

  /** ... and pops the whole list in one turn. */
  lemma PopAlone(s: State, t: Thread) returns (s': State)
    requires PcOf(s, t).Idle?
    ensures Enabled(s, StartPop(t)) && Enabled(Apply(s, StartPop(t)), ReadHead(t))
    ensures Enabled(Apply(Apply(s, StartPop(t)), ReadHead(t)), ExchangePop(t))
    ensures s' == Apply(Apply(Apply(s, StartPop(t)), ReadHead(t)), ExchangePop(t)) && TakesList(s, s', t)
  {
    hide PacketsOf;
    s' := Apply(Apply(Apply(s, StartPop(t)), ReadHead(t)), ExchangePop(t));
  }

  // ----- a failed exchange is another thread's success

  ghost predicate Succeeds(s: State, s': State) {
    |s'.mem.pushed| > |s.mem.pushed| || |s'.mem.popped| > |s.mem.popped|
  }

  ghost predicate SuccessBetween(states: seq<State>, k: nat, i: nat)
    requires i < |states|
  {
    exists j: nat | k <= j < i :: Succeeds(states[j], states[j + 1])
  }

  lemma HeadStep(s: State, step: Step)
    requires Enabled(s, step)
    ensures Apply(s, step).mem.events == s.mem.events || Succeeds(s, Apply(s, step))
  {
    hide PacketsOf;
  }

  lemma {:induction false} HeadChanges(states: seq<State>, steps: seq<Step>, k: nat, i: nat)
    requires IsRun(states, steps) && k <= i <= |steps|
    ensures states[i].mem.events == states[k].mem.events || SuccessBetween(states, k, i)
    decreases i
  {
    if i > k {
      assert Enabled(states[i - 1], steps[i - 1]) && states[(i - 1) + 1] == Apply(states[i - 1], steps[i - 1]);
      HeadStep(states[i - 1], steps[i - 1]);
      hide Apply, Enabled, Succeeds;
      HeadChanges(states, steps, k, i - 1);
      if SuccessBetween(states, k, i - 1) {
        var j: nat :| k <= j < i - 1 && Succeeds(states[j], states[j + 1]);
        assert SuccessBetween(states, k, i);
      }
    }
  }

  /** The value that a popping thread compares with is the head that it read, so if its exchange fails, some push or
      pop has succeeded since. */
  lemma {:induction false} FailedPopMeansSuccess(states: seq<State>, steps: seq<Step>, k: nat, i: nat, t: Thread)
    requires IsRun(states, steps) && k < i < |steps| && steps[k] == ReadHead(t) && steps[i] == ExchangePop(t)
    requires forall j: nat | k < j < i :: steps[j].t != t
    ensures PcOf(states[i + 1], t).WantPop? ==> SuccessBetween(states, k + 1, i)
  {
    assert Enabled(states[k], steps[k]) && states[k + 1] == Apply(states[k], steps[k]);
    assert Enabled(states[i], steps[i]) && states[i + 1] == Apply(states[i], steps[i]);
    OthersMoved(states, steps, k + 1, i, t);
    HeadChanges(states, steps, k + 1, i);
  }

  lemma {:induction false} OthersMoved(states: seq<State>, steps: seq<Step>, k: nat, i: nat, t: Thread)
    requires IsRun(states, steps) && k <= i <= |steps| && forall j: nat | k <= j < i :: steps[j].t != t
    ensures PcOf(states[i], t) == PcOf(states[k], t)
    decreases i
  {
    if i > k {
      hide EffectOf;
      assert Enabled(states[i - 1], steps[i - 1]) && states[(i - 1) + 1] == Apply(states[i - 1], steps[i - 1]);
      OthersMoved(states, steps, k, i - 1, t);
    }
  }

  lemma LinkKept(s: State, step: Step, t: Thread, e: Addr)
    requires Inv(s) && Enabled(s, step) && ReadsSame(s.mem, PcOf(s, step.t), step)
    requires step.t != t && PcOf(s, t) == Linked(e)
    ensures PcOf(Apply(s, step), t) == Linked(e) && e in s.mem.heap && e in Apply(s, step).mem.heap
    ensures Apply(s, step).mem.heap[e] == s.mem.heap[e]
  {
    hide ListIntact, Accounted, History, Conservation, EffectOf;
    SoundAt(s, t);
    SoundAt(s, step.t);
    assert e in Owned(PcOf(s, t));
    OwnedIsAllocated(s.mem, PcOf(s, t), e);
    EffectFrame(s.mem, PcOf(s, step.t), step, e);
  }

  lemma {:induction false} LinkStays(states: seq<State>, steps: seq<Step>, k: nat, i: nat, t: Thread, e: Addr)
    requires SafeRun(states, steps) && k < i <= |steps| && steps[k] == Link(t) && PcOf(states[k], t) == Allocated(e)
    requires forall j: nat | k < j < i :: steps[j].t != t
    ensures PcOf(states[i], t) == Linked(e) && e in states[i].mem.heap
    ensures states[i].mem.heap[e].next == states[k].mem.events
    decreases i
  {
    hide Inv, Careful, ReadsSame;
    SafeReads(states, steps, i - 1);
    if i > k + 1 {
      hide Apply, Enabled;
      LinkStays(states, steps, k, i - 1, t, e);
      LinkKept(states[i - 1], steps[i - 1], t, e);
    }
  }

  /** And the same for a pushing thread, whose cell keeps the link that it compares with. */
  lemma FailedPushMeansSuccess(states: seq<State>, steps: seq<Step>, k: nat, i: nat, t: Thread, e: Addr)
    requires SafeRun(states, steps) && k < i < |steps| && steps[k] == Link(t) && PcOf(states[k], t) == Allocated(e)
    requires steps[i] == ExchangePush(t) && forall j: nat | k < j < i :: steps[j].t != t
    ensures states[i + 1].mem.pushed == states[i].mem.pushed ==> SuccessBetween(states, k + 1, i)
  {
    hide Inv, Careful, ReadsSame;
    SafeReads(states, steps, k);
    SafeReads(states, steps, i);
    LinkStays(states, steps, k, i, t, e);
    HeadChanges(states, steps, k + 1, i);
  }
}
