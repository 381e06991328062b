/** What the watcher of fswatch_win_stubs.c gets done, over all its runs: which watches are still being read,
    what a shutdown ends, and that every add request is answered. */
module WatchProgress {
  import opened WatchList

  // ----- reads go on

  /** The step handles a completion without bytes for this watch. */
  predicate HandlesEmpty(s: State, step: Step, w: Id) {
    step.Handle? && step.i < |s.port| && s.port[step.i] == Completed(w, Nothing)
  }

  /** Nothing will ever happen to the watch again: no read is in progress and no completion is at the port. */
  ghost predicate Stalled(s: State, w: Id) {
    w !in s.reading && NotAtPort(s.port, w)
  }

  lemma StalledAppend(s: State, w: Id, p: Packet)
    ensures NotAtPort(s.port + [p], w) <==> NotAtPort(s.port, w) && !(p.Completed? && p.w == w)
  {
    var port' := s.port + [p];
    if NotAtPort(port', w) {
      assert port'[|s.port|] == p;
      assert forall i | 0 <= i < |s.port| :: port'[i] == s.port[i];
    }
  }

  lemma StalledTake(port: seq<Packet>, i: nat, w: Id)
    requires i < |port|
    ensures NotAtPort(port, w) <==> NotAtPort(port[..i] + port[i + 1..], w) && !(port[i].Completed? && port[i].w == w)
  {
    var port' := port[..i] + port[i + 1..];
    assert forall k | 0 <= k < |port'| :: port'[k] == port[if k < i then k else k + 1];
    if NotAtPort(port', w) && !(port[i].Completed? && port[i].w == w) {
      forall k | 0 <= k < |port| && port[k].Completed?
        ensures port[k].w != w
      {
        if k != i {
          assert port'[if k < i then k else k - 1] == port[k];
        }
      }
    }
  }

  /** A new watch is numbered `created`, and its first read is in progress. */
  lemma AddedIsReading(s: State, a: Answers, w: Id)
    requires Inv(s) && w in AddNew(s, a).watches
    ensures w in s.watches ==> (w in AddNew(s, a).reading <==> w in s.reading)
    ensures w !in s.watches ==> w == s.created && w in AddNew(s, a).reading
    ensures AddNew(s, a).port == s.port
  {
    hide Disjoint, ClosedOnce, HandlesOf, Covered, CoveredBy;
  }

  lemma HandledReads(s: State, p: Packet, a: Answers, w: Id)
    requires Inv(s) && (p.Completed? ==> IdleWatch(s, p.w)) && w in HandlePacket(s, p, a).watches
    ensures HandlePacket(s, p, a).port == s.port
    ensures w in s.watches ==>
              (w in HandlePacket(s, p, a).reading <==> w in s.reading || p == Completed(w, Events))
    ensures w !in s.watches ==> w == s.created && w in HandlePacket(s, p, a).reading
    ensures p.Completed? && p.w == w ==> p.outcome != Failed
  {
    hide AddNew, HandlesOf, Disjoint, ClosedOnce, FreedOnce, Tracked;
    if p.AddWatch? && !s.shuttingDown {
      AddedIsReading(s, a, w);
    }
  }

  /** A listed watch stalls only when a completion without bytes is handled for it. */
  lemma StepStalls(s: State, step: Step, w: Id)
    requires Inv(s) && Enabled(s, step) && w in Apply(s, step).watches
    ensures w in s.watches ==> (Stalled(Apply(s, step), w) <==> Stalled(s, w) || HandlesEmpty(s, step, w))
    ensures w !in s.watches ==> w == s.created && !Stalled(Apply(s, step), w)
  {
    hide HandlePacket, Disjoint, ClosedOnce, FreedOnce, NotAtPort;
    match step
    case Request(p) => StalledAppend(s, w, p);
    case ReadEnds(v, outcome) => StalledAppend(s, w, Completed(v, outcome));
    case Handle(i, a) =>
      var s1 := s.(port := s.port[..i] + s.port[i + 1..]);
      TrackedTake(s.watches.Keys, s.reading, s.port, i);
      StalledTake(s.port, i, w);
      HandledReads(s1, s.port[i], a, w);
  }

  ghost predicate EmptyBefore(states: seq<State>, steps: seq<Step>, i: nat, w: Id)
    requires |states| > |steps| >= i
  {
    exists k: nat | k < i :: HandlesEmpty(states[k], steps[k], w)
  }

  lemma EmptyIsListed(s: State, step: Step, w: Id)
    requires Inv(s) && Enabled(s, step) && HandlesEmpty(s, step, w)
    ensures w in s.watches && w < s.created
  {
    hide Disjoint, ClosedOnce;
  }

  lemma CreatedGrows(s: State, step: Step)
    requires Enabled(s, step)
    ensures Apply(s, step).created >= s.created
  {
    hide HandlesOf, Covered, CoveredBy;
  }

  lemma {:induction false} EmptyIsOld(states: seq<State>, steps: seq<Step>, i: nat, w: Id)
    requires IsRun(states, steps) && i <= |steps| && EmptyBefore(states, steps, i, w)
    ensures w < states[i].created
    decreases i
  {
    hide Apply, Inv, HandlesEmpty;
    var k: nat :| k < i && HandlesEmpty(states[k], steps[k], w);
    assert Enabled(states[i - 1], steps[i - 1]) && states[(i - 1) + 1] == Apply(states[i - 1], steps[i - 1]);
    CreatedGrows(states[i - 1], steps[i - 1]);
    if k == i - 1 {
      RunsKeep(states, steps, k);
      EmptyIsListed(states[k], steps[k], w);
    } else {
      assert EmptyBefore(states, steps, i - 1, w);
      EmptyIsOld(states, steps, i - 1, w);
    }
  }

  /** In every state of every run, the listed watches that no read and no completion will ever come for again are
      exactly those for which a completion without bytes was handled. */
  lemma {:induction false} StallsAreEmptyReads(states: seq<State>, steps: seq<Step>, i: nat, w: Id)
    requires IsRun(states, steps) && i <= |steps| && w in states[i].watches
    ensures Stalled(states[i], w) <==> EmptyBefore(states, steps, i, w)
    decreases i
  {
    hide Apply, Inv, HandlesEmpty, Stalled;
    if i > 0 {
      var s, step := states[i - 1], steps[i - 1];
      assert Enabled(s, step) && states[(i - 1) + 1] == Apply(s, step);
      RunsKeep(states, steps, i - 1);
      StepStalls(s, step, w);
      assert EmptyBefore(states, steps, i, w) <==> EmptyBefore(states, steps, i - 1, w) || HandlesEmpty(s, step, w) by {
        EmptyStep(states, steps, i, w);
      }
      if w in s.watches {
        StallsAreEmptyReads(states, steps, i - 1, w);
      } else {
        NewIsNotEmpty(states, steps, i - 1, w);
      }
    }
  }

  lemma EmptyStep(states: seq<State>, steps: seq<Step>, i: nat, w: Id)
    requires |states| > |steps| >= i > 0
    ensures EmptyBefore(states, steps, i, w)
            <==> EmptyBefore(states, steps, i - 1, w) || HandlesEmpty(states[i - 1], steps[i - 1], w)
  {
    hide HandlesEmpty;
    if EmptyBefore(states, steps, i - 1, w) {
      var k: nat :| k < i - 1 && HandlesEmpty(states[k], steps[k], w);
      assert EmptyBefore(states, steps, i, w);
    }
  }

  lemma NewIsNotEmpty(states: seq<State>, steps: seq<Step>, i: nat, w: Id)
    requires IsRun(states, steps) && i < |steps| && w == states[i].created
    ensures !EmptyBefore(states, steps, i, w) && !HandlesEmpty(states[i], steps[i], w)
  {
    hide Apply, Inv, HandlesEmpty;
    if EmptyBefore(states, steps, i, w) {
      EmptyIsOld(states, steps, i, w);
    }
    if HandlesEmpty(states[i], steps[i], w) {
      assert Enabled(states[i], steps[i]);
      RunsKeep(states, steps, i);
      EmptyIsListed(states[i], steps[i], w);
    }
  }

  /** So as long as every completion carries bytes or an error, each listed watch is being read or has a
      completion waiting. */
  lemma EveryWatchIsRead(states: seq<State>, steps: seq<Step>, i: nat, w: Id)
    requires IsRun(states, steps) && i <= |steps| && w in states[i].watches
    requires forall k: nat | k < i :: !HandlesEmpty(states[k], steps[k], w)
    ensures w in states[i].reading || exists k | 0 <= k < |states[i].port| :: states[i].port[k].Completed?
                                                                              && states[i].port[k].w == w
  {
    hide Apply, Enabled, HandlesEmpty;
    StallsAreEmptyReads(states, steps, i, w);
  }

  /** Handling a completion with bytes: the events are pushed and the next read is started, unless the watcher is
      shutting down or the read cannot be started, when the watch is freed. */
  lemma EventsAreReadOn(s: State, w: Id, a: Answers)
    requires Inv(s) && IdleWatch(s, w)
    ensures var s' := HandlePacket(s, Completed(w, Events), a);
            && (w in s'.reading <==> !s.shuttingDown && a.armed && s.watches[w].handle != INVALID)
            && (w in s'.watches <==> w in s'.reading) && (w in s'.freed <==> w !in s'.reading)
            && s'.pushed == if s.shuttingDown then s.pushed else s.pushed + [w]
  {
    hide Disjoint, Tracked, ClosedOnce;
  }

  // ----- shutdown

  ghost predicate AllClosed(watches: map<Id, Watch>) {
    forall w | w in watches :: watches[w].handle == INVALID
  }

  predicate HandlesShutdown(s: State, step: Step) {
    step.Handle? && step.i < |s.port| && s.port[step.i] == Shutdown
  }

  ghost predicate ShutdownBefore(states: seq<State>, steps: seq<Step>, i: nat)
    requires |states| > |steps| >= i
  {
    exists k: nat | k < i :: HandlesShutdown(states[k], steps[k])
  }

  lemma AddNewKeepsFlag(s: State, a: Answers)
    ensures AddNew(s, a).shuttingDown == s.shuttingDown
  {
  }

  lemma StepShutdown(s: State, step: Step)
    requires Enabled(s, step) && (s.shuttingDown ==> AllClosed(s.watches))
    ensures Apply(s, step).shuttingDown <==> s.shuttingDown || HandlesShutdown(s, step)
    ensures Apply(s, step).shuttingDown ==> AllClosed(Apply(s, step).watches)
    ensures s.shuttingDown ==> Apply(s, step).created == s.created && Apply(s, step).pushed == s.pushed
  {
    hide AddNew, HandlesOf;
    if step.Handle? && s.port[step.i].AddWatch? {
      AddNewKeepsFlag(s.(port := s.port[..step.i] + s.port[step.i + 1..]), step.a);
    }
  }

  /** The watcher is shutting down exactly when a shutdown request was handled, and then every handle is closed. */
  lemma {:induction false} ShutdownIsFinal(states: seq<State>, steps: seq<Step>, i: nat)
    requires IsRun(states, steps) && i <= |steps|
    ensures states[i].shuttingDown <==> ShutdownBefore(states, steps, i)
    ensures states[i].shuttingDown ==> AllClosed(states[i].watches)
    decreases i
  {
    hide Apply, HandlesShutdown, AllClosed;
    if i > 0 {
      var s, step := states[i - 1], steps[i - 1];
      assert Enabled(s, step) && states[(i - 1) + 1] == Apply(s, step);
      ShutdownIsFinal(states, steps, i - 1);
      StepShutdown(s, step);
      if ShutdownBefore(states, steps, i - 1) {
        var k: nat :| k < i - 1 && HandlesShutdown(states[k], steps[k]);
        assert ShutdownBefore(states, steps, i);
      }
    } else {
      assert AllClosed(Initial.watches) by { NoneOpen(); }
    }
  }

  lemma NoneOpen()
    ensures AllClosed(Initial.watches)
  {
  }

  /** From then on nothing is opened and no event is pushed. */
  lemma {:induction false} NothingAfterShutdown(states: seq<State>, steps: seq<Step>, i: nat, j: nat)
    requires IsRun(states, steps) && i <= j <= |steps| && states[i].shuttingDown
    ensures states[j].shuttingDown && states[j].created == states[i].created && states[j].pushed == states[i].pushed
    decreases j
  {
    hide Apply, HandlesShutdown, AllClosed, ShutdownBefore;
    if j > i {
      var s, step := states[j - 1], steps[j - 1];
      assert Enabled(s, step) && states[(j - 1) + 1] == Apply(s, step);
      NothingAfterShutdown(states, steps, i, j - 1);
      ShutdownIsFinal(states, steps, j - 1);
      StepShutdown(s, step);
    }
  }

  /** After a shutdown the loop ends once the outstanding reads are in, provided that none came in empty. */
  lemma ShutdownDrains(states: seq<State>, steps: seq<Step>, i: nat)
    requires IsRun(states, steps) && i <= |steps| && states[i].shuttingDown
    requires states[i].reading == {} && forall k | 0 <= k < |states[i].port| :: !states[i].port[k].Completed?
    ensures Running(states[i]) <==> exists w: Id | w in states[i].watches :: EmptyBefore(states, steps, i, w)
  {
    hide Apply, Enabled, EmptyBefore;
    if states[i].watches != map[] {
      var w: Id :| w in states[i].watches;
      StallsAreEmptyReads(states, steps, i, w);
    }
  }

  // ----- add requests

  /** The number of add requests at the port, and made in the first `n` steps. */
  function Adds(port: seq<Packet>): nat {
    if port == [] then 0 else (if port[0].AddWatch? then 1 else 0) + Adds(port[1..])
  }

  function AddsMade(steps: seq<Step>, n: nat): nat
    requires n <= |steps|
  {
    if n == 0 then 0 else (if steps[n - 1] == Request(AddWatch) then 1 else 0) + AddsMade(steps, n - 1)
  }

  lemma {:induction false} AddsConcat(a: seq<Packet>, b: seq<Packet>)
    ensures Adds(a + b) == Adds(a) + Adds(b)
  {
    if a == [] {
      assert a + b == b;
    } else {
      assert (a + b)[1..] == a[1..] + b;
      AddsConcat(a[1..], b);
    }
  }

  lemma AddsTake(port: seq<Packet>, i: nat)
    requires i < |port|
    ensures Adds(port) == Adds(port[..i] + port[i + 1..]) + if port[i].AddWatch? then 1 else 0
  {
    assert port == port[..i] + ([port[i]] + port[i + 1..]);
    AddsConcat(port[..i], [port[i]] + port[i + 1..]);
    AddsConcat([port[i]], port[i + 1..]);
    AddsConcat(port[..i], port[i + 1..]);
    assert [port[i]][1..] == [];
  }

  lemma HandledAnswers(s: State, p: Packet, a: Answers)
    requires p.Completed? ==> p.w in s.watches
    ensures HandlePacket(s, p, a).answered == s.answered + if p.AddWatch? then 1 else 0
    ensures HandlePacket(s, p, a).port == s.port
  {
    hide HandlesOf, Covered, CoveredBy;
  }

  lemma StepAnswers(s: State, step: Step)
    requires Inv(s) && Enabled(s, step)
    ensures Apply(s, step).answered + Adds(Apply(s, step).port)
         == s.answered + Adds(s.port) + if step == Request(AddWatch) then 1 else 0
  {
    hide HandlePacket, Adds, Disjoint, ClosedOnce, FreedOnce;
    match step
    case Request(p) =>
      AddsConcat(s.port, [p]);
      AddsOne(p);
    case ReadEnds(v, outcome) =>
      AddsConcat(s.port, [Completed(v, outcome)]);
      AddsOne(Completed(v, outcome));
    case Handle(i, a) =>
      AddsTake(s.port, i);
      HandledAnswers(s.(port := s.port[..i] + s.port[i + 1..]), s.port[i], a);
  }

  lemma AddsOne(p: Packet)
    ensures Adds([p]) == if p.AddWatch? then 1 else 0
  {
    assert [p][1..] == [];
  }

  /** Every add request that was made is waiting at the port or has been answered, once, whether it was
      accepted, refused or ignored. */
  lemma {:induction false} EveryAddIsAnswered(states: seq<State>, steps: seq<Step>, i: nat)
    requires IsRun(states, steps) && i <= |steps|
    ensures states[i].answered + Adds(states[i].port) == AddsMade(steps, i)
    decreases i
  {
    hide Apply, Inv;
    if i > 0 {
      var s, step := states[i - 1], steps[i - 1];
      assert Enabled(s, step) && states[(i - 1) + 1] == Apply(s, step);
      RunsKeep(states, steps, i - 1);
      EveryAddIsAnswered(states, steps, i - 1);
      StepAnswers(s, step);
    }
  }

  /** A directory that is added is listed and read if and only if it could be opened, attached and read and no listed
      directory, open or closed, is a prefix of it; then it is open, and exactly the directories below it are
      closed. */
  lemma AddIsExact(s: State, a: Answers)
    requires Inv(s)
    ensures var s' := AddNew(s, a); var w := s.created;
            && (w in s'.watches <==>
                a.found && a.attached && a.armed && forall v | v in s.watches :: !(s.watches[v].realpath <= a.realpath))
            && (w in s'.watches ==> s'.watches[w] == Watch(a.realpath, s.handles) && w in s'.reading)
            && (forall v | v in s.watches ::
                  && v in s'.watches && s'.watches[v].realpath == s.watches[v].realpath
                  && (w in s'.watches && a.realpath <= s.watches[v].realpath ==> s'.watches[v].handle == INVALID)
                  && (!(a.realpath <= s.watches[v].realpath) ==> s'.watches[v].handle == s.watches[v].handle))
  {
    hide Disjoint, Tracked, ClosedOnce, HandlesOf;
  }
}
