/** The watch list and the completion port of the Windows watcher (fswatch_win_stubs.c), as a step
    system: the watcher thread handles one packet at a time, while reads complete and requests arrive
    at any moment. */
module WatchList {

  type Id = nat
  /** A path is a C string, so it has no zero inside. */
  type Path = s: seq<char> | '\0' !in s witness []
  /** INVALID_HANDLE_VALUE */
  const INVALID: int := -1

  /** `struct watch`: the directory and its handle. */
  datatype Watch = Watch(realpath: Path, handle: int)

  /** How a read ends: with events, with none, or with an error. */
  datatype Outcome = Events | Nothing | Failed

  /** What arrives at the completion port. */
  datatype Packet = Completed(w: Id, outcome: Outcome) | AddWatch | Shutdown

  /** What the system answers while a packet is handled: whether the directory could be opened and
      under which final path, whether it could be attached to the port, whether a read was started. */
  datatype Answers = Answers(found: bool, realpath: Path, attached: bool, armed: bool)

  /** The watch list, the reads in progress, the port, and a record of what was closed and freed, of the
      watches whose events were pushed, and of how many add requests were answered. */
  datatype State = State(
    watches: map<Id, Watch>,
    reading: set<Id>,
    port: seq<Packet>,
    shuttingDown: bool,
    created: nat,
    handles: nat,
    closed: seq<int>,
    freed: seq<Id>,
    pushed: seq<Id>,
    answered: nat)

  const Initial := State(map[], {}, [], false, 0, 0, [], [], [], 0)

  // ----- isprefix

  /** A character of a zero-terminated string, or its terminator. */
  function CharAt(s: Path, i: nat): char
    requires i <= |s|
  {
    if i < |s| then s[i] else '\0'
  }

  /** isprefix: it never reads behind a terminator. */
  method IsPrefix(prefix: Path, s: Path) returns (r: bool)
    ensures r <==> prefix <= s
  {
    var i := 0;
    while CharAt(prefix, i) != '\0'
      invariant 0 <= i <= |prefix| && i <= |s| && prefix[..i] == s[..i]
      decreases |prefix| - i
    {
      if CharAt(s, i) == '\0' || CharAt(prefix, i) != CharAt(s, i) {
        return false;
      }
      i := i + 1;
    }
    return true;
  }

  // ----- the operations on the list

  /** CloseHandle, where it closes something. */
  function CloseHandle(closed: seq<int>, handle: int): seq<int> {
    if handle == INVALID then closed else closed + [handle]
  }

  /** remove_watch and free_watch */
  function RemoveWatch(s: State, w: Id): State
    requires w in s.watches
  {
    s.(watches := s.watches - {w}, closed := CloseHandle(s.closed, s.watches[w].handle), freed := s.freed + [w])
  }

  /** The open handles of the given watches with numbers below `n`, newest first: the order of the list. */
  function HandlesOf(watches: map<Id, Watch>, which: set<Id>, n: nat): seq<int> {
    if n == 0 then []
    else
      var rest := HandlesOf(watches, which, n - 1);
      if n - 1 in watches && n - 1 in which then CloseHandle([], watches[n - 1].handle) + rest else rest
  }

  /** The watches after the handles of the given ones became invalid. */
  function Invalidated(watches: map<Id, Watch>, which: set<Id>): map<Id, Watch> {
    map w | w in watches :: if w in which then watches[w].(handle := INVALID) else watches[w]
  }

  /** CancelIo and CloseHandle on the given watches. */
  function Invalidate(s: State, which: set<Id>): State {
    s.(watches := Invalidated(s.watches, which), closed := s.closed + HandlesOf(s.watches, which, s.created))
  }

  /** Some listed directory, closed or not, has a path that the given path starts with. */
  predicate Covered(s: State, path: Path) {
    exists w | w in s.watches :: s.watches[w].realpath <= path
  }

  function CoveredBy(s: State, path: Path): set<Id> {
    set w | w in s.watches && path <= s.watches[w].realpath
  }

  /** A watch that is allocated and opened, and at once freed and closed. */
  function Refuse(s: State): State {
    s.(created := s.created + 1, handles := s.handles + 1,
       closed := s.closed + [s.handles], freed := s.freed + [s.created])
  }

  /** A new entry at the front of the list. */
  function Register(s: State, path: Path): State {
    s.(watches := s.watches[s.created := Watch(path, s.handles)], created := s.created + 1, handles := s.handles + 1)
  }

  /** add_watch, and the first read of the new watch. */
  function AddNew(s: State, a: Answers): State {
    if !a.found then s
    else if Covered(s, a.realpath) || !a.attached then Refuse(s)
    else
      var w, s1 := s.created, Register(Invalidate(s, CoveredBy(s, a.realpath)), a.realpath);
      if a.armed then s1.(reading := s1.reading + {w}) else RemoveWatch(s1, w)
  }

  /** The next read of a watch, which cannot be started on a closed handle. */
  function ReadAgain(s: State, w: Id, armed: bool): State
    requires w in s.watches
  {
    if armed && s.watches[w].handle != INVALID then s.(reading := s.reading + {w}) else RemoveWatch(s, w)
  }

  /** SetEvent on the event that the requesting thread waits for. */
  function Answer(s: State): State {
    s.(answered := s.answered + 1)
  }

  /** One packet in watch_thread. */
  function HandlePacket(s: State, p: Packet, a: Answers): State
    requires p.Completed? ==> p.w in s.watches
  {
    match p
    case Completed(w, Failed) => RemoveWatch(s, w)
    case Completed(w, Nothing) => s
    case Completed(w, Events) =>
      if s.shuttingDown then RemoveWatch(s, w)
      else ReadAgain(s.(pushed := s.pushed + [w]), w, a.armed)
    case AddWatch => Answer(if s.shuttingDown then s else AddNew(s, a))
    case Shutdown => Invalidate(s, s.watches.Keys).(shuttingDown := true)
  }

  // ----- runs

  datatype Step =
    | Request(p: Packet)
    | ReadEnds(w: Id, outcome: Outcome)
    | Handle(i: nat, a: Answers)

  /** The condition of the loop of watch_thread. */
  predicate Running(s: State) {
    s.watches != map[] || !s.shuttingDown
  }

  predicate Enabled(s: State, step: Step) {
    match step
    case Request(p) => !p.Completed?
    case ReadEnds(w, _) => w in s.reading
    case Handle(i, _) => i < |s.port| && Running(s)
  }

  /** Handling a completion is well defined only if its watch is still listed; see Tracked below. */
  function Apply(s: State, step: Step): State
    requires Enabled(s, step)
  {
    match step
    case Request(p) => s.(port := s.port + [p])
    case ReadEnds(w, outcome) => s.(reading := s.reading - {w}, port := s.port + [Completed(w, outcome)])
    case Handle(i, a) =>
      var p, s1 := s.port[i], s.(port := s.port[..i] + s.port[i + 1..]);
      if p.Completed? && p.w !in s.watches then s1 else HandlePacket(s1, p, a)
  }

  ghost predicate IsRun(states: seq<State>, steps: seq<Step>) {
    && |states| == |steps| + 1 && states[0] == Initial
    && forall i | 0 <= i < |steps| :: Enabled(states[i], steps[i]) && states[i + 1] == Apply(states[i], steps[i])
  }

  // ----- the invariant

  ghost predicate Distinct(s: seq<int>) {
    forall i, j | 0 <= i < j < |s| :: s[i] != s[j]
  }

  /** No watched directory lies inside another. */
  ghost predicate Disjoint(watches: map<Id, Watch>) {
    forall v, w
      | v in watches && w in watches && v != w && watches[v].handle != INVALID && watches[w].handle != INVALID ::
      !(watches[v].realpath <= watches[w].realpath)
  }

  /** No completion for this watch is at the port. */
  ghost predicate NotAtPort(port: seq<Packet>, w: Id) {
    forall i | 0 <= i < |port| && port[i].Completed? :: port[i].w != w
  }

  /** Every read in progress and every completion at the port is for a listed watch, one per watch. */
  ghost predicate Tracked(listed: set<Id>, reading: set<Id>, port: seq<Packet>) {
    && reading <= listed
    && (forall i | 0 <= i < |port| && port[i].Completed? :: port[i].w in listed && port[i].w !in reading)
    && (forall i, j | 0 <= i < j < |port| && port[i].Completed? && port[j].Completed? :: port[i].w != port[j].w)
  }

  /** Every watch ever allocated is listed or has been freed, once. */
  ghost predicate FreedOnce(listed: set<Id>, created: nat, freed: seq<Id>) {
    && Distinct(freed)
    && (forall w | w in listed :: w < created && w !in freed)
    && (forall w | w in freed :: w < created)
    && (forall w: nat | w < created :: w in listed || w in freed)
  }

  ghost predicate HasHandle(watches: map<Id, Watch>, h: int) {
    exists w | w in watches :: watches[w].handle == h
  }

  /** Every handle ever opened is the handle of one listed watch or has been closed, once. */
  ghost predicate ClosedOnce(watches: map<Id, Watch>, handles: nat, closed: seq<int>) {
    && Distinct(closed)
    && (forall w | w in watches && watches[w].handle != INVALID ::
          0 <= watches[w].handle < handles && watches[w].handle !in closed)
    && HandlesUnique(watches)
    && (forall h | h in closed :: 0 <= h < handles)
    && (forall h: int | 0 <= h < handles :: h in closed || HasHandle(watches, h))
  }

  ghost predicate HandlesUnique(watches: map<Id, Watch>) {
    forall v, w | v in watches && w in watches && watches[v].handle == watches[w].handle != INVALID :: v == w
  }

  ghost predicate Inv(s: State) {
    && Disjoint(s.watches) && Tracked(s.watches.Keys, s.reading, s.port)
    && FreedOnce(s.watches.Keys, s.created, s.freed) && ClosedOnce(s.watches, s.handles, s.closed)
  }

  // ----- lists without repetition

  lemma DistinctConcat(a: seq<int>, b: seq<int>)
    requires Distinct(a) && Distinct(b) && forall x | x in a :: x !in b
    ensures Distinct(a + b)
  {
    var s := a + b;
    forall i, j | 0 <= i < j < |s| ensures s[i] != s[j] {
      if i < |a| <= j {
        assert s[i] in a && s[j] == b[j - |a|] && s[j] in b;
      }
    }
  }

  lemma DistinctAppend(a: seq<int>, x: int)
    requires Distinct(a) && x !in a
    ensures Distinct(a + [x])
    ensures forall y :: y in a + [x] <==> y in a || y == x
  {
    DistinctConcat(a, [x]);
  }

  // ----- what is freed

  lemma FreedRemove(listed: set<Id>, created: nat, freed: seq<Id>, w: Id)
    requires FreedOnce(listed, created, freed) && w in listed
    ensures FreedOnce(listed - {w}, created, freed + [w])
  {
    DistinctAppend(freed, w);
    hide Distinct;
  }

  lemma FreedRefuse(listed: set<Id>, created: nat, freed: seq<Id>)
    requires FreedOnce(listed, created, freed)
    ensures FreedOnce(listed, created + 1, freed + [created])
  {
    DistinctAppend(freed, created);
    hide Distinct;
  }

  lemma FreedRegister(listed: set<Id>, created: nat, freed: seq<Id>)
    requires FreedOnce(listed, created, freed)
    ensures FreedOnce(listed + {created}, created + 1, freed) && created !in listed
  {
    hide Distinct;
  }

  // ----- what is closed

  lemma {:induction false} HandlesOfMembers(watches: map<Id, Watch>, which: set<Id>, n: nat, h: int)
    ensures h in HandlesOf(watches, which, n)
            <==> h != INVALID && exists w | w in watches && w in which :: w < n && watches[w].handle == h
  {
    if n > 0 {
      HandlesOfMembers(watches, which, n - 1, h);
      var rest := HandlesOf(watches, which, n - 1);
      if n - 1 in watches && n - 1 in which && watches[n - 1].handle != INVALID {
        assert h in [watches[n - 1].handle] + rest <==> h in rest || h == watches[n - 1].handle;
      }
    }
  }

  lemma {:induction false} HandlesOfDistinct(watches: map<Id, Watch>, which: set<Id>, n: nat)
    requires HandlesUnique(watches)
    ensures Distinct(HandlesOf(watches, which, n))
  {
    if n > 0 {
      HandlesOfDistinct(watches, which, n - 1);
      if n - 1 in watches && n - 1 in which && watches[n - 1].handle != INVALID {
        HandlesOfMembers(watches, which, n - 1, watches[n - 1].handle);
      }
    }
  }

  /** Every handle of the old list that is not among `gone` is in the new one. */
  ghost predicate KeepsHandles(watches: map<Id, Watch>, watches': map<Id, Watch>, gone: seq<int>) {
    forall h: int | HasHandle(watches, h) && h != INVALID && h !in gone :: HasHandle(watches', h)
  }

  /** The handles in `gone` are closed, the others stay in the list. */
  lemma ClosedMore(watches: map<Id, Watch>, watches': map<Id, Watch>, handles: nat, closed: seq<int>, gone: seq<int>)
    requires ClosedOnce(watches, handles, closed) && HandlesUnique(watches') && Distinct(gone)
    requires forall h | h in gone :: 0 <= h < handles && h !in closed
    requires forall w | w in watches' && watches'[w].handle != INVALID ::
               w in watches && watches'[w].handle == watches[w].handle && watches[w].handle !in gone
    requires KeepsHandles(watches, watches', gone)
    ensures ClosedOnce(watches', handles, closed + gone)
  {
    DistinctConcat(closed, gone);
    assert forall h :: h in closed + gone <==> h in closed || h in gone;
    hide Distinct, HasHandle, HandlesUnique;
  }

  lemma ClosedRemove(watches: map<Id, Watch>, handles: nat, closed: seq<int>, w: Id)
    requires ClosedOnce(watches, handles, closed) && w in watches
    ensures ClosedOnce(watches - {w}, handles, CloseHandle(closed, watches[w].handle))
  {
    var h := watches[w].handle;
    var gone := CloseHandle([], h);
    assert CloseHandle(closed, h) == closed + gone;
    forall x: int | HasHandle(watches, x) && x != INVALID && x !in gone
      ensures HasHandle(watches - {w}, x)
    {
      var v :| v in watches && watches[v].handle == x;
      assert v in watches - {w};
    }
    ClosedMore(watches, watches - {w}, handles, closed, gone);
  }

  lemma ClosedInvalidate(watches: map<Id, Watch>, handles: nat, closed: seq<int>, which: set<Id>, n: nat)
    requires ClosedOnce(watches, handles, closed) && forall w | w in watches :: w < n
    ensures ClosedOnce(Invalidated(watches, which), handles, closed + HandlesOf(watches, which, n))
  {
    var watches', gone := Invalidated(watches, which), HandlesOf(watches, which, n);
    HandlesOfDistinct(watches, which, n);
    GoneHandles(watches, handles, closed, which, n);
    forall h: int | HasHandle(watches, h) && h != INVALID && h !in gone
      ensures HasHandle(watches', h)
    {
      var w :| w in watches && watches[w].handle == h;
      HandlesOfMembers(watches, which, n, h);
      assert w in watches' && watches'[w].handle == h;
    }
    hide HandlesOf, Distinct;
    ClosedMore(watches, watches', handles, closed, gone);
  }

  /** The handles that invalidating closes are the open handles of the given watches. */
  lemma GoneHandles(watches: map<Id, Watch>, handles: nat, closed: seq<int>, which: set<Id>, n: nat)
    requires ClosedOnce(watches, handles, closed) && forall w | w in watches :: w < n
    ensures forall h | h in HandlesOf(watches, which, n) :: 0 <= h < handles && h !in closed
    ensures forall w | w in watches && w !in which && watches[w].handle != INVALID ::
              watches[w].handle !in HandlesOf(watches, which, n)
  {
    forall h: int | h in HandlesOf(watches, which, n)
      ensures 0 <= h < handles && h !in closed
      ensures forall w | w in watches && w !in which :: watches[w].handle != h
    {
      HandlesOfMembers(watches, which, n, h);
    }
  }

  lemma ClosedRefuse(watches: map<Id, Watch>, handles: nat, closed: seq<int>)
    requires ClosedOnce(watches, handles, closed)
    ensures ClosedOnce(watches, handles + 1, closed + [handles])
  {
    DistinctAppend(closed, handles);
    hide Distinct, HasHandle, HandlesUnique;
  }

  lemma ClosedRegister(watches: map<Id, Watch>, handles: nat, closed: seq<int>, w: Id, path: Path)
    requires ClosedOnce(watches, handles, closed) && w !in watches
    ensures ClosedOnce(watches[w := Watch(path, handles)], handles + 1, closed)
  {
    hide Distinct;
    var watches' := watches[w := Watch(path, handles)];
    forall h: int | 0 <= h < handles + 1 && h !in closed
      ensures HasHandle(watches', h)
    {
      if h == handles {
        assert watches'[w].handle == h;
      } else {
        assert HasHandle(watches, h);
        var v :| v in watches && watches[v].handle == h;
        assert v in watches' && watches'[v].handle == h;
      }
    }
  }

  // ----- what is read

  lemma TrackedRemove(listed: set<Id>, reading: set<Id>, port: seq<Packet>, w: Id)
    requires Tracked(listed, reading, port) && w !in reading && NotAtPort(port, w)
    ensures Tracked(listed - {w}, reading, port)
  {
  }

  lemma TrackedMore(listed: set<Id>, reading: set<Id>, port: seq<Packet>, w: Id)
    requires Tracked(listed, reading, port) && w !in listed
    ensures Tracked(listed + {w}, reading, port) && w !in reading && NotAtPort(port, w)
  {
  }

  lemma TrackedStart(listed: set<Id>, reading: set<Id>, port: seq<Packet>, w: Id)
    requires Tracked(listed, reading, port) && w in listed && NotAtPort(port, w)
    ensures Tracked(listed, reading + {w}, port)
  {
  }

  lemma TrackedAppend(listed: set<Id>, reading: set<Id>, port: seq<Packet>, p: Packet)
    requires Tracked(listed, reading, port)
    requires p.Completed? ==> p.w in reading
    ensures Tracked(listed, if p.Completed? then reading - {p.w} else reading, port + [p])
  {
  }

  lemma TrackedTake(listed: set<Id>, reading: set<Id>, port: seq<Packet>, i: nat)
    requires Tracked(listed, reading, port) && i < |port|
    ensures Tracked(listed, reading, port[..i] + port[i + 1..])
    ensures port[i].Completed? ==>
              port[i].w in listed && port[i].w !in reading && NotAtPort(port[..i] + port[i + 1..], port[i].w)
  {
    var port' := port[..i] + port[i + 1..];
    assert forall k | 0 <= k < |port'| :: port'[k] == port[if k < i then k else k + 1];
  }

  // ----- every step keeps the invariant

  /** No read and no completion for this watch. */
  ghost predicate IdleWatch(s: State, w: Id) {
    w in s.watches && w !in s.reading && NotAtPort(s.port, w)
  }

  lemma RemoveIdle(s: State, w: Id)
    requires Inv(s) && IdleWatch(s, w)
    ensures Inv(RemoveWatch(s, w))
  {
    FreedRemove(s.watches.Keys, s.created, s.freed, w);
    ClosedRemove(s.watches, s.handles, s.closed, w);
    TrackedRemove(s.watches.Keys, s.reading, s.port, w);
    assert (s.watches - {w}).Keys == s.watches.Keys - {w};
    hide Tracked, FreedOnce, ClosedOnce;
  }

  lemma StartRead(s: State, w: Id)
    requires Inv(s) && IdleWatch(s, w)
    ensures Inv(s.(reading := s.reading + {w}))
  {
    TrackedStart(s.watches.Keys, s.reading, s.port, w);
    hide Disjoint, Tracked, FreedOnce, ClosedOnce;
  }

  lemma ReadAgainKeeps(s: State, w: Id, armed: bool)
    requires Inv(s) && IdleWatch(s, w)
    ensures Inv(ReadAgain(s, w, armed))
  {
    hide Inv, IdleWatch;
    RemoveIdle(s, w);
    StartRead(s, w);
  }

  lemma InvalidateKeeps(s: State, which: set<Id>)
    requires Inv(s)
    ensures Inv(Invalidate(s, which)) && Invalidate(s, which).watches.Keys == s.watches.Keys
  {
    ClosedInvalidate(s.watches, s.handles, s.closed, which, s.created);
    assert Invalidate(s, which).watches.Keys == s.watches.Keys;
    hide Tracked, FreedOnce, ClosedOnce, HandlesOf;
  }

  lemma RefuseKeeps(s: State)
    requires Inv(s)
    ensures Inv(Refuse(s))
  {
    FreedRefuse(s.watches.Keys, s.created, s.freed);
    ClosedRefuse(s.watches, s.handles, s.closed);
    hide Disjoint, Tracked, FreedOnce, ClosedOnce;
  }

  /** A directory that is unrelated to every open one may be registered. */
  lemma RegisterKeeps(s: State, path: Path)
    requires Inv(s)
    requires forall w | w in s.watches && s.watches[w].handle != INVALID ::
               !(s.watches[w].realpath <= path) && !(path <= s.watches[w].realpath)
    ensures Inv(Register(s, path)) && IdleWatch(Register(s, path), s.created)
  {
    FreedRegister(s.watches.Keys, s.created, s.freed);
    ClosedRegister(s.watches, s.handles, s.closed, s.created, path);
    TrackedMore(s.watches.Keys, s.reading, s.port, s.created);
    assert Register(s, path).watches.Keys == s.watches.Keys + {s.created};
    hide Tracked, FreedOnce, ClosedOnce, NotAtPort;
  }

  lemma AddKeeps(s: State, a: Answers)
    requires Inv(s)
    ensures Inv(AddNew(s, a))
  {
    hide Inv, IdleWatch;
    if a.found {
      if Covered(s, a.realpath) || !a.attached {
        RefuseKeeps(s);
      } else {
        var s1 := Invalidate(s, CoveredBy(s, a.realpath));
        InvalidateKeeps(s, CoveredBy(s, a.realpath));
        RegisterKeeps(s1, a.realpath);
        if a.armed {
          StartRead(Register(s1, a.realpath), s.created);
        } else {
          RemoveIdle(Register(s1, a.realpath), s.created);
        }
      }
    }
  }

  lemma HandleKeeps(s: State, p: Packet, a: Answers)
    requires Inv(s) && (p.Completed? ==> IdleWatch(s, p.w))
    ensures Inv(HandlePacket(s, p, a))
  {
    match p
    case Completed(w, outcome) =>
      hide Inv, IdleWatch;
      if outcome != Nothing {
        RemoveIdle(s, w);
        ReadAgainKeeps(s.(pushed := s.pushed + [w]), w, a.armed);
      }
    case AddWatch => AddKeeps(s, a);
    case Shutdown =>
      InvalidateKeeps(s, s.watches.Keys);
      hide Disjoint, Tracked, ClosedOnce, FreedOnce, HandlesOf;
  }

  lemma StepKeeps(s: State, step: Step)
    requires Inv(s) && Enabled(s, step)
    ensures Inv(Apply(s, step))
  {
    hide HandlePacket, Disjoint, Tracked, ClosedOnce, FreedOnce, NotAtPort;
    match step
    case Request(p) => TrackedAppend(s.watches.Keys, s.reading, s.port, p);
    case ReadEnds(w, outcome) => TrackedAppend(s.watches.Keys, s.reading, s.port, Completed(w, outcome));
    case Handle(i, a) =>
      TrackedTake(s.watches.Keys, s.reading, s.port, i);
      HandleKeeps(s.(port := s.port[..i] + s.port[i + 1..]), s.port[i], a);
  }

  /** In every state of every run: open directories are unrelated, completions refer to listed watches,
      and nothing is closed or freed twice or forgotten. */
  lemma {:induction false} RunsKeep(states: seq<State>, steps: seq<Step>, i: nat)
    requires IsRun(states, steps) && i < |states|
    ensures Inv(states[i])
    decreases i
  {
    if i > 0 {
      hide Inv, Apply;
      RunsKeep(states, steps, i - 1);
      assert states[(i - 1) + 1] == Apply(states[i - 1], steps[i - 1]);
      StepKeeps(states[i - 1], steps[i - 1]);
    }
  }

  /** A packet that is handled never refers to a freed watch: the test in Apply always passes. */
  lemma NoFreedWatchIsUsed(states: seq<State>, steps: seq<Step>, i: nat, k: nat)
    requires IsRun(states, steps) && i < |states| && k < |states[i].port| && states[i].port[k].Completed?
    ensures states[i].port[k].w in states[i].watches && states[i].port[k].w !in states[i].freed
  {
    RunsKeep(states, steps, i);
  }

  // ----- what "already being watched" means to the code

  /** The prefix ends where a path component of `path` ends. */
  predicate AtBoundary(prefix: Path, path: Path)
    requires prefix <= path
  {
    |prefix| == |path| || path[|prefix|] == '\\' || (prefix != [] && prefix[|prefix| - 1] == '\\')
  }

  /** The directory lies in one that is open. */
  ghost predicate Watched(s: State, path: Path) {
    exists w | w in s.watches && s.watches[w].realpath <= path ::
      s.watches[w].handle != INVALID && AtBoundary(s.watches[w].realpath, path)
  }

  /** Listed, and a prefix of the path, character by character: open, or closed but not yet removed. */
  predicate OpenPrefix(s: State, w: Id, path: Path) {
    w in s.watches && s.watches[w].realpath <= path && s.watches[w].handle != INVALID
  }

  predicate ClosedPrefix(s: State, w: Id, path: Path) {
    w in s.watches && s.watches[w].realpath <= path && s.watches[w].handle == INVALID
  }

  /** The test of add_watch compares characters, not path components, and looks at closed directories too. It
      refuses just the directories that are watched already if and only if no open prefix ends inside a path
      component, and no closed prefix stands there without an open one. */
  lemma RefusalIsExact(s: State, path: Path)
    requires Inv(s)
    ensures (Covered(s, path) <==> Watched(s, path)) <==>
            && (forall w: Id | OpenPrefix(s, w, path) :: AtBoundary(s.watches[w].realpath, path))
            && ((exists w: Id :: ClosedPrefix(s, w, path)) ==> exists w: Id :: OpenPrefix(s, w, path))
  {
    hide Tracked, FreedOnce, ClosedOnce, AtBoundary;
    forall v: Id, w: Id | OpenPrefix(s, v, path) && OpenPrefix(s, w, path)
      ensures v == w
    {
      PrefixesCompare(s.watches[v].realpath, s.watches[w].realpath, path);
    }
    assert Covered(s, path) <==>
           (exists w: Id :: OpenPrefix(s, w, path)) || exists w: Id :: ClosedPrefix(s, w, path) by {
      forall w: Id | w in s.watches && s.watches[w].realpath <= path
        ensures OpenPrefix(s, w, path) || ClosedPrefix(s, w, path)
      {
      }
    }
    assert Watched(s, path) <==> exists w: Id :: OpenPrefix(s, w, path) && AtBoundary(s.watches[w].realpath, path);
  }

  lemma PrefixesCompare(a: Path, b: Path, path: Path)
    requires a <= path && b <= path
    ensures a <= b || b <= a
  {
    if |a| <= |b| {
      assert a == path[..|a|] == b[..|a|];
    } else {
      assert b == path[..|b|] == a[..|b|];
    }
  }

  /** A directory that is closed but still listed refuses everything below it. */
  lemma ClosedPrefixRefuses(s: State, w: Id, path: Path)
    requires w in s.watches && s.watches[w].realpath <= path
    requires forall v | v in s.watches && s.watches[v].realpath <= path :: s.watches[v].handle == INVALID
    ensures Covered(s, path) && !Watched(s, path)
  {
    assert s.watches[w].realpath <= path;
  }

  /** After the directory `a` is watched, its sibling `ab` is refused. */
  lemma SiblingIsRefused()
    ensures var s := HandlePacket(Initial, AddWatch, Answers(true, "C:\\a", true, true));
            && s.watches == map[0 := Watch("C:\\a", 0)] && !Watched(s, "C:\\ab")
            && HandlePacket(s, AddWatch, Answers(true, "C:\\ab", true, true)).watches == s.watches
  {
    var s := HandlePacket(Initial, AddWatch, Answers(true, "C:\\a", true, true));
    var a, b := "C:\\a", "C:\\ab";
    assert s.watches == map[0 := Watch(a, 0)];
    assert b[..4] == a && b[4] == 'b' && a[3] == 'a';
    assert s.watches[0].realpath <= b;
  }

  /** Adding `path` to an empty list. */
  lemma FirstAdd(path: Path)
    ensures AddNew(Initial, Answers(true, path, true, true))
            == State(map[0 := Watch(path, 0)], {0}, [], false, 1, 1, [], [], [], 0)
  {
    assert CoveredBy(Initial, path) == {};
    assert Invalidate(Initial, {}) == Initial;
  }

  /** Adding a directory above the one that is watched closes that one. */
  lemma SecondAdd(a: Path, b: Path, s: State)
    requires a <= b && a != b && s == State(map[0 := Watch(b, 0)], {0}, [], false, 1, 1, [], [], [], 1)
    ensures AddNew(s, Answers(true, a, true, true))
            == State(map[0 := Watch(b, INVALID), 1 := Watch(a, 1)], {0, 1}, [], false, 2, 2, [0], [], [], 1)
  {
    assert !Covered(s, a);
    assert CoveredBy(s, a) == {0} by {
      assert s.watches[0].realpath == b;
    }
    assert HandlesOf(s.watches, {0}, 1) == [0] by {
      assert HandlesOf(s.watches, {0}, 0) == [];
    }
    assert Invalidate(s, {0}).watches == map[0 := Watch(b, INVALID)];
  }

  /** Some run ends in `s`. */
  ghost predicate Reachable(s: State) {
    exists states: seq<State>, steps: seq<Step> :: IsRun(states, steps) && states[|steps|] == s
  }

  lemma ReachInitial()
    ensures Reachable(Initial)
  {
    var states, steps: seq<Step> := [Initial], [];
    assert IsRun(states, steps) && states[|steps|] == Initial;
  }

  lemma ReachNext(s: State, step: Step)
    requires Reachable(s) && Enabled(s, step)
    ensures Reachable(Apply(s, step))
  {
    hide Apply, Enabled;
    var states: seq<State>, steps: seq<Step> :| IsRun(states, steps) && states[|steps|] == s;
    var states', steps' := states + [Apply(s, step)], steps + [step];
    forall i | 0 <= i < |steps'|
      ensures Enabled(states'[i], steps'[i]) && states'[i + 1] == Apply(states'[i], steps'[i])
    {
      if i < |steps| {
        assert Enabled(states[i], steps[i]) && states[i + 1] == Apply(states[i], steps[i]);
      }
    }
    assert IsRun(states', steps') && states'[|steps'|] == Apply(s, step);
  }

  /** A run that leads there, for any directory and one above it, say `C:\a\b` and `C:\a`: the first is watched and
      then covered by the second, whose read fails and is handled before the cancelled read of the first. */
  lemma ClosedPrefixIsReached(a: Path, b: Path) returns (s: State)
    requires a <= b && a != b
    ensures Reachable(s) && !s.shuttingDown && ClosedPrefix(s, 0, b) && Covered(s, b) && !Watched(s, b)
  {
    s := BothAdded(a, b);
    hide Reachable;
    ReachNext(s, ReadEnds(1, Failed));
    s := Apply(s, ReadEnds(1, Failed));
    var answers := Answers(false, a, false, false);
    FailedRead(a, b, s, answers);
    ReachNext(s, Handle(0, answers));
    s := Apply(s, Handle(0, answers));
    hide Apply;
    assert s.watches[0].realpath <= b;
  }

  lemma BothAdded(a: Path, b: Path) returns (s: State)
    requires a <= b && a != b
    ensures Reachable(s)
    ensures s == State(map[0 := Watch(b, INVALID), 1 := Watch(a, 1)], {0, 1}, [], false, 2, 2, [0], [], [], 2)
  {
    ReachInitial();
    AddRequest(Initial, Answers(true, b, true, true));
    FirstAdd(b);
    s := Answer(AddNew(Initial, Answers(true, b, true, true)));
    AddRequest(s, Answers(true, a, true, true));
    SecondAdd(a, b, s);
    s := Answer(AddNew(s, Answers(true, a, true, true)));
    hide Reachable;
  }

  /** A request that arrives and is handled. */
  lemma AddRequest(s: State, a: Answers)
    requires Reachable(s) && s.port == [] && !s.shuttingDown
    ensures Reachable(Answer(AddNew(s, a)))
  {
    hide Reachable, AddNew;
    ReachNext(s, Request(AddWatch));
    var s1 := Apply(s, Request(AddWatch));
    TakesFirst(s1, s, a);
    ReachNext(s1, Handle(0, a));
  }

  /** An add request that is alone at the port. */
  lemma TakesFirst(s: State, idle: State, a: Answers)
    requires s == idle.(port := [AddWatch]) && idle.port == [] && !s.shuttingDown
    ensures Apply(s, Handle(0, a)) == Answer(AddNew(idle, a))
  {
    hide AddNew;
    assert s.(port := s.port[..0] + s.port[1..]) == idle;
  }

  lemma FailedRead(a: Path, b: Path, s: State, answers: Answers)
    requires s == State(map[0 := Watch(b, INVALID), 1 := Watch(a, 1)], {0}, [Completed(1, Failed)],
                        false, 2, 2, [0], [], [], 2)
    ensures Apply(s, Handle(0, answers)) == State(map[0 := Watch(b, INVALID)], {0}, [], false, 2, 2,
                                                  [0, 1], [1], [], 2)
  {
    assert s.watches - {1} == map[0 := Watch(b, INVALID)];
    assert s.port[..0] + s.port[1..] == [];
  }
}
