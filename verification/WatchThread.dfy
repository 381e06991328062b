/** The watcher thread of fswatch_win_stubs.c with its list and its loops, proved against the step system of
    WatchList. The list is newest first; its links are the order of the sequence. */
module WatchThread {
  import opened WatchList

  /** `struct watch`, numbered in the order of allocation. */
  datatype Entry = Entry(id: Id, realpath: Path, handle: int)

  function WatchOf(e: Entry): Watch {
    Watch(e.realpath, e.handle)
  }

  ghost predicate Matches(list: seq<Entry>, watches: map<Id, Watch>, n: nat) {
    forall i | 0 <= i < |list| :: list[i].id < n && list[i].id in watches && watches[list[i].id] == WatchOf(list[i])
  }

  ghost predicate Listed(list: seq<Entry>, w: Id) {
    exists i | 0 <= i < |list| :: list[i].id == w
  }

  ghost predicate AllListed(list: seq<Entry>, watches: map<Id, Watch>, n: nat) {
    forall w: Id | w in watches && w < n :: Listed(list, w)
  }

  ghost predicate NewestFirst(list: seq<Entry>) {
    forall i, j | 0 <= i < j < |list| :: list[i].id > list[j].id
  }

  /** The list has an entry for each watch with a number below `n` and no others, newest first. */
  ghost predicate Represents(list: seq<Entry>, watches: map<Id, Watch>, n: nat) {
    Matches(list, watches, n) && AllListed(list, watches, n) && NewestFirst(list)
  }

  /** The entries that a walk closes: all of them, or those at or below a directory. */
  datatype Which = All | Below(path: Path)

  function Selects(which: Which): Path -> bool {
    (p: Path) => which.All? || which.path <= p
  }

  /** The handles closed by a walk over the list that closes the entries whose path meets `cond`. */
  function WalkCloses(list: seq<Entry>, cond: Path -> bool): seq<int> {
    if list == [] then []
    else (if cond(list[0].realpath) then CloseHandle([], list[0].handle) else []) + WalkCloses(list[1..], cond)
  }

  function WalkLeaves(list: seq<Entry>, cond: Path -> bool): (r: seq<Entry>)
    ensures |r| == |list|
  {
    seq(|list|, i requires 0 <= i < |list| => if cond(list[i].realpath) then list[i].(handle := INVALID) else list[i])
  }

  ghost function Meets(watches: map<Id, Watch>, cond: Path -> bool): set<Id> {
    set w | w in watches && cond(watches[w].realpath)
  }

  /** A walk closes handles in the order of the step system. */
  lemma {:induction false} WalkIsHandlesOf(list: seq<Entry>, watches: map<Id, Watch>, cond: Path -> bool, n: nat)
    requires Represents(list, watches, n)
    ensures WalkCloses(list, cond) == HandlesOf(watches, Meets(watches, cond), n)
    decreases n
  {
    hide WalkCloses, HandlesOf, Meets, NewestFirst, AllListed;
    if n == 0 {
      NothingBelowZero(list, watches, cond);
    } else if n - 1 in watches {
      HeadIsNewest(list, watches, n);
      WalkIsHandlesOf(list[1..], watches, cond, n - 1);
      WalkHead(list, watches, cond, n);
    } else {
      SkipNumber(list, watches, n);
      WalkIsHandlesOf(list, watches, cond, n - 1);
      NoSuchNumber(watches, Meets(watches, cond), n);
    }
  }

  lemma NothingBelowZero(list: seq<Entry>, watches: map<Id, Watch>, cond: Path -> bool)
    requires Matches(list, watches, 0)
    ensures WalkCloses(list, cond) == HandlesOf(watches, Meets(watches, cond), 0)
  {
  }

  lemma WalkHead(list: seq<Entry>, watches: map<Id, Watch>, cond: Path -> bool, n: nat)
    requires n > 0 && n - 1 in watches && list != [] && watches[n - 1] == WatchOf(list[0])
    requires WalkCloses(list[1..], cond) == HandlesOf(watches, Meets(watches, cond), n - 1)
    ensures WalkCloses(list, cond) == HandlesOf(watches, Meets(watches, cond), n)
  {
    assert n - 1 in Meets(watches, cond) <==> cond(list[0].realpath);
  }

  lemma NoSuchNumber(watches: map<Id, Watch>, which: set<Id>, n: nat)
    requires n > 0 && n - 1 !in watches
    ensures HandlesOf(watches, which, n) == HandlesOf(watches, which, n - 1)
  {
  }

  lemma HeadIsNewest(list: seq<Entry>, watches: map<Id, Watch>, n: nat)
    requires Represents(list, watches, n) && n > 0 && n - 1 in watches
    ensures list != [] && list[0].id == n - 1 && watches[n - 1] == WatchOf(list[0])
    ensures Represents(list[1..], watches, n - 1)
  {
    assert Listed(list, n - 1);
    assert list[0].id == n - 1;
    var rest := list[1..];
    forall w: Id | w in watches && w < n - 1
      ensures Listed(rest, w)
    {
      assert Listed(list, w);
      var i :| 0 <= i < |list| && list[i].id == w;
      assert rest[i - 1].id == w;
    }
  }

  lemma SkipNumber(list: seq<Entry>, watches: map<Id, Watch>, n: nat)
    requires Represents(list, watches, n) && n > 0 && n - 1 !in watches
    ensures Represents(list, watches, n - 1)
  {
  }

  lemma LeavesRepresent(list: seq<Entry>, watches: map<Id, Watch>, cond: Path -> bool, n: nat)
    requires Represents(list, watches, n)
    ensures Represents(WalkLeaves(list, cond), Invalidated(watches, Meets(watches, cond)), n)
  {
    var list' := WalkLeaves(list, cond);
    forall w: Id | w in watches && w < n
      ensures Listed(list', w)
    {
      assert Listed(list, w);
      var i :| 0 <= i < |list| && list[i].id == w;
      assert list'[i].id == w;
    }
  }

  lemma GrowRepresents(list: seq<Entry>, watches: map<Id, Watch>, n: nat)
    requires Represents(list, watches, n) && n !in watches
    ensures Represents(list, watches, n + 1)
  {
  }

  /** The list without entry `i`. */
  function Cut(list: seq<Entry>, i: nat): (r: seq<Entry>)
    requires i < |list|
    ensures |r| == |list| - 1 && forall k | 0 <= k < |r| :: r[k] == list[if k < i then k else k + 1]
  {
    list[..i] + list[i + 1..]
  }

  lemma CutRepresents(list: seq<Entry>, watches: map<Id, Watch>, n: nat, i: nat)
    requires Represents(list, watches, n) && i < |list|
    ensures Represents(Cut(list, i), watches - {list[i].id}, n)
  {
    hide Cut;
    var list' := Cut(list, i);
    assert NewestFirst(list');
    assert Matches(list', watches - {list[i].id}, n);
    CutListed(list, watches, n, i);
  }

  lemma CutListed(list: seq<Entry>, watches: map<Id, Watch>, n: nat, i: nat)
    requires AllListed(list, watches, n) && i < |list|
    ensures AllListed(Cut(list, i), watches - {list[i].id}, n)
  {
    var list' := Cut(list, i);
    forall w: Id | w in watches && w < n && w != list[i].id
      ensures Listed(list', w)
    {
      assert Listed(list, w);
      var k :| 0 <= k < |list| && list[k].id == w;
      assert list'[if k < i then k else k - 1].id == w;
    }
  }

  lemma ConsRepresents(list: seq<Entry>, watches: map<Id, Watch>, n: nat, e: Entry)
    requires Represents(list, watches, n) && n !in watches && e.id == n
    ensures Represents([e] + list, watches[n := WatchOf(e)], n + 1)
  {
    var list' := [e] + list;
    forall w: Id | w in watches && w < n
      ensures Listed(list', w)
    {
      assert Listed(list, w);
      var k :| 0 <= k < |list| && list[k].id == w;
      assert list'[k + 1].id == w;
    }
    assert list'[0].id == n;
  }

  lemma WalkStart(list: seq<Entry>, cond: Path -> bool)
    ensures WalkCloses(list[..0], cond) == []
  {
  }

  lemma {:induction false} WalkStep(list: seq<Entry>, cond: Path -> bool, i: nat)
    requires i < |list|
    ensures WalkCloses(list[..i + 1], cond)
            == WalkCloses(list[..i], cond) + if cond(list[i].realpath) then CloseHandle([], list[i].handle) else []
    decreases i
  {
    if i == 0 {
      assert list[..1][1..] == [];
    } else {
      WalkStep(list[1..], cond, i - 1);
      assert list[..i + 1][1..] == list[1..][..i] && list[..i][1..] == list[1..][..i - 1];
    }
  }

  lemma BelowIsCovered(s: State, path: Path)
    ensures Meets(s.watches, Selects(Below(path))) == CoveredBy(s, path)
  {
  }

  lemma InvalidateCreates(s: State, which: set<Id>)
    ensures Invalidate(s, which).created == s.created && Invalidate(s, which).handles == s.handles
  {
  }

  class Watcher {
    var list: seq<Entry>
    var reading: set<Id>
    /** The packets waiting at the completion port. */
    var port: seq<Packet>
    var shuttingDown: bool
    var created: nat
    var handles: nat
    /** A record of what was closed, freed and pushed, and of the answers given. */
    var closed: seq<int>
    var freed: seq<Id>
    var pushed: seq<Id>
    var answered: nat

    /** The thread is in state `s` of the step system. */
    ghost predicate Is(s: State)
      reads this
    {
      && Represents(list, s.watches, created) && (forall w | w in s.watches :: w < created)
      && s.reading == reading && s.shuttingDown == shuttingDown && s.created == created && s.handles == handles
      && s.closed == closed && s.freed == freed && s.port == port
      && s.pushed == pushed && s.answered == answered
    }

    constructor ()
      ensures Is(Initial)
    {
      list, reading, port, shuttingDown, created, handles := [], {}, [], false, 0, 0;
      closed, freed, pushed, answered := [], [], [], 0;
    }

    /** The first loop of add_watch. */
    method FindPrefix(path: Path, ghost s: State) returns (found: bool)
      requires Is(s)
      ensures found <==> Covered(s, path)
    {
      var i := 0;
      while i < |list|
        invariant 0 <= i <= |list| && forall k | 0 <= k < i :: !(list[k].realpath <= path)
      {
        var hit := IsPrefix(list[i].realpath, path);
        if hit {
          assert s.watches[list[i].id].realpath <= path;
          return true;
        }
        i := i + 1;
      }
      return false;
    }

    /** The second loop of add_watch and the loop of the shutdown request: cancel and close. */
    method CloseWhere(which: Which, ghost s: State)
      requires Is(s)
      modifies this`list, this`closed
      ensures Is(Invalidate(s, Meets(s.watches, Selects(which))))
    {
      hide Represents, HandlesOf, WalkCloses;
      ghost var before := list;
      CloseWalk(which);
      WalkIsHandlesOf(before, s.watches, Selects(which), created);
      LeavesRepresent(before, s.watches, Selects(which), created);
    }

    method CloseWalk(which: Which)
      modifies this`list, this`closed
      ensures list == WalkLeaves(old(list), Selects(which))
      ensures closed == old(closed) + WalkCloses(old(list), Selects(which))
    {
      hide WalkCloses;
      ghost var before := list;
      ghost var cond := Selects(which);
      WalkStart(before, cond);
      var i := 0;
      while i < |list|
        invariant 0 <= i <= |list| == |before|
        invariant forall k | i <= k < |list| :: list[k] == before[k]
        invariant forall k | 0 <= k < i :: list[k] == WalkLeaves(before, cond)[k]
        invariant closed == old(closed) + WalkCloses(before[..i], cond)
      {
        WalkStep(before, cond, i);
        var hit := true;
        if which.Below? {
          hit := IsPrefix(which.path, list[i].realpath);
        }
        if hit {
          closed := CloseHandle(closed, list[i].handle);
          list := list[i := list[i].(handle := INVALID)];
        }
        i := i + 1;
      }
      assert before[..i] == before;
    }

    /** Where the watch that a packet points to is in the list. */
    method Find(w: Id, ghost s: State) returns (i: nat)
      requires Is(s) && w in s.watches
      ensures i < |list| && list[i].id == w
    {
      assert Listed(list, w);
      ghost var k :| 0 <= k < |list| && list[k].id == w;
      i := 0;
      while list[i].id != w
        invariant 0 <= i <= k < |list|
        decreases k - i
      {
        i := i + 1;
      }
    }

    /** remove_watch and free_watch */
    method Remove(w: Id, ghost s: State)
      requires Is(s) && w in s.watches
      modifies this`list, this`closed, this`freed
      ensures Is(RemoveWatch(s, w))
    {
      var i := Find(w, s);
      assert WatchOf(list[i]) == s.watches[w];
      CutRepresents(list, s.watches, created, i);
      hide Matches, AllListed, NewestFirst, Cut;
      closed := CloseHandle(closed, list[i].handle);
      freed := freed + [w];
      list := Cut(list, i);
    }

    /** read_changes: no read can be started on a closed handle. */
    method ReadChanges(w: Id, armed: bool, ghost s: State) returns (ok: bool)
      requires Is(s) && w in s.watches
      modifies this`reading
      ensures ok <==> armed && s.watches[w].handle != INVALID
      ensures Is(if ok then s.(reading := s.reading + {w}) else s)
    {
      var i := Find(w, s);
      assert WatchOf(list[i]) == s.watches[w];
      hide Matches, AllListed, NewestFirst;
      ok := armed && list[i].handle != INVALID;
      if ok {
        reading := reading + {w};
      }
    }

    /** The number of the next watch. */
    method Newest(ghost s: State) returns (w: Id)
      requires Is(s)
      ensures w == s.created
    {
      w := created;
    }

    /** The new watch is freed again. */
    method Discard(ghost s: State)
      requires Is(s)
      modifies this`created, this`handles, this`closed, this`freed
      ensures Is(Refuse(s))
    {
      GrowRepresents(list, s.watches, created);
      created, handles, closed, freed := created + 1, handles + 1, closed + [handles], freed + [created];
    }

    /** The new watch becomes the head of the list. */
    method Enter(path: Path, ghost s: State)
      requires Is(s)
      modifies this`list, this`created, this`handles
      ensures Is(Register(s, path))
    {
      ConsRepresents(list, s.watches, created, Entry(created, path, handles));
      hide Represents;
      list := [Entry(created, path, handles)] + list;
      created, handles := created + 1, handles + 1;
    }

    /** An add request: add_watch, then the first read of the new watch. */
    method Add(a: Answers, ghost s: State)
      requires Is(s)
      modifies this
      ensures Is(AddNew(s, a))
    {
      hide Is, Invalidate, Refuse;
      if !a.found {
        return;
      }
      var covered := FindPrefix(a.realpath, s);
      if covered || !a.attached {
        Discard(s);
        return;
      }
      CloseWhere(Below(a.realpath), s);
      BelowIsCovered(s, a.realpath);
      ghost var s1 := Invalidate(s, CoveredBy(s, a.realpath));
      var w := Newest(s1);
      Enter(a.realpath, s1);
      ghost var s2 := Register(s1, a.realpath);
      InvalidateCreates(s, CoveredBy(s, a.realpath));
      var ok := ReadChanges(w, a.armed, s2);
      if !ok {
        Remove(w, s2);
      }
    }

    /** One turn of the loop of watch_thread. */
    method Handle(p: Packet, a: Answers, ghost s: State)
      requires Is(s) && (p.Completed? ==> p.w in s.watches)
      modifies this
      ensures Is(HandlePacket(s, p, a))
    {
      hide Represents, AddNew, HandlesOf;
      match p
      case Completed(w, Failed) =>
        Remove(w, s);
      case Completed(w, Nothing) =>
      case Completed(w, Events) =>
        if shuttingDown {
          Remove(w, s);
        } else {
          pushed := pushed + [w];
          ghost var s1 := s.(pushed := s.pushed + [w]);
          var ok := ReadChanges(w, a.armed, s1);
          if !ok {
            Remove(w, s1);
          }
        }
      case AddWatch =>
        if !shuttingDown {
          Add(a, s);
        }
        answered := answered + 1;
      case Shutdown =>
        shuttingDown := true;
        ghost var s1 := s.(shuttingDown := true);
        CloseWhere(All, s1);
        assert Meets(s1.watches, Selects(All)) == s.watches.Keys;
    }

    /** The condition of the loop. */
    method Continues(ghost s: State) returns (b: bool)
      requires Is(s)
      ensures b <==> Running(s)
    {
      b := list != [] || !shuttingDown;
      if list != [] {
        assert list[0].id in s.watches;
      } else if s.watches != map[] {
        var w :| w in s.watches;
        assert Listed(list, w);
      }
    }

    /** One step: a packet arrives, a read ends, or the thread takes a packet from the port and handles it. The
        thread never looks at a watch that is no longer listed. */
    method Take(step: Step, ghost s: State)
      requires Is(s) && WatchList.Inv(s) && Enabled(s, step)
      modifies this
      ensures Is(Apply(s, step))
    {
      hide Represents, HandlePacket, Disjoint, FreedOnce, ClosedOnce;
      match step
      case Request(p) =>
        port := port + [p];
      case ReadEnds(w, outcome) =>
        reading := reading - {w};
        port := port + [Completed(w, outcome)];
      case Handle(i, a) =>
        var p := port[i];
        port := port[..i] + port[i + 1..];
        Handle(p, a, s.(port := s.port[..i] + s.port[i + 1..]));
    }

    /** The loop of watch_thread: whatever arrives, and in whatever order packets are taken, the thread goes through
        the states of a run, which are those of the step system with all that holds of them. */
    method Run(steps: seq<Step>, ghost states: seq<State>)
      requires Is(Initial) && IsRun(states, steps)
      modifies this
      ensures Is(states[|steps|]) && WatchList.Inv(states[|steps|])
    {
      hide Is, Apply, WatchList.Inv;
      RunsKeep(states, steps, |steps|);
      for i := 0 to |steps|
        invariant Is(states[i])
      {
        RunsKeep(states, steps, i);
        assert Enabled(states[i], steps[i]) && states[i + 1] == Apply(states[i], steps[i]);
        Take(steps[i], states[i]);
      }
    }
  }
}
