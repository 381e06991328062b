/** The shared list of event packets of the Windows watcher (fswatch_win_stubs.c), as a step system:
    every read of the list head and every compare-exchange is a step of its own, any number of threads
    push and pop, and the address of a freed cell may be handed out again. push_events compares the result of the
    exchange with `e->next`, which C may read before the exchange or after it; both are steps here. */
module EventList {

  type Addr = nat
  type Thread = nat

  /** `struct events`; the packet stands for its path and buffer. Address 0 is the null pointer. */
  datatype Cell = Cell(next: Addr, packet: nat)

  /** Where a thread is in push_events, in pop_events, or in freeing the chain it popped. After the exchange a
      pushing thread compares what it found there with `e->next`; `read` is what that was before the exchange. The
      last position also records which cells the rest of the chain consists of. */
  datatype Pc =
    | Idle
    | Allocated(e: Addr)
    | Linked(e: Addr)
    | Comparing(e: Addr, read: Addr, found: Addr)
    | WantPop
    | Popping(expected: Addr)
    | Holding(chain: Addr, cells: seq<Addr>)

  /** The memory shared by the threads, and a record of what happened: how many packets were issued, the packets
      in the order they entered the list, the chains that were taken out, and the cells of the list. */
  datatype Memory = Memory(
    heap: map<Addr, Cell>,
    events: Addr,
    issued: nat,
    pushed: seq<nat>,
    popped: seq<seq<nat>>,
    list: seq<Addr>)

  datatype State = State(pcs: map<Thread, Pc>, mem: Memory)

  const Initial := State(map[], Memory(map[], 0, 0, [], [], []))

  datatype Step =
    | Alloc(t: Thread, e: Addr)
    | Link(t: Thread)
    | ExchangePush(t: Thread)
    | Compare(t: Thread)
    | Reread(t: Thread)
    | StartPop(t: Thread)
    | ReadHead(t: Thread)
    | ExchangePop(t: Thread)
    | FreeCell(t: Thread)

  function PcOf(s: State, t: Thread): Pc {
    if t in s.pcs then s.pcs[t] else Idle
  }

  function PacketAt(heap: map<Addr, Cell>, a: Addr): nat {
    if a in heap then heap[a].packet else 0
  }

  /** The packets in a list of cells. */
  function PacketsOf(heap: map<Addr, Cell>, cells: seq<Addr>): (r: seq<nat>)
    ensures |r| == |cells|
  {
    if cells == [] then [] else [PacketAt(heap, cells[0])] + PacketsOf(heap, cells[1..])
  }

  function Reversed(s: seq<nat>): (r: seq<nat>)
    ensures |r| == |s|
  {
    if s == [] then [] else Reversed(s[1..]) + [s[0]]
  }

  /** The popped chains, oldest packet first. */
  function PoppedInOrder(chains: seq<seq<nat>>): seq<nat> {
    if chains == [] then [] else PoppedInOrder(chains[..|chains| - 1]) + Reversed(chains[|chains| - 1])
  }

  // ----- the steps

  /** Whether a thread at `pc` can take the step; every cell that the step reads must be allocated. */
  predicate CanStep(mem: Memory, pc: Pc, step: Step) {
    match step
    case Alloc(_, e) => pc.Idle? && e != 0 && e !in mem.heap
    case Link(_) => pc.Allocated? && pc.e in mem.heap
    case ExchangePush(_) => pc.Linked? && pc.e in mem.heap
    case Compare(_) => pc.Comparing?
    case Reread(_) => pc.Comparing? && pc.e in mem.heap
    case StartPop(_) => pc.Idle?
    case ReadHead(_) => pc.WantPop?
    case ExchangePop(_) => pc.Popping?
    case FreeCell(_) => pc.Holding? && (pc.chain == 0 || pc.chain in mem.heap)
  }

  /** What a step does: the new position of its thread, and the memory. */
  datatype Effect = Effect(pc: Pc, mem: Memory)

  /** `e->next = fsenv->events` */
  function Linking(mem: Memory, e: Addr): Effect
    requires e in mem.heap
  {
    Effect(Linked(e), mem.(heap := mem.heap[e := Cell(mem.events, mem.heap[e].packet)]))
  }

  /** The exchange of push_events, when the head is still the one that was read. */
  function Pushing(mem: Memory, e: Addr): Effect
    requires e in mem.heap
  {
    Effect(Comparing(e, mem.heap[e].next, mem.events),
           mem.(events := e, pushed := mem.pushed + [mem.heap[e].packet], list := [e] + mem.list))
  }

  /** The exchange of pop_events, when the head is still the one that was read. */
  function Taking(mem: Memory): Effect {
    Effect(Holding(mem.events, mem.list),
           mem.(events := 0, popped := mem.popped + [PacketsOf(mem.heap, mem.list)], list := []))
  }

  /** The link of the first cell of the chain is read and the cell is freed. */
  function Freeing(mem: Memory, chain: Addr, cells: seq<Addr>): Effect
    requires chain in mem.heap
  {
    Effect(Holding(mem.heap[chain].next, if cells == [] then [] else cells[1..]), mem.(heap := mem.heap - {chain}))
  }

  /** The end of the loop of push_events: it is left when the exchange found the link of the cell. */
  function Leaving(mem: Memory, e: Addr, next: Addr, found: Addr): Effect {
    Effect(if found == next then Idle else Allocated(e), mem)
  }

  /** One step. The two exchanges compare the shared head with the value read before and write only
      when it is still the same. */
  function EffectOf(mem: Memory, pc: Pc, step: Step): Effect
    requires CanStep(mem, pc, step)
  {
    match step
    case Alloc(_, e) =>
      Effect(Allocated(e), mem.(heap := mem.heap[e := Cell(0, mem.issued)], issued := mem.issued + 1))
    case Link(_) => Linking(mem, pc.e)
    case ExchangePush(_) =>
      if mem.events == mem.heap[pc.e].next then Pushing(mem, pc.e)
      else Effect(Comparing(pc.e, mem.heap[pc.e].next, mem.events), mem)
    case Compare(_) => Leaving(mem, pc.e, pc.read, pc.found)
    case Reread(_) => Leaving(mem, pc.e, mem.heap[pc.e].next, pc.found)
    case StartPop(_) => Effect(WantPop, mem)
    case ReadHead(_) => Effect(Popping(mem.events), mem)
    case ExchangePop(_) => if mem.events == pc.expected then Taking(mem) else Effect(WantPop, mem)
    case FreeCell(_) => if pc.chain == 0 then Effect(Idle, mem) else Freeing(mem, pc.chain, pc.cells)
  }

  predicate Enabled(s: State, step: Step) {
    CanStep(s.mem, PcOf(s, step.t), step)
  }

  function Apply(s: State, step: Step): State
    requires Enabled(s, step)
  {
    var e := EffectOf(s.mem, PcOf(s, step.t), step);
    State(s.pcs[step.t := e.pc], e.mem)
  }

  /** A run: the states that a sequence of steps goes through. */
  ghost predicate IsRun(states: seq<State>, steps: seq<Step>) {
    && |states| == |steps| + 1 && states[0] == Initial
    && forall i | 0 <= i < |steps| :: Enabled(states[i], steps[i]) && states[i + 1] == Apply(states[i], steps[i])
  }

  // ----- the invariant

  /** The null-terminated chain from `a` consists of exactly these cells. */
  ghost predicate IsChain(heap: map<Addr, Cell>, a: Addr, cells: seq<Addr>)
    decreases |cells|
  {
    if cells == [] then a == 0
    else a == cells[0] && a != 0 && a in heap && a !in cells[1..] && IsChain(heap, heap[a].next, cells[1..])
  }

  /** The cells that a thread at `pc` owns. A cell that was pushed is no longer its own. */
  function Owned(pc: Pc): seq<Addr> {
    match pc
    case Allocated(e) => [e]
    case Linked(e) => [e]
    case Comparing(e, read, found) => if found == read then [] else [e]
    case Holding(_, cells) => cells
    case _ => []
  }

  /** The list is intact. */
  ghost predicate ListIntact(mem: Memory) {
    IsChain(mem.heap, mem.events, mem.list)
  }

  /** What a position says about the memory: a cell in hand is allocated, and after an exchange that failed still
      has the link it had before, a popped chain is intact, and the cells are not in the list. */
  ghost predicate Sound(mem: Memory, pc: Pc) {
    && (match pc
        case Allocated(e) => e != 0 && e in mem.heap
        case Linked(e) => e != 0 && e in mem.heap
        case Comparing(e, read, found) => found == read || (e != 0 && e in mem.heap && mem.heap[e].next == read)
        case Holding(c, cells) => IsChain(mem.heap, c, cells)
        case _ => true)
    && forall a: Addr | a in Owned(pc) :: a !in mem.list
  }

  ghost predicate AllSound(s: State) {
    forall t: Thread :: Sound(s.mem, PcOf(s, t))
  }

  /** No cell has two owners ... */
  ghost predicate Apart(s: State) {
    forall t: Thread, u: Thread, a: Addr | a in Owned(PcOf(s, t)) && a in Owned(PcOf(s, u)) :: t == u
  }

  ghost predicate HasOwner(s: State, a: Addr) {
    exists t: Thread :: a in Owned(PcOf(s, t))
  }

  /** ... and every allocated cell is in the list or has one. */
  ghost predicate Accounted(s: State) {
    forall a: Addr | a in s.mem.heap && a !in s.mem.list :: HasOwner(s, a)
  }

  /** What has been pushed is what has been popped, chain by chain in order, and then the list. */
  ghost predicate History(mem: Memory) {
    mem.pushed == PoppedInOrder(mem.popped) + Reversed(PacketsOf(mem.heap, mem.list))
  }

  ghost predicate Distinct(s: seq<nat>) {
    forall i, j | 0 <= i < j < |s| :: s[i] != s[j]
  }

  /** The packet is in the cell that a thread at `pc` has in hand. */
  predicate CarriesAt(mem: Memory, pc: Pc, p: nat) {
    (pc.Allocated? || pc.Linked? || (pc.Comparing? && pc.found != pc.read)) && PacketAt(mem.heap, pc.e) == p
  }

  /** Who carries what. */
  function Carriers(s: State): (Thread, nat) -> bool {
    (t: Thread, p: nat) => CarriesAt(s.mem, PcOf(s, t), p)
  }

  /** Only packets that were issued have been pushed, each once; every other packet that was issued is in the hand
      of one thread. */
  ghost predicate Conserves(issued: nat, pushed: seq<nat>, carries: (Thread, nat) -> bool) {
    && Distinct(pushed) && (forall p | p in pushed :: p < issued)
    && (forall t: Thread, p: nat | carries(t, p) :: p < issued && p !in pushed)
    && (forall t: Thread, u: Thread, p: nat | carries(t, p) && carries(u, p) :: t == u)
    && (forall p: nat | p < issued && p !in pushed :: exists t: Thread :: carries(t, p))
  }

  ghost predicate Conservation(s: State) {
    Conserves(s.mem.issued, s.mem.pushed, Carriers(s))
  }

  ghost predicate Inv(s: State) {
    ListIntact(s.mem) && AllSound(s) && Apart(s) && Accounted(s) && History(s.mem) && Conservation(s)
  }

  // ----- chains

  lemma {:induction false} ChainMembers(heap: map<Addr, Cell>, a: Addr, cells: seq<Addr>)
    requires IsChain(heap, a, cells)
    ensures forall c: Addr | c in cells :: c != 0 && c in heap
    decreases |cells|
  {
    if cells != [] {
      ChainMembers(heap, heap[a].next, cells[1..]);
      assert cells == [a] + cells[1..];
    }
  }

  lemma {:induction false} ChainFrame(heap: map<Addr, Cell>, heap': map<Addr, Cell>, a: Addr, cells: seq<Addr>)
    requires IsChain(heap, a, cells)
    requires forall c: Addr | c in cells :: c in heap' && c in heap && heap'[c] == heap[c]
    ensures IsChain(heap', a, cells) && PacketsOf(heap', cells) == PacketsOf(heap, cells)
    decreases |cells|
  {
    if cells != [] {
      assert forall c: Addr | c in cells[1..] :: c in cells;
      assert a in cells;
      ChainFrame(heap, heap', heap[a].next, cells[1..]);
    }
  }

  lemma ConsChain(heap: map<Addr, Cell>, e: Addr, cells: seq<Addr>)
    requires e in heap && e != 0 && e !in cells && IsChain(heap, heap[e].next, cells)
    ensures IsChain(heap, e, [e] + cells)
  {
    assert ([e] + cells)[1..] == cells;
  }

  /** The rest of a chain, without its first cell. */
  lemma TailChain(heap: map<Addr, Cell>, e: Addr, cells: seq<Addr>)
    requires IsChain(heap, e, cells) && e != 0
    ensures cells != [] && cells == [e] + cells[1..] && e in heap && e !in cells[1..]
    ensures IsChain(heap - {e}, heap[e].next, cells[1..])
  {
    ChainMembers(heap, heap[e].next, cells[1..]);
    ChainFrame(heap, heap - {e}, heap[e].next, cells[1..]);
  }

  // ----- what a step does to the memory, position by position

  /** The link that is read again after the exchange is the one from before. */
  ghost predicate ReadsSame(mem: Memory, pc: Pc, step: Step) {
    step.Reread? && pc.Comparing? ==> pc.e in mem.heap && mem.heap[pc.e].next == pc.read
  }

  /** Cells that are neither in the list nor owned by the moving thread stay what they are. */
  lemma EffectFrame(mem: Memory, pc: Pc, step: Step, a: Addr)
    requires CanStep(mem, pc, step) && ReadsSame(mem, pc, step) && ListIntact(mem) && Sound(mem, pc)
    requires a in mem.heap && a !in mem.list && a !in Owned(pc)
    ensures var e := EffectOf(mem, pc, step);
            a in e.mem.heap && e.mem.heap[a] == mem.heap[a] && a !in e.mem.list && a !in Owned(e.pc)
  {
    if pc.Holding? && pc.chain != 0 {
      TailChain(mem.heap, pc.chain, pc.cells);
    }
  }

  /** A cell is in the list or owned by the moving thread afterwards, or it is one of those. */
  lemma EffectAccounts(mem: Memory, pc: Pc, step: Step, a: Addr)
    requires CanStep(mem, pc, step) && ReadsSame(mem, pc, step) && Sound(mem, pc)
    requires a in EffectOf(mem, pc, step).mem.heap
    ensures var e := EffectOf(mem, pc, step);
            a in e.mem.list || a in Owned(e.pc) || (a in mem.heap && a !in mem.list && a !in Owned(pc))
  {
    if pc.Holding? && pc.chain != 0 {
      TailChain(mem.heap, pc.chain, pc.cells);
    }
  }

  /** The list and the packets in it survive a change of other cells. */
  lemma ListFrame(mem: Memory, mem': Memory)
    requires ListIntact(mem) && mem'.list == mem.list && mem'.events == mem.events
    requires forall c: Addr | c in mem.list && c in mem.heap :: c in mem'.heap && mem'.heap[c] == mem.heap[c]
    ensures ListIntact(mem') && PacketsOf(mem'.heap, mem'.list) == PacketsOf(mem.heap, mem.list)
  {
    ChainMembers(mem.heap, mem.events, mem.list);
    ChainFrame(mem.heap, mem'.heap, mem.events, mem.list);
  }

  /** The list stays intact, and the history goes with it. */
  lemma EffectIntact(mem: Memory, pc: Pc, step: Step)
    requires CanStep(mem, pc, step) && ReadsSame(mem, pc, step) && ListIntact(mem) && Sound(mem, pc)
    ensures ListIntact(EffectOf(mem, pc, step).mem)
    ensures History(mem) ==> History(EffectOf(mem, pc, step).mem)
  {
    hide IsChain, PacketsOf, Reversed, PoppedInOrder, EffectOf;
    var e := EffectOf(mem, pc, step);
    StepCases(mem, pc, step);
    if step.ExchangePush? && mem.events == mem.heap[pc.e].next {
      PushIntact(mem, pc.e);
    } else if step.ExchangePop? && mem.events == pc.expected {
      TakeIntact(mem);
    } else {
      ChainMembers(mem.heap, mem.events, mem.list);
      OtherIntact(mem, pc, step);
    }
  }

  /** The two exchanges that succeed, and that all other steps leave list, head and history alone. */
  lemma StepCases(mem: Memory, pc: Pc, step: Step)
    requires CanStep(mem, pc, step)
    ensures var e := EffectOf(mem, pc, step);
            if step.ExchangePush? && mem.events == mem.heap[pc.e].next then e == Pushing(mem, pc.e)
            else if step.ExchangePop? && mem.events == pc.expected then e == Taking(mem)
            else e.mem.list == mem.list && e.mem.events == mem.events && e.mem.pushed == mem.pushed &&
                 e.mem.popped == mem.popped
  {
  }

  lemma PushIntact(mem: Memory, e: Addr)
    requires ListIntact(mem) && e in mem.heap && e != 0 && e !in mem.list && mem.events == mem.heap[e].next
    ensures ListIntact(Pushing(mem, e).mem)
    ensures History(mem) ==> History(Pushing(mem, e).mem)
  {
    ConsChain(mem.heap, e, mem.list);
    PushHistory(mem.heap, mem.list, e);
    hide IsChain, PacketsOf, Reversed, PoppedInOrder;
  }

  lemma PushHistory(heap: map<Addr, Cell>, list: seq<Addr>, e: Addr)
    ensures Reversed(PacketsOf(heap, [e] + list)) == Reversed(PacketsOf(heap, list)) + [PacketAt(heap, e)]
  {
    assert ([e] + list)[1..] == list;
    var ps := PacketsOf(heap, [e] + list);
    assert ps[1..] == PacketsOf(heap, list);
  }

  lemma TakeIntact(mem: Memory)
    ensures ListIntact(Taking(mem).mem)
    ensures History(mem) ==> History(Taking(mem).mem)
  {
    PopHistory(mem.popped, PacketsOf(mem.heap, mem.list));
  }

  lemma PopHistory(popped: seq<seq<nat>>, chain: seq<nat>)
    ensures PoppedInOrder(popped + [chain]) == PoppedInOrder(popped) + Reversed(chain)
  {
    assert (popped + [chain])[..|popped|] == popped;
  }

  /** A step that is not a successful exchange changes no cell of the list. */
  lemma OtherIntact(mem: Memory, pc: Pc, step: Step)
    requires CanStep(mem, pc, step) && ReadsSame(mem, pc, step) && ListIntact(mem) && Sound(mem, pc)
    requires EffectOf(mem, pc, step).mem.list == mem.list && EffectOf(mem, pc, step).mem.events == mem.events
    requires EffectOf(mem, pc, step).mem.pushed == mem.pushed && EffectOf(mem, pc, step).mem.popped == mem.popped
    ensures ListIntact(EffectOf(mem, pc, step).mem)
    ensures History(mem) ==> History(EffectOf(mem, pc, step).mem)
  {
    var mem' := EffectOf(mem, pc, step).mem;
    forall c: Addr | c in mem.list && c in mem.heap
      ensures c in mem'.heap && mem'.heap[c] == mem.heap[c]
    {
      ListCellStays(mem, pc, step, c);
    }
    ListFrame(mem, mem');
    hide IsChain, PacketsOf, Reversed, PoppedInOrder, EffectOf;
  }

  lemma ListCellStays(mem: Memory, pc: Pc, step: Step, c: Addr)
    requires CanStep(mem, pc, step) && ReadsSame(mem, pc, step) && Sound(mem, pc) && c in mem.list && c in mem.heap
    ensures var mem' := EffectOf(mem, pc, step).mem; c in mem'.heap && mem'.heap[c] == mem.heap[c]
  {
    if pc.Holding? && pc.chain != 0 {
      TailChain(mem.heap, pc.chain, pc.cells);
    }
  }

  /** The moving thread is at a sound position again. */
  lemma EffectSound(mem: Memory, pc: Pc, step: Step)
    requires CanStep(mem, pc, step) && ReadsSame(mem, pc, step) && ListIntact(mem) && Sound(mem, pc)
    ensures var e := EffectOf(mem, pc, step); Sound(e.mem, e.pc)
  {
    ChainMembers(mem.heap, mem.events, mem.list);
    if pc.Holding? && pc.chain != 0 {
      TailChain(mem.heap, pc.chain, pc.cells);
    }
    hide IsChain, PacketsOf;
  }

  /** The other threads stay at sound positions with the same packets. */
  lemma SoundFrame(mem: Memory, mem': Memory, pc: Pc)
    requires Sound(mem, pc)
    requires forall a: Addr | a in Owned(pc) :: a in mem.heap ==> a in mem'.heap && mem'.heap[a] == mem.heap[a]
    requires forall a: Addr | a in Owned(pc) :: a !in mem'.list
    ensures Sound(mem', pc) && forall p: nat :: CarriesAt(mem', pc, p) == CarriesAt(mem, pc, p)
  {
    if pc.Holding? {
      ChainMembers(mem.heap, pc.chain, pc.cells);
      ChainFrame(mem.heap, mem'.heap, pc.chain, pc.cells);
    }
    hide IsChain;
  }

  // ----- every step keeps the invariant

  lemma OwnedIsAllocated(mem: Memory, pc: Pc, a: Addr)
    requires Sound(mem, pc) && a in Owned(pc)
    ensures a in mem.heap && a !in mem.list
  {
    if pc.Holding? {
      ChainMembers(mem.heap, pc.chain, pc.cells);
    }
  }

  /** What another thread owns is left alone. */
  lemma OthersUntouched(s: State, step: Step, u: Thread)
    requires ListIntact(s.mem) && AllSound(s) && Apart(s) && Enabled(s, step) && u != step.t
    requires ReadsSame(s.mem, PcOf(s, step.t), step)
    ensures var s' := Apply(s, step);
            && PcOf(s', u) == PcOf(s, u) && Sound(s'.mem, PcOf(s, u))
            && (forall a: Addr | a in Owned(PcOf(s, u)) :: a !in Owned(PcOf(s', step.t)))
            && (forall p: nat :: Carriers(s')(u, p) == Carriers(s)(u, p))
  {
    var s', pc := Apply(s, step), PcOf(s, u);
    assert Sound(s.mem, pc) && Sound(s.mem, PcOf(s, step.t));
    forall a: Addr | a in Owned(pc)
      ensures a in s.mem.heap && a in s'.mem.heap && s'.mem.heap[a] == s.mem.heap[a]
      ensures a !in s'.mem.list && a !in Owned(PcOf(s', step.t))
    {
      OwnedIsAllocated(s.mem, pc, a);
      EffectFrame(s.mem, PcOf(s, step.t), step, a);
    }
    hide EffectOf, Sound;
    SoundFrame(s.mem, s'.mem, pc);
  }

  lemma StepSound(s: State, step: Step)
    requires ListIntact(s.mem) && AllSound(s) && Apart(s) && Enabled(s, step)
    requires ReadsSame(s.mem, PcOf(s, step.t), step)
    ensures ListIntact(Apply(s, step).mem) && AllSound(Apply(s, step)) && Apart(Apply(s, step))
    ensures History(s.mem) ==> History(Apply(s, step).mem)
  {
    var s', t := Apply(s, step), step.t;
    assert Sound(s.mem, PcOf(s, t));
    EffectIntact(s.mem, PcOf(s, t), step);
    EffectSound(s.mem, PcOf(s, t), step);
    hide EffectOf, Sound, IsChain, History, CanStep, Owned;
    assert PcOf(s', t) == EffectOf(s.mem, PcOf(s, t), step).pc;
    forall u: Thread
      ensures Sound(s'.mem, PcOf(s', u))
      ensures u != t ==> PcOf(s', u) == PcOf(s, u)
      ensures u != t ==> forall a: Addr | a in Owned(PcOf(s, u)) :: a !in Owned(PcOf(s', t))
    {
      if u != t {
        OthersUntouched(s, step, u);
      }
    }
  }

  lemma StepAccounted(s: State, step: Step)
    requires AllSound(s) && Accounted(s) && Enabled(s, step)
    requires ReadsSame(s.mem, PcOf(s, step.t), step)
    ensures Accounted(Apply(s, step))
  {
    var s', t := Apply(s, step), step.t;
    assert Sound(s.mem, PcOf(s, t));
    forall a: Addr | a in s'.mem.heap && a !in s'.mem.list
      ensures HasOwner(s', a)
    {
      EffectAccounts(s.mem, PcOf(s, t), step, a);
      hide EffectOf, Sound, IsChain, CanStep, Owned;
      if a in Owned(PcOf(s', t)) {
        assert HasOwner(s', a);
      } else {
        assert HasOwner(s, a);
        var u: Thread :| a in Owned(PcOf(s, u));
        assert u != t && PcOf(s', u) == PcOf(s, u);
      }
    }
  }

  /** Packets are issued by an allocation, pushed by a successful exchange, and otherwise stay where they are. */
  lemma EffectPackets(mem: Memory, pc: Pc, step: Step)
    requires CanStep(mem, pc, step) && ReadsSame(mem, pc, step) && Sound(mem, pc)
    ensures var e := EffectOf(mem, pc, step);
            if step.Alloc? then
              && e.mem.issued == mem.issued + 1 && e.mem.pushed == mem.pushed
              && forall p: nat :: !CarriesAt(mem, pc, p) && (CarriesAt(e.mem, e.pc, p) <==> p == mem.issued)
            else if step.ExchangePush? && mem.events == mem.heap[pc.e].next then
              && e.mem.issued == mem.issued && e.mem.pushed == mem.pushed + [mem.heap[pc.e].packet]
              && forall p: nat :: (CarriesAt(mem, pc, p) <==> p == mem.heap[pc.e].packet) && !CarriesAt(e.mem, e.pc, p)
            else
              && e.mem.issued == mem.issued && e.mem.pushed == mem.pushed
              && forall p: nat :: CarriesAt(mem, pc, p) <==> CarriesAt(e.mem, e.pc, p)
  {
  }

  lemma ConservesIssue(issued: nat, pushed: seq<nat>, c: (Thread, nat) -> bool, c': (Thread, nat) -> bool, t: Thread)
    requires Conserves(issued, pushed, c)
    requires forall u: Thread, p: nat :: c'(u, p) <==> c(u, p) || (u == t && p == issued)
    ensures Conserves(issued + 1, pushed, c')
  {
    forall p: nat | p < issued + 1 && p !in pushed
      ensures exists u: Thread :: c'(u, p)
    {
      if p == issued {
        assert c'(t, p);
      } else {
        var u: Thread :| c(u, p);
        assert c'(u, p);
      }
    }
  }

  lemma ConservesPush(issued: nat, pushed: seq<nat>, c: (Thread, nat) -> bool, c': (Thread, nat) -> bool, t: Thread,
                      q: nat)
    requires Conserves(issued, pushed, c) && c(t, q)
    requires forall u: Thread, p: nat :: c'(u, p) <==> c(u, p) && !(u == t && p == q)
    ensures Conserves(issued, pushed + [q], c')
  {
    assert c(t, q) && q !in pushed;
    assert forall p :: p in pushed + [q] <==> p in pushed || p == q;
    forall p: nat | p < issued && p !in pushed + [q]
      ensures exists u: Thread :: c'(u, p)
    {
      var u: Thread :| c(u, p);
      assert c'(u, p);
    }
  }

  lemma ConservesMove(issued: nat, pushed: seq<nat>, c: (Thread, nat) -> bool, c': (Thread, nat) -> bool)
    requires Conserves(issued, pushed, c) && forall u: Thread, p: nat :: c'(u, p) <==> c(u, p)
    ensures Conserves(issued, pushed, c')
  {
    forall p: nat | p < issued && p !in pushed
      ensures exists u: Thread :: c'(u, p)
    {
      var u: Thread :| c(u, p);
      assert c'(u, p);
    }
  }

  lemma StepConservation(s: State, step: Step)
    requires ListIntact(s.mem) && AllSound(s) && Apart(s) && Conservation(s) && Enabled(s, step)
    requires ReadsSame(s.mem, PcOf(s, step.t), step)
    ensures Conservation(Apply(s, step))
  {
    var s', t, pc := Apply(s, step), step.t, PcOf(s, step.t);
    assert Sound(s.mem, pc);
    EffectPackets(s.mem, pc, step);
    hide Conserves, EffectOf, Sound, CarriesAt, Owned, IsChain;
    var c, c' := Carriers(s), Carriers(s');
    var pc', mem' := PcOf(s', t), s'.mem;
    assert pc' == EffectOf(s.mem, pc, step).pc && mem' == EffectOf(s.mem, pc, step).mem;
    forall u: Thread, p: nat
      ensures if u == t then c(u, p) == CarriesAt(s.mem, pc, p) && c'(u, p) == CarriesAt(mem', pc', p)
              else c'(u, p) == c(u, p)
    {
      if u != t {
        OthersUntouched(s, step, u);
      }
    }
    hide Apply, PcOf;
    if step.Alloc? {
      assert forall u: Thread, p: nat :: c'(u, p) <==> c(u, p) || (u == t && p == s.mem.issued);
      ConservesIssue(s.mem.issued, s.mem.pushed, c, c', t);
    } else if step.ExchangePush? && s.mem.events == s.mem.heap[pc.e].next {
      var q := s.mem.heap[pc.e].packet;
      assert CarriesAt(s.mem, pc, q);
      assert forall u: Thread, p: nat :: c'(u, p) <==> c(u, p) && !(u == t && p == q);
      ConservesPush(s.mem.issued, s.mem.pushed, c, c', t, q);
    } else {
      assert forall u: Thread, p: nat :: c'(u, p) <==> c(u, p);
      ConservesMove(s.mem.issued, s.mem.pushed, c, c');
    }
  }

  // ----- all runs

  lemma StepKeeps(s: State, step: Step)
    requires Inv(s) && Enabled(s, step)
    requires ReadsSame(s.mem, PcOf(s, step.t), step)
    ensures Inv(Apply(s, step))
  {
    hide ListIntact, AllSound, Apart, Accounted, History, Conservation, Apply;
    StepSound(s, step);
    StepAccounted(s, step);
    StepConservation(s, step);
  }

  lemma InitialInv()
    ensures Inv(Initial) && Pending(Initial)
  {
  }

  // ----- reading the link again after the exchange

  /** A pusher has put the cell into the list and has yet to read its link again. */
  predicate Awaits(pc: Pc, a: Addr) {
    pc.Comparing? && pc.found == pc.read && pc.e == a
  }

  /** The rule that makes the second read harmless: a cell is not freed while its pusher may still read it. */
  ghost predicate Careful(s: State, step: Step) {
    step.FreeCell? && PcOf(s, step.t).Holding? && PcOf(s, step.t).chain != 0 ==>
      forall u: Thread :: !Awaits(PcOf(s, u), PcOf(s, step.t).chain)
  }

  /** A thread before the exchange, or after one that failed, has the cell in hand. */
  predicate InHand(pc: Pc, a: Addr) {
    !pc.Holding? && a in Owned(pc)
  }

  /** A cell that its pusher will read again is allocated, has its link, and is in nobody's hand. */
  ghost predicate Pending(s: State) {
    forall t: Thread, a: Addr | Awaits(PcOf(s, t), a) ::
      a in s.mem.heap && s.mem.heap[a].next == PcOf(s, t).read && NobodyHas(s, a)
  }

  ghost predicate NobodyHas(s: State, a: Addr) {
    forall u: Thread :: !InHand(PcOf(s, u), a)
  }

  /** Then the second read finds the link, and it makes no difference which of the two is compared. */
  lemma RereadIsCompare(s: State, t: Thread)
    requires AllSound(s) && Pending(s) && PcOf(s, t).Comparing?
    ensures Enabled(s, Compare(t)) && Enabled(s, Reread(t)) && Apply(s, Reread(t)) == Apply(s, Compare(t))
  {
    var pc := PcOf(s, t);
    assert Sound(s.mem, pc);
    if pc.found == pc.read {
      assert Awaits(pc, pc.e);
    }
  }

  /** What a careful step does to a cell that is in nobody's hand: nothing, and nobody gets it in hand. */
  lemma EffectOnPending(mem: Memory, pc: Pc, step: Step, a: Addr)
    requires CanStep(mem, pc, step) && ReadsSame(mem, pc, step) && Sound(mem, pc) && a in mem.heap && !InHand(pc, a)
    requires pc.Holding? && pc.chain != 0 ==> pc.chain != a
    ensures var e := EffectOf(mem, pc, step);
            a in e.mem.heap && e.mem.heap[a] == mem.heap[a] && !InHand(e.pc, a) && !Awaits(e.pc, a)
  {
  }

  /** Only a successful exchange makes a thread await a cell, which then is out of its hand. */
  lemma EffectAwaits(mem: Memory, pc: Pc, step: Step, a: Addr)
    requires CanStep(mem, pc, step) && Sound(mem, pc) && Awaits(EffectOf(mem, pc, step).pc, a)
    ensures var e := EffectOf(mem, pc, step);
            a in Owned(pc) && a in e.mem.heap && e.mem.heap[a].next == e.pc.read && !InHand(e.pc, a)
  {
  }

  lemma StepReadsSame(s: State, step: Step)
    requires AllSound(s) && Pending(s) && Enabled(s, step)
    ensures ReadsSame(s.mem, PcOf(s, step.t), step)
  {
    var pc := PcOf(s, step.t);
    assert Sound(s.mem, pc);
    if pc.Comparing? && pc.found == pc.read {
      assert Awaits(pc, pc.e);
    }
  }

  /** The thread that moves has just pushed the cell, which it alone had. */
  lemma PendingSelf(s: State, step: Step, a: Addr)
    requires AllSound(s) && Apart(s) && Enabled(s, step) && Awaits(PcOf(Apply(s, step), step.t), a)
    ensures var s' := Apply(s, step);
            a in s'.mem.heap && s'.mem.heap[a].next == PcOf(s', step.t).read && NobodyHas(s', a)
  {
    var s', t := Apply(s, step), step.t;
    assert Sound(s.mem, PcOf(s, t));
    EffectAwaits(s.mem, PcOf(s, t), step, a);
    hide EffectOf, Sound, Owned;
    forall u: Thread
      ensures !InHand(PcOf(s', u), a)
    {
      if u != t {
        assert PcOf(s', u) == PcOf(s, u);
        assert a in Owned(PcOf(s, t));
      }
    }
  }

  /** A cell that another thread has pushed stays as it is, and in nobody's hand. */
  lemma PendingOther(s: State, step: Step, v: Thread, a: Addr)
    requires AllSound(s) && Pending(s) && Enabled(s, step) && Careful(s, step) && v != step.t && Awaits(PcOf(s, v), a)
    ensures var s' := Apply(s, step);
            a in s'.mem.heap && s'.mem.heap[a].next == PcOf(s, v).read && NobodyHas(s', a)
  {
    var s', t := Apply(s, step), step.t;
    StepReadsSame(s, step);
    assert Sound(s.mem, PcOf(s, t));
    assert NobodyHas(s, a) && !InHand(PcOf(s, t), a);
    assert PcOf(s, t).Holding? ==> step.FreeCell?;
    EffectOnPending(s.mem, PcOf(s, t), step, a);
    hide EffectOf, Sound, InHand;
    forall u: Thread
      ensures !InHand(PcOf(s', u), a)
    {
      if u != t {
        assert PcOf(s', u) == PcOf(s, u);
      }
    }
  }

  lemma StepPending(s: State, step: Step)
    requires AllSound(s) && Apart(s) && Pending(s) && Enabled(s, step) && Careful(s, step)
    ensures Pending(Apply(s, step))
  {
    var s', t := Apply(s, step), step.t;
    forall v: Thread, a: Addr | Awaits(PcOf(s', v), a)
      ensures a in s'.mem.heap && s'.mem.heap[a].next == PcOf(s', v).read && NobodyHas(s', a)
    {
      if v == t {
        PendingSelf(s, step, a);
      } else {
        assert PcOf(s', v) == PcOf(s, v);
        PendingOther(s, step, v, a);
      }
    }
  }

  // ----- all runs

  /** The link is read before the exchange, in every turn of the loop. */
  ghost predicate EarlyRun(states: seq<State>, steps: seq<Step>) {
    IsRun(states, steps) && forall i | 0 <= i < |steps| :: !steps[i].Reread?
  }

  /** The link may be read before the exchange or after it, and cells are freed by the rule. */
  ghost predicate CarefulRun(states: seq<State>, steps: seq<Step>) {
    IsRun(states, steps) && forall i | 0 <= i < |steps| :: Careful(states[i], steps[i])
  }

  ghost predicate SafeRun(states: seq<State>, steps: seq<Step>) {
    EarlyRun(states, steps) || CarefulRun(states, steps)
  }

  /** In every state of every safe run the list is intact, cells have one owner, and packets are conserved; and in a
      careful run no pusher finds its cell gone. */
  lemma {:induction false} RunsKeep(states: seq<State>, steps: seq<Step>, i: nat)
    requires SafeRun(states, steps) && i < |states|
    ensures Inv(states[i]) && (CarefulRun(states, steps) ==> Pending(states[i]))
    decreases i
  {
    if i == 0 {
      InitialInv();
    } else {
      RunsKeep(states, steps, i - 1);
      var s, step := states[i - 1], steps[i - 1];
      assert Enabled(s, step) && states[(i - 1) + 1] == Apply(s, step);
      hide Apply, ListIntact, AllSound, Apart, Accounted, History, Conservation, Pending;
      if CarefulRun(states, steps) {
        StepReadsSame(s, step);
        StepPending(s, step);
      }
      StepKeeps(s, step);
    }
  }

  /** The next step of a thread that is in push_events, in pop_events or in freeing a chain. */
  function NextStep(pc: Pc, t: Thread): Step
    requires !pc.Idle?
  {
    match pc
    case Allocated(_) => Link(t)
    case Linked(_) => ExchangePush(t)
    case Comparing(_, _, _) => Compare(t)
    case WantPop => ReadHead(t)
    case Popping(_) => ExchangePop(t)
    case Holding(_, _) => FreeCell(t)
  }

  /** In every safe run a thread that has begun can take its next step, so that no freed cell is read, written or
      freed again; and in a careful run it can read the link of its cell again, to the same effect. */
  lemma NoFreedCellIsUsed(states: seq<State>, steps: seq<Step>, i: nat, t: Thread)
    requires SafeRun(states, steps) && i < |states| && !PcOf(states[i], t).Idle?
    ensures Enabled(states[i], NextStep(PcOf(states[i], t), t))
    ensures CarefulRun(states, steps) && PcOf(states[i], t).Comparing? ==>
              Enabled(states[i], Reread(t)) && Apply(states[i], Reread(t)) == Apply(states[i], Compare(t))
  {
    RunsKeep(states, steps, i);
    var pc := PcOf(states[i], t);
    assert Sound(states[i].mem, pc);
    if pc.Holding? && pc.chain != 0 {
      TailChain(states[i].mem.heap, pc.chain, pc.cells);
    }
    if CarefulRun(states, steps) && pc.Comparing? {
      RereadIsCompare(states[i], t);
    }
  }

  // ----- the rule is exactly what the second read needs

  /** Every pusher can read the link of its cell again, and finds the one from before the exchange. */
  ghost predicate Readable(s: State) {
    forall t: Thread | PcOf(s, t).Comparing? ::
      PcOf(s, t).e in s.mem.heap && s.mem.heap[PcOf(s, t).e].next == PcOf(s, t).read
  }

  /** The steps can be taken one after another, with cells freed by the rule. */
  ghost predicate Goes(s: State, steps: seq<Step>)
    decreases |steps|
  {
    steps == [] || (Enabled(s, steps[0]) && Careful(s, steps[0]) && Goes(Apply(s, steps[0]), steps[1..]))
  }

  ghost function After(s: State, steps: seq<Step>): State
    requires Goes(s, steps)
    decreases |steps|
  {
    if steps == [] then s else After(Apply(s, steps[0]), steps[1..])
  }

  /** Some continuation that keeps the rule leaves a pusher without its cell. */
  ghost predicate Harmed(s: State) {
    exists steps: seq<Step> :: Goes(s, steps) && !Readable(After(s, steps))
  }

  lemma InvIsReadable(s: State)
    requires AllSound(s) && Pending(s)
    ensures Readable(s)
  {
    forall t: Thread | PcOf(s, t).Comparing?
      ensures PcOf(s, t).e in s.mem.heap && s.mem.heap[PcOf(s, t).e].next == PcOf(s, t).read
    {
      assert Sound(s.mem, PcOf(s, t));
      if PcOf(s, t).found == PcOf(s, t).read {
        assert Awaits(PcOf(s, t), PcOf(s, t).e);
      }
    }
  }

  lemma {:induction false} NoHarm(s: State, steps: seq<Step>)
    requires Inv(s) && Pending(s) && Goes(s, steps)
    ensures Readable(After(s, steps))
    decreases |steps|
  {
    hide Apply, ListIntact, AllSound, Apart, Accounted, History, Conservation, Pending, Readable;
    if steps == [] {
      InvIsReadable(s);
    } else {
      StepReadsSame(s, steps[0]);
      StepKeeps(s, steps[0]);
      StepPending(s, steps[0]);
      NoHarm(Apply(s, steps[0]), steps[1..]);
    }
  }

  /** Freeing a cell whose pusher has yet to read it leaves that pusher without it at once. */
  lemma CarelessHarms(s: State, step: Step)
    requires AllSound(s) && Enabled(s, step) && !Careful(s, step)
    ensures Harmed(Apply(s, step))
  {
    var s', c := Apply(s, step), PcOf(s, step.t).chain;
    var u: Thread :| Awaits(PcOf(s, u), c);
    assert PcOf(s', u) == PcOf(s, u);
    assert c !in s'.mem.heap by {
      FreedIsGone(s, step, u);
    }
    ghost var none: seq<Step> := [];
    assert Goes(s', none) && After(s', none) == s';
  }

  lemma FreedIsGone(s: State, step: Step, u: Thread)
    requires AllSound(s) && Enabled(s, step) && step.FreeCell? && Awaits(PcOf(s, u), PcOf(s, step.t).chain)
    requires PcOf(s, step.t).chain != 0
    ensures PcOf(s, step.t).chain !in Apply(s, step).mem.heap
  {
  }

  /** The rule is exactly what the late order needs: after a careful run, a step leaves every later comparison
      possible and unchanged, in all continuations that keep the rule, if and only if it keeps the rule itself. */
  lemma RuleIsExact(states: seq<State>, steps: seq<Step>, step: Step)
    requires CarefulRun(states, steps) && Enabled(states[|steps|], step)
    ensures Careful(states[|steps|], step) <==> !Harmed(Apply(states[|steps|], step))
  {
    var s := states[|steps|];
    RunsKeep(states, steps, |steps|);
    hide CarefulRun, SafeRun, Apply, ListIntact, AllSound, Apart, Accounted, History, Conservation, Pending, Readable;
    if Careful(s, step) {
      StepReadsSame(s, step);
      StepKeeps(s, step);
      StepPending(s, step);
      forall more: seq<Step> | Goes(Apply(s, step), more)
        ensures Readable(After(Apply(s, step), more))
      {
        NoHarm(Apply(s, step), more);
      }
    } else {
      CarelessHarms(s, step);
    }
  }

  /** In every safe run each popped chain is a contiguous run of the pushes, newest first. */
  lemma {:induction false} PoppedChainIsRun(states: seq<State>, steps: seq<Step>, i: nat, k: nat)
    requires SafeRun(states, steps) && i < |states| && k < |states[i].mem.popped|
    ensures var mem := states[i].mem; var lo := |PoppedInOrder(mem.popped[..k])|;
            && lo + |mem.popped[k]| <= |mem.pushed|
            && Reversed(mem.popped[k]) == mem.pushed[lo..lo + |mem.popped[k]|]
  {
    RunsKeep(states, steps, i);
    var mem := states[i].mem;
    hide SafeRun, CarefulRun, ListIntact, AllSound, Apart, Accounted, Conservation, Pending, PoppedInOrder, Reversed;
    ChainInOrder(mem.popped, k);
    PrefixSlice(PoppedInOrder(mem.popped), Reversed(PacketsOf(mem.heap, mem.list)),
                |PoppedInOrder(mem.popped[..k])|, |mem.popped[k]|);
  }

  lemma {:induction false} ChainInOrder(chains: seq<seq<nat>>, k: nat)
    requires k < |chains|
    ensures var lo := |PoppedInOrder(chains[..k])|;
            && lo + |chains[k]| <= |PoppedInOrder(chains)|
            && PoppedInOrder(chains)[lo..lo + |chains[k]|] == Reversed(chains[k])
    decreases |chains|
  {
    var front := chains[..|chains| - 1];
    if k == |chains| - 1 {
      assert chains[..k] == front;
    } else {
      ChainInOrder(front, k);
      assert front[..k] == chains[..k] && front[k] == chains[k];
      hide Reversed;
      PrefixSlice(PoppedInOrder(front), Reversed(chains[|chains| - 1]), |PoppedInOrder(chains[..k])|, |chains[k]|);
    }
  }

  lemma PrefixSlice(a: seq<nat>, b: seq<nat>, lo: nat, n: nat)
    requires lo + n <= |a|
    ensures (a + b)[lo..lo + n] == a[lo..lo + n]
  {
  }

  /** Where packet `p` is: in a hand, in the list, or in a popped chain. */
  ghost predicate IsCarried(s: State, p: nat) {
    exists t: Thread :: Carriers(s)(t, p)
  }

  ghost predicate IsListed(s: State, p: nat) {
    p in PacketsOf(s.mem.heap, s.mem.list)
  }

  ghost predicate IsPopped(s: State, p: nat) {
    p in PoppedInOrder(s.mem.popped)
  }

  /** At all times of a safe run every packet is in exactly one of the three places, and there only once. */
  lemma PacketInOnePlace(states: seq<State>, steps: seq<Step>, i: nat, p: nat)
    requires SafeRun(states, steps) && i < |states| && p < states[i].mem.issued
    ensures var s := states[i];
            && (IsCarried(s, p) || IsListed(s, p) || IsPopped(s, p))
            && !(IsCarried(s, p) && IsListed(s, p)) && !(IsCarried(s, p) && IsPopped(s, p))
            && !(IsListed(s, p) && IsPopped(s, p))
            && (forall t: Thread, u: Thread | Carriers(s)(t, p) && Carriers(s)(u, p) :: t == u)
            && Distinct(PoppedInOrder(s.mem.popped) + Reversed(PacketsOf(s.mem.heap, s.mem.list)))
  {
    RunsKeep(states, steps, i);
    var s := states[i];
    hide ListIntact, AllSound, Apart, Accounted, SafeRun, CarriesAt;
    var ps, qs := PoppedInOrder(s.mem.popped), PacketsOf(s.mem.heap, s.mem.list);
    ReversedMembers(qs);
    DistinctSplit(ps, Reversed(qs));
    assert forall x :: x in s.mem.pushed <==> x in ps || x in qs;
  }

  lemma {:induction false} ReversedMembers(s: seq<nat>)
    ensures forall x :: x in Reversed(s) <==> x in s
  {
    if s != [] {
      ReversedMembers(s[1..]);
      assert s == [s[0]] + s[1..];
    }
  }

  lemma DistinctSplit(a: seq<nat>, b: seq<nat>)
    requires Distinct(a + b)
    ensures forall x | x in a :: x !in b
  {
    forall i, j | 0 <= i < |a| && 0 <= j < |b| ensures a[i] != b[j] {
      assert (a + b)[i] == a[i] && (a + b)[|a| + j] == b[j];
    }
  }

  // ----- what the late order can do without the rule

  /** Some run ends in `s`. */
  ghost predicate Reachable(s: State) {
    exists states: seq<State>, steps: seq<Step> :: IsRun(states, steps) && states[|steps|] == s
  }

  lemma ReachInitial()
    ensures Reachable(Initial)
  {
    var states, steps: seq<Step> := [Initial], [];
    assert IsRun(states, steps) && states[|steps|] == Initial;
  }

  lemma ReachNext(s: State, step: Step) returns (s': State)
    requires Reachable(s) && Enabled(s, step)
    ensures s' == Apply(s, step) && Reachable(s')
  {
    hide Apply, Enabled;
    s' := Apply(s, step);
    var states: seq<State>, steps: seq<Step> :| IsRun(states, steps) && states[|steps|] == s;
    var states', steps' := states + [s'], steps + [step];
    forall i | 0 <= i < |steps'|
      ensures Enabled(states'[i], steps'[i]) && states'[i + 1] == Apply(states'[i], steps'[i])
    {
      if i < |steps| {
        assert Enabled(states[i], steps[i]) && states[i + 1] == Apply(states[i], steps[i]);
      }
    }
    assert IsRun(states', steps') && states'[|steps'|] == s';
  }

  /** Thread 0 has pushed cell 1 and is between the exchange and the comparison. */
  lemma OnePushed() returns (s: State)
    ensures Reachable(s)
    ensures s == State(map[0 := Comparing(1, 0, 0)], Memory(map[1 := Cell(0, 0)], 1, 1, [0], [], [1]))
  {
    hide Reachable;
    ReachInitial();
    s := ReachNext(Initial, Alloc(0, 1));
    s := ReachNext(s, Link(0));
    s := ReachNext(s, ExchangePush(0));
  }

  /** Thread 1 pops the cell and frees it before thread 0 goes on: in the late order thread 0 then reads the link of a
      cell that is gone. */
  lemma LateReadFails() returns (s: State)
    ensures Reachable(s) && PcOf(s, 0) == Comparing(1, 0, 0) && 1 !in s.mem.heap && !Enabled(s, Reread(0))
    ensures s == State(map[0 := Comparing(1, 0, 0), 1 := Holding(0, [])], Memory(map[], 0, 1, [0], [[0]], []))
  {
    hide Reachable;
    s := OnePushed();
    s := ReachNext(s, StartPop(1));
    s := ReachNext(s, ReadHead(1));
    s := ReachNext(s, ExchangePop(1));
    PacketsOfOne(s.mem.heap);
    s := ReachNext(s, FreeCell(1));
    assert s.mem.heap == map[];
  }

  lemma PacketsOfOne(heap: map<Addr, Cell>)
    ensures PacketsOf(heap, [1]) == [PacketAt(heap, 1)]
  {
  }

  /** The address is handed out again and linked to another head, so that thread 0 finds another link than its own
      and goes round the loop with a cell that belongs to thread 2. */
  lemma TwoOwners() returns (s: State)
    ensures Reachable(s) && !Apart(s)
    ensures s.pcs == map[0 := Allocated(1), 1 := Holding(0, []), 2 := Linked(1), 3 := Comparing(5, 0, 0)]
    ensures s.mem == Memory(map[1 := Cell(5, 2), 5 := Cell(0, 1)], 5, 3, [0, 1], [[0]], [5])
  {
    hide Reachable;
    s := LateReadFails();
    s := ReachNext(s, Alloc(3, 5));
    s := ReachNext(s, Link(3));
    s := ReachNext(s, ExchangePush(3));
    s := ReachNext(s, Alloc(2, 1));
    s := ReachNext(s, Link(2));
    s := ReachNext(s, Reread(0));
    assert 1 in Owned(PcOf(s, 0)) && 1 in Owned(PcOf(s, 2));
  }

  /** Both then push it, and its packet is in the list twice. */
  lemma PushedTwice() returns (s: State)
    ensures Reachable(s) && s.mem.pushed == [0, 1, 2, 2] && s.mem.list == [1, 1, 5] && !Conservation(s)
  {
    hide Reachable;
    s := TwoOwners();
    s := ReachNext(s, Link(0));
    s := ReachNext(s, ExchangePush(0));
    s := ReachNext(s, ExchangePush(2));
    s := ReachNext(s, Compare(2));
    s := ReachNext(s, Link(2));
    s := ReachNext(s, ExchangePush(2));
    assert s.mem.pushed[2] == s.mem.pushed[3];
  }
}
