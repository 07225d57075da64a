/** The reader/writer lock of src/fifo/shmem.cpp (the _WIN32 branch) with any number of
    threads in any number of processes. A step is one access of one thread to something it
    shares: an Interlocked operation, an operation on an event or a semaphore, or a read or a
    write of a field. Fields that are also touched outside the critical section (n_readers
    and the descriptor chain, by a thread that owns the lock exclusively) are loaded and
    stored in separate steps. */
module Lock {
  import opened Wrappers
  import Sets

  datatype Mode = Shared | Exclusive

  /** A call of lock or unlock with descriptor k of the calling thread; wait is msec != 0. */
  datatype Call = LockCall(mode: Mode, k: int, wait: bool) | UnlockCall(mode: Mode, k: int)

  /** A shared lock_descriptor, named by its owner. */
  datatype Desc = Desc(owner: nat, k: int)

  /** What a thread does once it has left the critical section. */
  datatype After = Return | Retry(c: Call)

  datatype Pc =
    | Idle
    // lock: the fast path of the owner
    | TestOwner(c: Call)
    | Nest
    // a shared lock is granted: n_readers, then the chain
    | JoinLoad(k: int, fast: bool)
    | JoinStore(k: int, fast: bool, v: int)
    | LinkLoad(k: int, fast: bool)
    | LinkStore(k: int, fast: bool, chain: seq<Desc>)
    // enter_critical_section
    | Enter(c: Call)
    | EnterWait(c: Call)
    // lock: the conditions
    | TestWriter(c: Call)
    | TestReaders(c: Call)
    | TestChain(c: Call)
    // an exclusive lock is granted
    | SetWriter
    | SetNested
    | SetOwner
    // lock: refused, but willing to wait
    | CountWaiter(c: Call)
    | ResetEvent(c: Call)
    | AwaitEvent(c: Call)
    | PostCredit(c: Call)
    // leave_critical_section
    | Leave(after: After)
    | SignalCs(after: After)
    // unlock
    | Unnest
    | ClearOwner
    | ClearWriter
    | UnlinkLoad(k: int)
    | UnlinkStore(k: int, chain: seq<Desc>)
    | DropLoad(k: int)
    | DropStore(k: int, v: int)
    | WakeTest
    | SetWake
    | DrainWait
    | DrainCount

  /** held and excl are the locks the thread holds: its shared descriptors and the number of
      its exclusive locks. */
  datatype Thread = Thread(process: nat, pc: Pc, held: set<int>, excl: nat)

  /** The fields of a shared_memory object, one object in each process. */
  datatype Process = Process(owner: Option<nat>, nested: int, chain: seq<Desc>)

  /** Who is in the critical section, or on the way to pass it on. */
  datatype Token = Free | Held(t: nat) | Signalling(t: nat) | Signalled

  /** The monitor, the kernel objects and the processes' fields; token and writer record who
      entered the critical section and who set n_writers. */
  datatype Machine = Machine(processes: seq<Process>,
                             cs: int, readers: int, writers: int, waiters: int,
                             hCS: bool, hEvent: bool, hSemaphore: nat,
                             faults: nat,      // calls of global_func_log
                             token: Token, writer: Option<nat>)

  datatype State = State(threads: seq<Thread>, m: Machine)

  /** What the environment decides: which call an idle thread makes, and whether a wait ends
      by its timeout. */
  datatype Choice = Do(c: Call) | Go | Timeout

  // ----- one step of one thread: where thread t goes, and what it changes

  function To(th: Thread, pc: Pc): Thread {
    th.(pc := pc)
  }

  function Checked(m: Machine, ok: bool): Machine {
    if ok then m else m.(faults := m.faults + 1)
  }

  /** Where a call goes on inside the critical section. */
  function Body(c: Call): Pc {
    match c
    case LockCall(_, _, _) => TestWriter(c)
    case UnlockCall(mode, k) => if mode == Exclusive then ClearWriter else UnlinkLoad(k)
  }

  function Refuse(c: Call): Pc {
    if c.LockCall? && c.wait then CountWaiter(c) else Leave(Return)
  }

  function AfterLeave(a: After): Pc {
    match a
    case Return => Idle
    case Retry(c) => AwaitEvent(c)
  }

  function Without(chain: seq<Desc>, d: Desc): seq<Desc> {
    if chain == [] then [] else if chain[0] == d then chain[1..] else [chain[0]] + Without(chain[1..], d)
  }

  /** The calls a correct client makes: it unlocks what it holds, and locks with a descriptor
      that is not in use. */
  predicate Allowed(th: Thread, c: Call) {
    match c
    case LockCall(mode, k, _) => mode == Shared ==> k !in th.held
    case UnlockCall(mode, k) => if mode == Shared then k in th.held else th.excl > 0
  }

  function StepCall(th: Thread, c: Choice): Thread {
    if !c.Do? || !Allowed(th, c.c) then th
    else if c.c.LockCall? then To(th, TestOwner(c.c))
    else if c.c.mode == Exclusive then To(th, Unnest)
    else To(th, Enter(c.c))
  }

  /** enter_critical_section and leave_critical_section. */
  function StepSection(th: Thread, m: Machine, t: nat): (Thread, Machine) {
    match th.pc
    case Enter(c) =>
      if m.cs - 1 != 0 then (To(th, EnterWait(c)), m.(cs := m.cs - 1))
      else (To(th, Body(c)), m.(cs := m.cs - 1, token := Held(t)))
    case EnterWait(c) =>
      if m.hCS then (To(th, Body(c)), m.(hCS := false, token := Held(t))) else (th, m)
    case Leave(a) =>
      if m.cs + 1 <= 0 then (To(th, SignalCs(a)), m.(cs := m.cs + 1, token := Signalling(t)))
      else (To(th, AfterLeave(a)), m.(cs := m.cs + 1, token := Free))
    case SignalCs(a) => (To(th, AfterLeave(a)), m.(hCS := true, token := Signalled))
    case _ => (th, m)
  }

  /** A shared lock is granted: count it, and put its descriptor on the chain. */
  function StepJoin(th: Thread, m: Machine, t: nat): (Thread, Machine)
    requires th.process < |m.processes|
  {
    var home := m.processes[th.process];
    match th.pc
    case JoinLoad(k, fast) => (To(th, JoinStore(k, fast, m.readers)), m)
    case JoinStore(k, fast, v) => (th.(pc := LinkLoad(k, fast), held := th.held + {k}), m.(readers := v + 1))
    case LinkLoad(k, fast) => (To(th, LinkStore(k, fast, home.chain)), m)
    case LinkStore(k, fast, chain) =>
      (To(th, if fast then Idle else Leave(Return)),
       m.(processes := m.processes[th.process := home.(chain := [Desc(t, k)] + chain)]))
    case _ => (th, m)
  }

  /** A shared lock is given up. */
  function StepDrop(th: Thread, m: Machine, t: nat): (Thread, Machine)
    requires th.process < |m.processes|
  {
    var home := m.processes[th.process];
    match th.pc
    case UnlinkLoad(k) =>
      (To(th, UnlinkStore(k, Without(home.chain, Desc(t, k)))),
       Checked(m, m.readers > 0 && Desc(t, k) in home.chain))
    case UnlinkStore(k, chain) =>
      (To(th, DropLoad(k)), m.(processes := m.processes[th.process := home.(chain := chain)]))
    case DropLoad(k) => (To(th, DropStore(k, m.readers)), m)
    case DropStore(k, v) => (th.(pc := WakeTest, held := th.held - {k}), m.(readers := v - 1))
    case _ => (th, m)
  }

  /** The owner's fast path, and the grant of an exclusive lock. */
  function StepOwn(th: Thread, m: Machine, t: nat): (Thread, Machine)
    requires th.process < |m.processes|
  {
    var home := m.processes[th.process];
    match th.pc
    case TestOwner(c) =>
      if home.owner == Some(t) then
        (To(th, if c.mode == Exclusive then Nest else JoinLoad(c.k, true)),
         Checked(m, home.nested != 0 && m.writers == 1))
      else (To(th, Enter(c)), m)
    case Nest =>
      (th.(pc := Idle, excl := th.excl + 1),
       m.(processes := m.processes[th.process := home.(nested := home.nested + 1)]))
    case SetWriter => (To(th, SetNested), m.(writers := 1, writer := Some(t)))
    case SetNested =>
      (th.(pc := SetOwner, excl := 1), m.(processes := m.processes[th.process := home.(nested := 1)]))
    case SetOwner => (To(th, Leave(Return)), m.(processes := m.processes[th.process := home.(owner := Some(t))]))
    case _ => (th, m)
  }

  /** An exclusive lock is given up. */
  function StepYield(th: Thread, m: Machine, t: nat): (Thread, Machine)
    requires th.process < |m.processes|
  {
    var home := m.processes[th.process];
    match th.pc
    case Unnest =>
      (th.(pc := if home.nested - 1 != 0 then Idle else ClearOwner, excl := if th.excl > 0 then th.excl - 1 else 0),
       Checked(m, home.owner == Some(t) && home.nested > 0)
         .(processes := m.processes[th.process := home.(nested := home.nested - 1)]))
    case ClearOwner =>
      (To(th, Enter(UnlockCall(Exclusive, 0))), m.(processes := m.processes[th.process := home.(owner := None)]))
    case ClearWriter => (To(th, WakeTest), Checked(m, m.writers == 1).(writers := 0, writer := None))
    case _ => (th, m)
  }

  /** The conditions of lock. */
  function StepTest(th: Thread, m: Machine, t: nat): Thread
    requires th.process < |m.processes|
  {
    match th.pc
    case TestWriter(c) =>
      To(th, if m.writers != 0 then Refuse(c) else if c.mode == Shared then JoinLoad(c.k, false) else TestReaders(c))
    case TestReaders(c) =>
      To(th, if m.readers == 0 then SetWriter else if m.readers != 1 then Refuse(c) else TestChain(c))
    case TestChain(c) =>
      var chain := m.processes[th.process].chain;
      To(th, if chain == [] || chain[0].owner != t then Refuse(c) else SetWriter)
    case _ => th
  }

  /** A waiter's part of the handshake. */
  function StepWait(th: Thread, m: Machine, choice: Choice): (Thread, Machine) {
    match th.pc
    case CountWaiter(c) =>
      (To(th, if m.waiters == 0 then ResetEvent(c) else Leave(Retry(c))), m.(waiters := m.waiters + 1))
    case ResetEvent(c) => (To(th, Leave(Retry(c))), m.(hEvent := false))
    case AwaitEvent(c) =>
      if choice.Timeout? && c.LockCall? then (To(th, PostCredit(c.(wait := false))), m)
      else if m.hEvent then (To(th, PostCredit(c)), m)
      else (th, m)
    case PostCredit(c) => (To(th, Enter(c)), m.(hSemaphore := m.hSemaphore + 1))
    case _ => (th, m)
  }

  /** The part of unlock in the handshake. */
  function StepWake(th: Thread, m: Machine): (Thread, Machine) {
    match th.pc
    case WakeTest => (To(th, if m.waiters != 0 then SetWake else Leave(Return)), m)
    case SetWake => (To(th, DrainWait), m.(hEvent := true))
    case DrainWait =>
      if m.hSemaphore > 0 then (To(th, DrainCount), m.(hSemaphore := m.hSemaphore - 1)) else (th, m)
    case DrainCount =>
      (To(th, if m.waiters - 1 != 0 then DrainWait else Leave(Return)), m.(waiters := m.waiters - 1))
    case _ => (th, m)
  }

  datatype Group = Calling | Sectioning | Joining | Dropping | Owning | Yielding | Testing | Waiting | Waking

  function GroupOf(pc: Pc): Group {
    match pc
    case Idle => Calling
    case Enter(_) | EnterWait(_) | Leave(_) | SignalCs(_) => Sectioning
    case JoinLoad(_, _) | JoinStore(_, _, _) | LinkLoad(_, _) | LinkStore(_, _, _) => Joining
    case UnlinkLoad(_) | UnlinkStore(_, _) | DropLoad(_) | DropStore(_, _) => Dropping
    case TestOwner(_) | Nest | SetWriter | SetNested | SetOwner => Owning
    case Unnest | ClearOwner | ClearWriter => Yielding
    case TestWriter(_) | TestReaders(_) | TestChain(_) => Testing
    case CountWaiter(_) | ResetEvent(_) | AwaitEvent(_) | PostCredit(_) => Waiting
    case WakeTest | SetWake | DrainWait | DrainCount => Waking
  }

  /** One step of thread t, which is th; a wait that cannot end changes nothing. */
  function ThreadStep(th: Thread, m: Machine, t: nat, c: Choice): (Thread, Machine)
    requires th.process < |m.processes|
  {
    match GroupOf(th.pc)
    case Calling => (StepCall(th, c), m)
    case Sectioning => StepSection(th, m, t)
    case Joining => StepJoin(th, m, t)
    case Dropping => StepDrop(th, m, t)
    case Owning => StepOwn(th, m, t)
    case Yielding => StepYield(th, m, t)
    case Testing => (StepTest(th, m, t), m)
    case Waiting => StepWait(th, m, c)
    case Waking => StepWake(th, m)
  }

  function Step(s: State, t: nat, c: Choice): State {
    if t >= |s.threads| || s.threads[t].process >= |s.m.processes| then s
    else
      var (th, m) := ThreadStep(s.threads[t], s.m, t, c);
      State(s.threads[t := th], m)
  }

  /** Thread i runs in process home[i]; nothing is locked. */
  function Start(home: seq<nat>, n: nat): State {
    State(seq(|home|, i requires 0 <= i < |home| => Thread(home[i], Idle, {}, 0)),
          Machine(seq(n, _ => Process(None, 0, [])), 1, 0, 0, 0, false, false, 0, 0, Free, None))
  }

  function Run(home: seq<nat>, n: nat, steps: seq<(nat, Choice)>): State {
    if steps == [] then Start(home, n)
    else Step(Run(home, n, steps[..|steps| - 1]), steps[|steps| - 1].0, steps[|steps| - 1].1)
  }

  // ----- counting threads

  datatype Kind = Queued | Owed

  /** Queued: waiting for the critical section. Owed: counted in n_waiters and not yet
      paid for by a credit, or the credit taken and n_waiters not yet lowered. */
  predicate Is(kind: Kind, th: Thread) {
    match kind
    case Queued => th.pc.EnterWait?
    case Owed => match th.pc
      case ResetEvent(_) | AwaitEvent(_) | PostCredit(_) | DrainCount => true
      case Leave(a) => a.Retry?
      case SignalCs(a) => a.Retry?
      case _ => false
  }

  function One(b: bool): nat {
    if b then 1 else 0
  }

  function Count(kind: Kind, threads: seq<Thread>): nat {
    if threads == [] then 0 else One(Is(kind, threads[0])) + Count(kind, threads[1..])
  }

  lemma {:induction false} CountMoved(kind: Kind, threads: seq<Thread>, t: nat, th: Thread)
    requires t < |threads|
    ensures Count(kind, threads[t := th]) + One(Is(kind, threads[t])) == Count(kind, threads) + One(Is(kind, th))
  {
    if t == 0 {
      assert threads[0 := th][1..] == threads[1..];
    } else {
      assert threads[t := th][1..] == threads[1..][t - 1 := th];
      CountMoved(kind, threads[1..], t - 1, th);
    }
  }

  lemma {:induction false} CountPositive(kind: Kind, threads: seq<Thread>)
    ensures Count(kind, threads) > 0 <==> exists i :: 0 <= i < |threads| && Is(kind, threads[i])
  {
    if threads != [] {
      CountPositive(kind, threads[1..]);
      assert forall i :: 0 <= i < |threads[1..]| ==> threads[1..][i] == threads[i + 1];
      if Count(kind, threads[1..]) > 0 {
        var i :| 0 <= i < |threads[1..]| && Is(kind, threads[1..][i]);
        assert Is(kind, threads[i + 1]);
      }
      if i :| 0 <= i < |threads| && Is(kind, threads[i]) && i > 0 {
        assert threads[1..][i - 1] == threads[i];
      }
    }
  }

  /** All shared descriptors held. */
  function TotalHeld(threads: seq<Thread>): nat {
    if threads == [] then 0 else |threads[0].held| + TotalHeld(threads[1..])
  }

  lemma {:induction false} TotalMoved(threads: seq<Thread>, t: nat, th: Thread)
    requires t < |threads|
    ensures TotalHeld(threads[t := th]) + |threads[t].held| == TotalHeld(threads) + |th.held|
  {
    if t == 0 {
      assert threads[0 := th][1..] == threads[1..];
    } else {
      assert threads[t := th][1..] == threads[1..][t - 1 := th];
      TotalMoved(threads[1..], t - 1, th);
    }
  }

  /** If thread t holds every shared descriptor the others hold none. */
  lemma {:induction false} HoldsAll(threads: seq<Thread>, t: nat, j: nat)
    requires t < |threads| && j < |threads| && j != t
    ensures TotalHeld(threads) >= |threads[t].held| + |threads[j].held|
  {
    if t == 0 {
      HoldsSome(threads[1..], j - 1);
    } else if j == 0 {
      HoldsSome(threads[1..], t - 1);
    } else {
      HoldsAll(threads[1..], t - 1, j - 1);
    }
  }

  lemma {:induction false} HoldsSome(threads: seq<Thread>, t: nat)
    requires t < |threads|
    ensures TotalHeld(threads) >= |threads[t].held|
  {
    if t > 0 {
      HoldsSome(threads[1..], t - 1);
    }
  }

  // ----- the critical section

  /** Between enter_critical_section and the end of leave_critical_section. */
  predicate Inside(pc: Pc) {
    match pc
    case JoinLoad(_, fast) => !fast
    case JoinStore(_, fast, _) => !fast
    case LinkLoad(_, fast) => !fast
    case LinkStore(_, fast, _) => !fast
    case Idle | TestOwner(_) | Nest | Enter(_) | EnterWait(_) | AwaitEvent(_) | PostCredit(_)
       | SignalCs(_) | Unnest | ClearOwner => false
    case _ => true
  }

  /** The one token is held by the thread inside, or being passed on to a thread that waits. */
  ghost predicate SectionInv(s: State) {
    && (forall i :: 0 <= i < |s.threads| ==> (Inside(s.threads[i].pc) <==> s.m.token == Held(i)))
    && (forall i :: 0 <= i < |s.threads| ==> (s.threads[i].pc.SignalCs? <==> s.m.token == Signalling(i)))
    && (s.m.token.Held? ==> s.m.token.t < |s.threads|)
    && (s.m.hCS <==> s.m.token == Signalled)
    && s.m.cs == 1 - Count(Queued, s.threads) - One(s.m.token.Held?)
    && (Count(Queued, s.threads) > 0 ==> s.m.token != Free)
    && (s.m.token.Signalling? || s.m.token == Signalled ==> Count(Queued, s.threads) > 0)
  }

  /** What the critical section sees of a thread, and of the machine. */
  function SectionView(th: Thread): (bool, bool, bool) {
    (Inside(th.pc), th.pc.SignalCs?, th.pc.EnterWait?)
  }

  function SectionWords(m: Machine): (int, bool, Token) {
    (m.cs, m.hCS, m.token)
  }

  lemma SectionFrame(s: State, t: nat, th: Thread, m: Machine)
    requires SectionInv(s) && t < |s.threads|
    requires SectionView(th) == SectionView(s.threads[t]) && SectionWords(m) == SectionWords(s.m)
    ensures SectionInv(State(s.threads[t := th], m))
  {
    hide Inside, Count;
    CountMoved(Queued, s.threads, t, th);
  }

  /** Only enter and leave concern the section. */
  lemma OthersKeepSection(th: Thread, m: Machine, t: nat, c: Choice)
    requires th.process < |m.processes| && GroupOf(th.pc) != Sectioning
    ensures var (th', m') := ThreadStep(th, m, t, c);
            SectionView(th') == SectionView(th) && SectionWords(m') == SectionWords(m)
  {
    hide StepSection;
  }

  lemma SectionStep(s: State, t: nat)
    requires SectionInv(s) && t < |s.threads|
    ensures var (th, m) := StepSection(s.threads[t], s.m, t); SectionInv(State(s.threads[t := th], m))
  {
    hide Count;
    CountMoved(Queued, s.threads, t, StepSection(s.threads[t], s.m, t).0);
  }

  lemma StepKeepsSection(s: State, t: nat, c: Choice)
    requires SectionInv(s)
    ensures SectionInv(Step(s, t, c))
  {
    hide SectionInv, SectionView, SectionWords;
    if t < |s.threads| && s.threads[t].process < |s.m.processes| {
      if GroupOf(s.threads[t].pc) == Sectioning {
        SectionStep(s, t);
      } else {
        OthersKeepSection(s.threads[t], s.m, t, c);
        var (th, m) := ThreadStep(s.threads[t], s.m, t, c);
        SectionFrame(s, t, th, m);
      }
    }
  }

  // ----- the writer

  /** Places where the thread is the writer although it counts no exclusive lock. */
  predicate Claims(pc: Pc) {
    match pc
    case SetNested | ClearOwner | ClearWriter => true
    case Enter(c) => c.UnlockCall? && c.mode == Exclusive
    case EnterWait(c) => c.UnlockCall? && c.mode == Exclusive
    case _ => false
  }

  /** From n_writers := 1 to n_writers := 0. */
  predicate IsWriter(th: Thread) {
    th.excl > 0 || Claims(th.pc)
  }

  /** From owner := self to owner := 0. */
  predicate OwnsIt(th: Thread) {
    if th.excl > 0 then !th.pc.SetOwner? else th.pc.ClearOwner?
  }

  /** What a thread's place says of its exclusive locks; locked is whether there is a writer. */
  predicate PlaceFits(th: Thread, locked: bool) {
    match th.pc
    case Nest | Unnest | SetOwner => th.excl > 0
    case SetNested | ClearOwner | ClearWriter => th.excl == 0
    case JoinLoad(_, fast) => if fast then th.excl > 0 else !locked
    case JoinStore(_, fast, _) => if fast then th.excl > 0 else !locked
    case LinkLoad(_, fast) => if fast then th.excl > 0 else !locked
    case LinkStore(_, fast, _) => if fast then th.excl > 0 else !locked
    case TestOwner(c) => c.LockCall?
    case Enter(c) => c.LockCall? || c.mode == Exclusive ==> th.excl == 0
    case EnterWait(c) => c.LockCall? || c.mode == Exclusive ==> th.excl == 0
    case TestWriter(c) => c.LockCall? && th.excl == 0
    case TestReaders(c) => c.LockCall? && c.mode == Exclusive && th.excl == 0 && !locked
    case TestChain(c) => c.LockCall? && c.mode == Exclusive && th.excl == 0 && !locked
    case SetWriter => th.excl == 0 && !locked
    case CountWaiter(c) => c.LockCall? && th.excl == 0
    case ResetEvent(c) => c.LockCall? && th.excl == 0
    case AwaitEvent(c) => c.LockCall? && th.excl == 0
    case PostCredit(c) => c.LockCall? && th.excl == 0
    case Leave(a) => a.Retry? ==> a.c.LockCall? && th.excl == 0
    case SignalCs(a) => a.Retry? ==> a.c.LockCall? && th.excl == 0
    case _ => true
  }

  /** What thread i says of itself agrees with the fields. */
  ghost predicate WriterFits(s: State, i: nat)
    requires i < |s.threads|
  {
    var th := s.threads[i];
    && th.process < |s.m.processes|
    && (s.m.writer == Some(i) <==> IsWriter(th))
    && (s.m.processes[th.process].owner == Some(i) <==> OwnsIt(th))
    && (th.excl > 0 ==> s.m.processes[th.process].nested == th.excl)
    && PlaceFits(th, s.m.writer.Some?)
  }

  /** One writer at most, and the fields of its process say who. */
  ghost predicate WriterInv(s: State) {
    && s.m.writers == One(s.m.writer.Some?)
    && forall i :: 0 <= i < |s.threads| ==> WriterFits(s, i)
  }

  /** What the writer's fields see of a thread, and of the machine. */
  function WriterView(th: Thread): (nat, bool, bool, nat) {
    (th.process, IsWriter(th), OwnsIt(th), th.excl)
  }

  ghost predicate SameWords(m: Machine, m': Machine) {
    && m'.writer == m.writer && m'.writers == m.writers && |m'.processes| == |m.processes|
    && forall p :: 0 <= p < |m.processes| ==>
         m'.processes[p].owner == m.processes[p].owner && m'.processes[p].nested == m.processes[p].nested
  }

  lemma WriterFrame(s: State, t: nat, th: Thread, m: Machine)
    requires WriterInv(s) && t < |s.threads|
    requires WriterView(th) == WriterView(s.threads[t]) && PlaceFits(th, s.m.writer.Some?) && SameWords(s.m, m)
    ensures WriterInv(State(s.threads[t := th], m))
  {
    hide IsWriter, OwnsIt, PlaceFits;
    var u := State(s.threads[t := th], m);
    forall i | 0 <= i < |u.threads|
      ensures WriterFits(u, i)
    {
      assert WriterFits(s, i);
    }
  }

  predicate WriterMoves(pc: Pc) {
    GroupOf(pc) == Yielding || (GroupOf(pc) == Owning && !pc.TestOwner?)
  }

  /** Most steps leave the writer alone and lead to a place that fits. */
  lemma OthersKeepWriter(s: State, t: nat, c: Choice)
    requires WriterInv(s) && t < |s.threads| && !WriterMoves(s.threads[t].pc)
    ensures WriterFits(s, t)
    ensures var th := ThreadStep(s.threads[t], s.m, t, c).0;
            WriterView(th) == WriterView(s.threads[t]) && PlaceFits(th, s.m.writer.Some?)
  {
    assert WriterFits(s, t);
    hide WriterInv;
    if GroupOf(s.threads[t].pc) == Sectioning {
      SectionKeepsWriter(s.threads[t], s.m, t);
    } else {
      hide StepSection;
    }
  }

  lemma SectionKeepsWriter(th: Thread, m: Machine, t: nat)
    requires GroupOf(th.pc) == Sectioning && PlaceFits(th, m.writer.Some?)
    ensures var th' := StepSection(th, m, t).0; WriterView(th') == WriterView(th) && PlaceFits(th', m.writer.Some?)
  {
  }

  lemma OthersKeepWords(th: Thread, m: Machine, t: nat, c: Choice)
    requires th.process < |m.processes| && !WriterMoves(th.pc)
    ensures SameWords(m, ThreadStep(th, m, t, c).1)
  {
  }

  /** Outside the critical section no place depends on there being no writer. */
  lemma OutsideFits(th: Thread, locked: bool)
    requires PlaceFits(th, locked)
    ensures PlaceFits(th, false)
    ensures !Inside(th.pc) ==> PlaceFits(th, true)
  {
  }

  /** Steps of the writer on its own fields. */
  ghost predicate WriterStep(s: State, t: nat, m: Machine)
    requires t < |s.threads| && s.threads[t].process < |s.m.processes|
  {
    var p := s.threads[t].process;
    && s.m.writer == Some(t) && (m.writer == Some(t) || m.writer == None) && m.writers == One(m.writer.Some?)
    && |m.processes| == |s.m.processes|
    && (forall q :: 0 <= q < |m.processes| && q != p ==> m.processes[q] == s.m.processes[q])
    && m.processes[p].owner in {s.m.processes[p].owner, None, Some(t)}
  }

  lemma WriterStepFrame(s: State, t: nat, th: Thread, m: Machine)
    requires WriterInv(s) && t < |s.threads| && s.threads[t].process < |s.m.processes| && WriterStep(s, t, m)
    requires WriterFits(State(s.threads[t := th], m), t)
    ensures WriterInv(State(s.threads[t := th], m))
  {
    hide PlaceFits;
    var u := State(s.threads[t := th], m);
    forall i | 0 <= i < |u.threads|
      ensures WriterFits(u, i)
    {
      assert WriterFits(s, i);
      OutsideFits(s.threads[i], s.m.writer.Some?);
    }
  }

  /** n_writers := 1. */
  lemma SetWriterKeepsWriter(s: State, t: nat)
    requires WriterInv(s) && SectionInv(s) && t < |s.threads| && s.threads[t].pc == SetWriter
    ensures WriterInv(State(s.threads[t := To(s.threads[t], SetNested)], s.m.(writers := 1, writer := Some(t))))
  {
    hide PlaceFits;
    var u := State(s.threads[t := To(s.threads[t], SetNested)], s.m.(writers := 1, writer := Some(t)));
    SetWriterFits(s, t);
    forall i | 0 <= i < |u.threads|
      ensures WriterFits(u, i)
    {
      assert WriterFits(s, i);
      OutsideFits(s.threads[i], s.m.writer.Some?);
    }
  }

  lemma SetWriterFits(s: State, t: nat)
    requires WriterInv(s) && t < |s.threads| && s.threads[t].pc == SetWriter
    ensures s.m.writer == None && PlaceFits(To(s.threads[t], SetNested), true)
  {
    assert WriterFits(s, t);
  }

  lemma YieldKeepsWriter(s: State, t: nat)
    requires WriterInv(s) && t < |s.threads| && GroupOf(s.threads[t].pc) == Yielding
    ensures WriterFits(s, t)
    ensures var (th, m) := StepYield(s.threads[t], s.m, t);
            WriterInv(State(s.threads[t := th], m)) && m.faults == s.m.faults
  {
    assert WriterFits(s, t);
    var (th, m) := StepYield(s.threads[t], s.m, t);
    WriterStepFrame(s, t, th, m);
  }

  lemma OwnKeepsWriter(s: State, t: nat)
    requires WriterInv(s) && SectionInv(s) && t < |s.threads|
    requires GroupOf(s.threads[t].pc) == Owning && !s.threads[t].pc.TestOwner?
    ensures WriterFits(s, t)
    ensures var (th, m) := StepOwn(s.threads[t], s.m, t); WriterInv(State(s.threads[t := th], m))
  {
    assert WriterFits(s, t);
    var (th, m) := StepOwn(s.threads[t], s.m, t);
    if s.threads[t].pc == SetWriter {
      SetWriterKeepsWriter(s, t);
    } else {
      WriterStepFrame(s, t, th, m);
    }
  }

  lemma StepKeepsWriter(s: State, t: nat, c: Choice)
    requires WriterInv(s) && SectionInv(s)
    ensures WriterInv(Step(s, t, c))
  {
    if t < |s.threads| && s.threads[t].process < |s.m.processes| {
      hide WriterInv, WriterFits, WriterView, SameWords, PlaceFits, StepOwn, StepYield;
      if GroupOf(s.threads[t].pc) == Yielding {
        YieldKeepsWriter(s, t);
      } else if WriterMoves(s.threads[t].pc) {
        OwnKeepsWriter(s, t);
      } else {
        OthersKeepWriter(s, t, c);
        OthersKeepWords(s.threads[t], s.m, t, c);
        var (th, m) := ThreadStep(s.threads[t], s.m, t, c);
        WriterFrame(s, t, th, m);
      }
    }
  }

  // ----- the readers

  /** A call in progress still concerns a descriptor that is free, or held, as it should be. */
  predicate CallFits(held: set<int>, c: Call) {
    c.mode == Shared ==> if c.LockCall? then c.k !in held else c.k in held
  }

  /** What a thread's place says of its shared descriptors and of n_readers. */
  predicate HeldFits(th: Thread, readers: int) {
    match th.pc
    case JoinLoad(k, _) => k !in th.held
    case JoinStore(k, _, v) => k !in th.held && v == readers
    case LinkLoad(k, _) => k in th.held
    case LinkStore(k, _, _) => k in th.held
    case UnlinkLoad(k) => k in th.held
    case UnlinkStore(k, _) => k in th.held
    case DropLoad(k) => k in th.held
    case DropStore(k, v) => k in th.held && v == readers
    case TestChain(_) => readers == 1
    case SetWriter => readers == |th.held|
    case TestOwner(c) => CallFits(th.held, c)
    case Enter(c) => CallFits(th.held, c)
    case EnterWait(c) => CallFits(th.held, c)
    case TestWriter(c) => CallFits(th.held, c)
    case CountWaiter(c) => CallFits(th.held, c)
    case ResetEvent(c) => CallFits(th.held, c)
    case AwaitEvent(c) => CallFits(th.held, c)
    case PostCredit(c) => CallFits(th.held, c)
    case Leave(a) => a.Retry? ==> CallFits(th.held, a.c)
    case SignalCs(a) => a.Retry? ==> CallFits(th.held, a.c)
    case _ => true
  }

  ghost predicate ReaderFits(s: State, i: nat)
    requires i < |s.threads|
  {
    && HeldFits(s.threads[i], s.m.readers)
    && (s.m.writer.Some? && s.m.writer != Some(i) ==> s.threads[i].held == {})
  }

  /** n_readers counts the descriptors held, and beside a writer nobody holds one. */
  ghost predicate ReaderInv(s: State) {
    && s.m.readers == TotalHeld(s.threads)
    && forall i :: 0 <= i < |s.threads| ==> ReaderFits(s, i)
  }

  /** Places where n_readers or the chain is read or written. */
  predicate Touches(pc: Pc) {
    GroupOf(pc) == Joining || GroupOf(pc) == Dropping || pc.TestReaders? || pc.TestChain? || pc.SetWriter?
  }

  /** A thread there is the writer outside the critical section, or inside it without one or
      with a descriptor of its own. */
  lemma TouchesHow(s: State, t: nat)
    requires WriterInv(s) && ReaderInv(s) && t < |s.threads| && Touches(s.threads[t].pc)
    ensures if Inside(s.threads[t].pc) then s.m.writer == None || s.threads[t].held != {} else s.m.writer == Some(t)
  {
    assert WriterFits(s, t);
    assert ReaderFits(s, t);
  }

  /** No data race: two threads are never at such places at once, although one of them may be
      outside the critical section. */
  lemma NoRace(s: State, t: nat, j: nat)
    requires SectionInv(s) && WriterInv(s) && ReaderInv(s)
    requires t < |s.threads| && j < |s.threads| && t != j && Touches(s.threads[t].pc)
    ensures !Touches(s.threads[j].pc)
  {
    hide WriterInv, Touches, Inside;
    assert ReaderFits(s, t);
    assert ReaderFits(s, j);
    TouchesHow(s, t);
    if Touches(s.threads[j].pc) {
      TouchesHow(s, j);
    }
  }

  lemma UntouchedHeld(th: Thread, readers: int, readers': int)
    requires HeldFits(th, readers) && !Touches(th.pc)
    ensures HeldFits(th, readers')
  {
  }

  predicate ReaderMoves(pc: Pc) {
    pc.JoinStore? || pc.DropStore? || pc.TestReaders? || pc.TestChain? || pc.SetWriter? || pc.ClearWriter?
  }

  lemma OthersKeepReaders(th: Thread, m: Machine, t: nat, c: Choice)
    requires th.process < |m.processes| && !ReaderMoves(th.pc)
    ensures var (th', m') := ThreadStep(th, m, t, c);
            (th'.held, m'.readers, m'.writer) == (th.held, m.readers, m.writer)
  {
    if GroupOf(th.pc) == Sectioning {
      SectionKeepsReaders(th, m, t);
    } else {
      hide StepSection;
    }
  }

  lemma SectionKeepsReaders(th: Thread, m: Machine, t: nat)
    ensures var (th', m') := StepSection(th, m, t);
            (th'.held, m'.readers, m'.writer) == (th.held, m.readers, m.writer)
  {
  }

  lemma SectionKeepsHeld(th: Thread, m: Machine, t: nat)
    requires GroupOf(th.pc) == Sectioning && PlaceFits(th, m.writer.Some?) && HeldFits(th, m.readers)
    ensures HeldFits(StepSection(th, m, t).0, m.readers)
  {
  }

  lemma OthersKeepHeld(th: Thread, m: Machine, t: nat, c: Choice)
    requires th.process < |m.processes| && !ReaderMoves(th.pc) && PlaceFits(th, m.writer.Some?)
             && HeldFits(th, m.readers)
    ensures HeldFits(ThreadStep(th, m, t, c).0, m.readers)
  {
    if GroupOf(th.pc) == Sectioning {
      SectionKeepsHeld(th, m, t);
    } else {
      hide StepSection;
    }
  }

  /** Steps that leave n_readers, the descriptors and the other threads' idea of a writer alone. */
  lemma ReaderFrame(s: State, t: nat, th: Thread, m: Machine)
    requires ReaderInv(s) && t < |s.threads| && HeldFits(th, m.readers) && th.held == s.threads[t].held
    requires m.readers == s.m.readers && (m.writer == s.m.writer || m.writer == None)
    ensures ReaderInv(State(s.threads[t := th], m))
  {
    hide HeldFits;
    var u := State(s.threads[t := th], m);
    TotalMoved(s.threads, t, th);
    forall i | 0 <= i < |u.threads|
      ensures ReaderFits(u, i)
    {
      assert ReaderFits(s, i);
    }
  }

  /** n_readers and one thread's descriptors change together. */
  lemma ReaderCounts(s: State, t: nat, th: Thread, m: Machine)
    requires SectionInv(s) && WriterInv(s) && ReaderInv(s) && t < |s.threads| && Touches(s.threads[t].pc)
    requires HeldFits(th, m.readers) && m.writer == s.m.writer
    requires m.readers - s.m.readers == |th.held| - |s.threads[t].held|
    ensures ReaderInv(State(s.threads[t := th], m))
  {
    hide HeldFits, Touches, SectionInv, WriterInv;
    var u := State(s.threads[t := th], m);
    TotalMoved(s.threads, t, th);
    TouchesHow(s, t);
    forall i | 0 <= i < |u.threads|
      ensures ReaderFits(u, i)
    {
      assert ReaderFits(s, i);
      if i != t {
        NoRace(s, t, i);
        UntouchedHeld(s.threads[i], s.m.readers, m.readers);
      }
    }
  }

  // ----- the descriptor chains

  /** A descriptor that is held and neither about to be linked nor already unlinked. */
  predicate Linked(th: Thread, k: int) {
    k in th.held && match th.pc
      case LinkLoad(x, _) => x != k
      case LinkStore(x, _, _) => x != k
      case DropLoad(x) => x != k
      case DropStore(x, _) => x != k
      case _ => true
  }

  ghost predicate OnChain(s: State, p: nat, d: Desc) {
    d.owner < |s.threads| && s.threads[d.owner].process == p && Linked(s.threads[d.owner], d.k)
  }

  /** The chain of process p has each linked descriptor of its threads exactly once. */
  ghost predicate ChainFits(s: State, p: nat)
    requires p < |s.m.processes|
  {
    forall d :: multiset(s.m.processes[p].chain)[d] == One(OnChain(s, p, d))
  }

  /** What a thread has read of the chain is still there when it writes. */
  predicate LinkFits(th: Thread, t: nat, chain: seq<Desc>) {
    match th.pc
    case LinkStore(_, _, loaded) => loaded == chain
    case UnlinkStore(k, rest) => rest == Without(chain, Desc(t, k))
    case _ => true
  }

  ghost predicate ChainInv(s: State) {
    && (forall p :: 0 <= p < |s.m.processes| ==> ChainFits(s, p))
    && (forall i :: 0 <= i < |s.threads| ==>
          s.threads[i].process < |s.m.processes|
          && LinkFits(s.threads[i], i, s.m.processes[s.threads[i].process].chain))
  }

  lemma {:induction false} WithoutCounts(chain: seq<Desc>, d: Desc)
    requires d in chain
    ensures multiset(Without(chain, d)) == multiset(chain) - multiset{d}
  {
    assert chain == [chain[0]] + chain[1..];
    if chain[0] != d {
      WithoutCounts(chain[1..], d);
    }
  }

  predicate ChainMoves(pc: Pc) {
    pc.LinkStore? || pc.UnlinkStore?
  }

  ghost predicate SameChains(m: Machine, m': Machine) {
    |m'.processes| == |m.processes|
    && forall p :: 0 <= p < |m.processes| ==> m'.processes[p].chain == m.processes[p].chain
  }

  lemma OthersKeepChains(th: Thread, m: Machine, t: nat, c: Choice)
    requires th.process < |m.processes| && !ChainMoves(th.pc)
    ensures SameChains(m, ThreadStep(th, m, t, c).1)
  {
    if GroupOf(th.pc) == Owning || GroupOf(th.pc) == Yielding {
      hide StepSection, StepJoin, StepDrop, StepTest, StepWait, StepWake;
      OwnersKeepChains(th, m, t);
    } else {
      hide StepOwn, StepYield;
    }
  }

  lemma OwnersKeepChains(th: Thread, m: Machine, t: nat)
    requires th.process < |m.processes|
    ensures SameChains(m, StepOwn(th, m, t).1) && SameChains(m, StepYield(th, m, t).1)
  {
  }

  lemma OthersKeepLinks(th: Thread, m: Machine, t: nat, c: Choice)
    requires th.process < |m.processes| && !ChainMoves(th.pc) && HeldFits(th, m.readers)
    ensures var th' := ThreadStep(th, m, t, c).0;
            th'.process == th.process && LinkFits(th', t, m.processes[th.process].chain)
            && forall k :: Linked(th', k) <==> Linked(th, k)
  {
    if GroupOf(th.pc) == Joining || GroupOf(th.pc) == Dropping {
      SharersKeepLinks(th, m, t);
    } else {
      hide StepJoin, StepDrop;
    }
  }

  lemma SharersKeepLinks(th: Thread, m: Machine, t: nat)
    requires th.process < |m.processes| && !ChainMoves(th.pc) && HeldFits(th, m.readers)
    ensures var th' := StepJoin(th, m, t).0;
            GroupOf(th.pc) == Joining ==> th'.process == th.process && LinkFits(th', t, m.processes[th.process].chain)
                                          && forall k :: Linked(th', k) <==> Linked(th, k)
    ensures var th' := StepDrop(th, m, t).0;
            GroupOf(th.pc) == Dropping ==> th'.process == th.process && LinkFits(th', t, m.processes[th.process].chain)
                                           && forall k :: Linked(th', k) <==> Linked(th, k)
  {
  }

  lemma ChainFrame(s: State, t: nat, th: Thread, m: Machine)
    requires ChainInv(s) && t < |s.threads| && SameChains(s.m, m)
    requires th.process == s.threads[t].process && (forall k :: Linked(th, k) <==> Linked(s.threads[t], k))
    requires LinkFits(th, t, s.m.processes[th.process].chain)
    ensures ChainInv(State(s.threads[t := th], m))
  {
    hide Linked, LinkFits;
    var u := State(s.threads[t := th], m);
    forall p | 0 <= p < |u.m.processes|
      ensures ChainFits(u, p)
    {
      assert ChainFits(s, p);
      forall d
        ensures multiset(u.m.processes[p].chain)[d] == One(OnChain(u, p, d))
      {
        assert OnChain(u, p, d) <==> OnChain(s, p, d);
      }
    }
  }

  lemma ChainKnown(s: State, t: nat, d: Desc)
    requires ChainInv(s) && t < |s.threads|
    ensures s.threads[t].process < |s.m.processes|
    ensures multiset(s.m.processes[s.threads[t].process].chain)[d] == One(OnChain(s, s.threads[t].process, d))
    ensures LinkFits(s.threads[t], t, s.m.processes[s.threads[t].process].chain)
  {
    assert ChainFits(s, s.threads[t].process);
  }

  /** A thread moves one descriptor of its own on or off the chain of its process. */
  lemma ChainChanges(s: State, t: nat, th: Thread, k: int, chain: seq<Desc>)
    requires SectionInv(s) && WriterInv(s) && ReaderInv(s) && ChainInv(s)
    requires t < |s.threads| && Touches(s.threads[t].pc) && th.process == s.threads[t].process
    requires forall x :: x != k ==> (Linked(th, x) <==> Linked(s.threads[t], x))
    requires !ChainMoves(th.pc)
    requires s.threads[t].process < |s.m.processes|
    requires multiset(chain) == multiset(s.m.processes[th.process].chain)[Desc(t, k) := One(Linked(th, k))]
    ensures var home := s.m.processes[th.process];
            ChainInv(State(s.threads[t := th], s.m.(processes := s.m.processes[th.process := home.(chain := chain)])))
  {
    hide SectionInv, WriterInv, ReaderInv, Linked;
    var u := State(s.threads[t := th],
                   s.m.(processes := s.m.processes[th.process := s.m.processes[th.process].(chain := chain)]));
    forall p | 0 <= p < |u.m.processes|
      ensures ChainFits(u, p)
    {
      assert ChainFits(s, p);
      forall d
        ensures multiset(u.m.processes[p].chain)[d] == One(OnChain(u, p, d))
      {
        assert d != Desc(t, k) ==> (OnChain(u, p, d) <==> OnChain(s, p, d));
      }
    }
    forall i | 0 <= i < |u.threads|
      ensures u.threads[i].process < |u.m.processes|
              && LinkFits(u.threads[i], i, u.m.processes[u.threads[i].process].chain)
    {
      if i != t {
        NoRace(s, t, i);
      }
    }
  }

  lemma LinkKeepsChain(s: State, t: nat)
    requires SectionInv(s) && WriterInv(s) && ReaderInv(s) && ChainInv(s)
    requires t < |s.threads| && s.threads[t].process < |s.m.processes| && s.threads[t].pc.LinkStore?
    ensures var (th, m) := StepJoin(s.threads[t], s.m, t); ChainInv(State(s.threads[t := th], m))
  {
    hide SectionInv, WriterInv, ChainInv;
    var was, k := s.threads[t], s.threads[t].pc.k;
    var th := StepJoin(was, s.m, t).0;
    ChainKnown(s, t, Desc(t, k));
    assert ReaderFits(s, t);
    assert Linked(th, k) && !Linked(was, k);
    ChainChanges(s, t, th, k, [Desc(t, k)] + s.m.processes[was.process].chain);
  }

  lemma UnlinkKeepsChain(s: State, t: nat)
    requires SectionInv(s) && WriterInv(s) && ReaderInv(s) && ChainInv(s)
    requires t < |s.threads| && s.threads[t].process < |s.m.processes| && s.threads[t].pc.UnlinkStore?
    ensures var (th, m) := StepDrop(s.threads[t], s.m, t); ChainInv(State(s.threads[t := th], m))
  {
    hide SectionInv, WriterInv, ChainInv;
    var was, k := s.threads[t], s.threads[t].pc.k;
    var th := StepDrop(was, s.m, t).0;
    var chain := s.m.processes[was.process].chain;
    ChainKnown(s, t, Desc(t, k));
    assert ReaderFits(s, t);
    assert Linked(was, k) && !Linked(th, k);
    assert Desc(t, k) in multiset(chain);
    WithoutCounts(chain, Desc(t, k));
    ChainChanges(s, t, th, k, Without(chain, Desc(t, k)));
  }

  lemma StepKeepsChain(s: State, t: nat, c: Choice)
    requires SectionInv(s) && WriterInv(s) && ReaderInv(s) && ChainInv(s)
    ensures ChainInv(Step(s, t, c))
  {
    hide SectionInv, WriterInv, ChainInv, StepJoin, StepDrop;
    if t < |s.threads| && s.threads[t].process < |s.m.processes| {
      if s.threads[t].pc.LinkStore? {
        LinkKeepsChain(s, t);
      } else if s.threads[t].pc.UnlinkStore? {
        UnlinkKeepsChain(s, t);
      } else {
        hide Linked, LinkFits, SameChains;
        assert ReaderFits(s, t);
        OthersKeepChains(s.threads[t], s.m, t, c);
        OthersKeepLinks(s.threads[t], s.m, t, c);
        var (th, m) := ThreadStep(s.threads[t], s.m, t, c);
        ChainFrame(s, t, th, m);
      }
    }
  }

  // ----- the readers again

  /** n_readers is 1 and the head of the chain is this thread's: it is the sole reader. */
  lemma SoleReader(s: State, t: nat)
    requires WriterInv(s) && ReaderInv(s) && ChainInv(s) && t < |s.threads| && s.threads[t].process < |s.m.processes|
    requires s.threads[t].pc.TestReaders? || s.threads[t].pc.TestChain?
    ensures StepTest(s.threads[t], s.m, t).pc.SetWriter? ==> s.m.readers == |s.threads[t].held|
  {
    hide WriterInv;
    HoldsSome(s.threads, t);
    assert ReaderFits(s, t);
    var chain := s.m.processes[s.threads[t].process].chain;
    if s.threads[t].pc.TestChain? && chain != [] && chain[0].owner == t {
      ChainKnown(s, t, chain[0]);
      assert chain[0] in multiset(chain);
      assert chain[0].k in s.threads[t].held;
    }
  }

  lemma TestKeepsReaders(s: State, t: nat)
    requires WriterInv(s) && ReaderInv(s) && ChainInv(s) && t < |s.threads| && s.threads[t].process < |s.m.processes|
    requires s.threads[t].pc.TestReaders? || s.threads[t].pc.TestChain?
    ensures ReaderInv(State(s.threads[t := StepTest(s.threads[t], s.m, t)], s.m))
  {
    assert WriterFits(s, t);
    assert ReaderFits(s, t);
    hide WriterInv, ReaderInv, ChainInv;
    SoleReader(s, t);
    ReaderFrame(s, t, StepTest(s.threads[t], s.m, t), s.m);
  }

  lemma SetWriterKeepsReaders(s: State, t: nat)
    requires ReaderInv(s) && t < |s.threads| && s.threads[t].pc == SetWriter
    ensures ReaderInv(State(s.threads[t := To(s.threads[t], SetNested)], s.m.(writers := 1, writer := Some(t))))
  {
    var u := State(s.threads[t := To(s.threads[t], SetNested)], s.m.(writers := 1, writer := Some(t)));
    assert ReaderFits(s, t);
    TotalMoved(s.threads, t, To(s.threads[t], SetNested));
    forall i | 0 <= i < |u.threads|
      ensures ReaderFits(u, i)
    {
      assert ReaderFits(s, i);
      if i != t {
        HoldsAll(s.threads, t, i);
      }
    }
  }

  /** The two stores to n_readers. */
  lemma StoreKeepsReaders(s: State, t: nat)
    requires SectionInv(s) && WriterInv(s) && ReaderInv(s)
    requires t < |s.threads| && s.threads[t].process < |s.m.processes|
    requires s.threads[t].pc.JoinStore? || s.threads[t].pc.DropStore?
    ensures var (th, m) := ThreadStep(s.threads[t], s.m, t, Go); ReaderInv(State(s.threads[t := th], m))
  {
    assert ReaderFits(s, t);
    hide SectionInv, WriterInv, ReaderInv;
    var (th, m) := ThreadStep(s.threads[t], s.m, t, Go);
    ReaderCounts(s, t, th, m);
  }

  lemma StepKeepsReaders(s: State, t: nat, c: Choice)
    requires SectionInv(s) && WriterInv(s) && ReaderInv(s) && ChainInv(s)
    ensures ReaderInv(Step(s, t, c))
  {
    if t < |s.threads| && s.threads[t].process < |s.m.processes| {
      assert WriterFits(s, t);
      assert ReaderFits(s, t);
      hide SectionInv, WriterInv, ReaderInv, ChainInv, HeldFits, PlaceFits;
      var pc := s.threads[t].pc;
      if pc.JoinStore? || pc.DropStore? {
        StoreKeepsReaders(s, t);
      } else if pc.TestReaders? || pc.TestChain? {
        TestKeepsReaders(s, t);
      } else if pc.SetWriter? {
        SetWriterKeepsReaders(s, t);
      } else if pc.ClearWriter? {
        ClearKeepsReaders(s, t);
      } else {
        OthersKeepReaders(s.threads[t], s.m, t, c);
        OthersKeepHeld(s.threads[t], s.m, t, c);
        var (th, m) := ThreadStep(s.threads[t], s.m, t, c);
        ReaderFrame(s, t, th, m);
      }
    }
  }

  lemma ClearKeepsReaders(s: State, t: nat)
    requires ReaderInv(s) && t < |s.threads| && s.threads[t].process < |s.m.processes| && s.threads[t].pc == ClearWriter
    ensures var (th, m) := StepYield(s.threads[t], s.m, t); ReaderInv(State(s.threads[t := th], m))
  {
    hide ReaderInv;
    var (th, m) := StepYield(s.threads[t], s.m, t);
    ReaderFrame(s, t, th, m);
  }

  // ----- the waiters

  predicate Taken(m: Machine) {
    m.writers != 0 || m.readers > 0
  }

  /** unlock at work on the waiters. */
  predicate Busy(pc: Pc) {
    GroupOf(pc) == Waking
  }

  /** What a thread's place says of n_waiters, hEvent and the lock. */
  predicate WaitFits(pc: Pc, m: Machine) {
    && (pc.ResetEvent? || pc.SetWake? || pc.DrainWait? || pc.DrainCount? ==> m.waiters > 0)
    && (pc.DrainWait? || pc.DrainCount? ==> m.hEvent)
    && (pc.CountWaiter? ==> Taken(m))
  }

  /** While n_waiters is positive hEvent is reset and the lock is taken, unless the thread in
      the critical section is at work on just that. */
  predicate Settled(pc: Pc, m: Machine) {
    && (m.waiters > 0 && m.hEvent ==> Busy(pc) || pc.ResetEvent?)
    && (m.waiters > 0 && !Taken(m) ==> Busy(pc))
  }

  /** n_waiters counts the waiters and the credits. */
  ghost predicate WaitInv(s: State) {
    && s.m.waiters == Count(Owed, s.threads) + s.m.hSemaphore
    && (forall i :: 0 <= i < |s.threads| ==> WaitFits(s.threads[i].pc, s.m))
    && (if s.m.token.Held? then s.m.token.t < |s.threads| && Settled(s.threads[s.m.token.t].pc, s.m)
        else Settled(Idle, s.m))
  }

  lemma OutsideWaits(pc: Pc, m: Machine)
    ensures !Inside(pc) ==> WaitFits(pc, m)
  {
  }

  /** What a step does to the balance of n_waiters, threads owing and credits. */
  function Balance(th: Thread, m: Machine): int {
    m.waiters - m.hSemaphore - One(Is(Owed, th))
  }

  /** Steps of the thread in the critical section. */
  lemma InsideFrame(s: State, t: nat, th: Thread, m: Machine)
    requires SectionInv(s) && WaitInv(s) && t < |s.threads| && Inside(s.threads[t].pc)
    requires Balance(th, m) == Balance(s.threads[t], s.m) && WaitFits(th.pc, m)
    requires if m.token.Held? then m.token == Held(t) && Settled(th.pc, m) else Settled(Idle, m)
    ensures WaitInv(State(s.threads[t := th], m))
  {
    hide Inside, Settled, WaitFits, Is;
    CountMoved(Owed, s.threads, t, th);
    var u := State(s.threads[t := th], m);
    forall i | 0 <= i < |u.threads|
      ensures WaitFits(u.threads[i].pc, m)
    {
      if i != t {
        OutsideWaits(s.threads[i].pc, m);
      }
    }
  }

  function WaitWords(m: Machine): (int, bool, bool, Token) {
    (m.waiters, m.hEvent, m.writers != 0, m.token)
  }

  /** Steps of a thread outside it. */
  lemma OutsideFrame(s: State, t: nat, th: Thread, m: Machine)
    requires SectionInv(s) && WaitInv(s) && t < |s.threads| && !Inside(s.threads[t].pc) && !Inside(th.pc)
    requires Balance(th, m) == Balance(s.threads[t], s.m)
    requires WaitWords(m) == WaitWords(s.m) && m.readers >= s.m.readers
    ensures WaitInv(State(s.threads[t := th], m))
  {
    hide Inside, Is;
    CountMoved(Owed, s.threads, t, th);
    OutsideWaits(th.pc, m);
    if s.m.token.Held? {
      assert s.m.token.t != t;
    }
  }

  /** Entering: the section was free, so the lock is taken if anybody waits. */
  lemma EnterFrame(s: State, t: nat, th: Thread, m: Machine)
    requires WaitInv(s) && t < |s.threads| && !s.m.token.Held? && m.token == Held(t)
    requires Balance(th, m) == Balance(s.threads[t], s.m)
    requires (m.waiters, m.hEvent, Taken(m)) == (s.m.waiters, s.m.hEvent, Taken(s.m))
    requires !th.pc.ResetEvent? && !th.pc.CountWaiter? && !Busy(th.pc)
    ensures WaitInv(State(s.threads[t := th], m))
  {
    hide Is;
    CountMoved(Owed, s.threads, t, th);
  }

  /** What the waiters are left with by a step of thread t from the critical section. */
  ghost predicate LeftFine(th: Thread, m: Machine, th': Thread, m': Machine, t: nat) {
    && Balance(th', m') == Balance(th, m)
    && WaitFits(th'.pc, m')
    && if m'.token.Held? then m'.token == Held(t) && Settled(th'.pc, m') else Settled(Idle, m')
  }

  lemma HandshakeStep(th: Thread, m: Machine, t: nat, c: Choice)
    requires Inside(th.pc) && m.token == Held(t) && m.waiters >= 0 && WaitFits(th.pc, m) && Settled(th.pc, m)
    ensures var (th', m') := StepWait(th, m, c);
            GroupOf(th.pc) == Waiting ==> LeftFine(th, m, th', m', t)
    ensures var (th', m') := StepWake(th, m);
            GroupOf(th.pc) == Waking ==> LeftFine(th, m, th', m', t)
  {
  }

  lemma TestingStep(th: Thread, m: Machine, t: nat)
    requires th.process < |m.processes| && GroupOf(th.pc) == Testing
    requires m.token == Held(t) && m.waiters >= 0 && m.readers >= 0
    requires Settled(th.pc, m) && HeldFits(th, m.readers) && PlaceFits(th, m.writer.Some?)
    ensures LeftFine(th, m, StepTest(th, m, t), m, t)
  {
  }

  lemma SharingStep(th: Thread, m: Machine, t: nat)
    requires th.process < |m.processes| && Inside(th.pc) && m.token == Held(t) && m.readers >= 0
    requires Settled(th.pc, m) && HeldFits(th, m.readers)
    ensures GroupOf(th.pc) == Joining ==> var (th', m') := StepJoin(th, m, t); LeftFine(th, m, th', m', t)
    ensures GroupOf(th.pc) == Dropping ==> var (th', m') := StepDrop(th, m, t); LeftFine(th, m, th', m', t)
  {
  }

  lemma OwningStep(th: Thread, m: Machine, t: nat)
    requires th.process < |m.processes| && Inside(th.pc) && m.token == Held(t) && Settled(th.pc, m)
    ensures GroupOf(th.pc) == Owning ==> var (th', m') := StepOwn(th, m, t); LeftFine(th, m, th', m', t)
    ensures GroupOf(th.pc) == Yielding ==> var (th', m') := StepYield(th, m, t); LeftFine(th, m, th', m', t)
    ensures GroupOf(th.pc) == Sectioning ==> var (th', m') := StepSection(th, m, t); LeftFine(th, m, th', m', t)
  {
  }

  /** One step of the thread in the critical section, up to leaving it. */
  lemma InsideStep(th: Thread, m: Machine, t: nat, c: Choice)
    requires th.process < |m.processes| && Inside(th.pc) && m.token == Held(t) && m.waiters >= 0 && m.readers >= 0
    requires WaitFits(th.pc, m) && Settled(th.pc, m) && HeldFits(th, m.readers) && PlaceFits(th, m.writer.Some?)
    ensures var (th', m') := ThreadStep(th, m, t, c); LeftFine(th, m, th', m', t)
  {
    hide LeftFine, HeldFits, PlaceFits, WaitFits, Settled;
    hide StepCall, StepSection, StepJoin, StepDrop, StepOwn, StepYield, StepTest, StepWait, StepWake;
    match GroupOf(th.pc) {
      case Waiting => HandshakeStep(th, m, t, c);
      case Waking => HandshakeStep(th, m, t, c);
      case Testing => TestingStep(th, m, t);
      case Joining => SharingStep(th, m, t);
      case Dropping => SharingStep(th, m, t);
      case _ => OwningStep(th, m, t);
    }
  }

  /** Steps outside the critical section that do not enter it. */
  lemma OutsideStep(th: Thread, m: Machine, t: nat, c: Choice)
    requires th.process < |m.processes| && !Inside(th.pc) && !Inside(ThreadStep(th, m, t, c).0.pc) && !th.pc.SignalCs?
    requires HeldFits(th, m.readers) && m.readers >= 0
    ensures var (th', m') := ThreadStep(th, m, t, c);
            Balance(th', m') == Balance(th, m) && WaitWords(m') == WaitWords(m) && m'.readers >= m.readers
  {
  }

  /** The steps of the critical section's own protocol, seen from the waiters. */
  lemma EnterStep(s: State, t: nat)
    requires SectionInv(s) && WaitInv(s) && t < |s.threads| && GroupOf(s.threads[t].pc) == Sectioning
             && !s.threads[t].pc.Leave?
    ensures var (th, m) := StepSection(s.threads[t], s.m, t); WaitInv(State(s.threads[t := th], m))
  {
    var (th, m) := StepSection(s.threads[t], s.m, t);
    if m.token == Held(t) {
      EnterFrame(s, t, th, m);
    } else {
      hide Is;
      QuietFrame(s, t, th, m);
    }
  }

  lemma QuietFrame(s: State, t: nat, th: Thread, m: Machine)
    requires SectionInv(s) && WaitInv(s) && t < |s.threads| && !Inside(s.threads[t].pc) && !Inside(th.pc)
    requires Balance(th, m) == Balance(s.threads[t], s.m)
    requires (m.waiters, m.hEvent, m.writers, m.readers) == (s.m.waiters, s.m.hEvent, s.m.writers, s.m.readers)
    requires m.token == s.m.token || (!m.token.Held? && !s.m.token.Held?)
    ensures WaitInv(State(s.threads[t := th], m))
  {
    hide Is, Inside;
    CountMoved(Owed, s.threads, t, th);
    OutsideWaits(th.pc, m);
    if s.m.token.Held? {
      assert s.m.token.t != t;
    }
  }

  lemma StepKeepsWait(s: State, t: nat, c: Choice)
    requires SectionInv(s) && WriterInv(s) && ReaderInv(s) && WaitInv(s)
    ensures WaitInv(Step(s, t, c))
  {
    if t < |s.threads| && s.threads[t].process < |s.m.processes| {
      assert WriterFits(s, t);
      assert ReaderFits(s, t);
      hide WriterInv, ReaderInv, HeldFits, PlaceFits;
      var (th, m) := ThreadStep(s.threads[t], s.m, t, c);
      if Inside(s.threads[t].pc) {
        InsideStep(s.threads[t], s.m, t, c);
        InsideFrame(s, t, th, m);
      } else if GroupOf(s.threads[t].pc) == Sectioning {
        EnterStep(s, t);
      } else {
        OutsideStep(s.threads[t], s.m, t, c);
        OutsideFrame(s, t, th, m);
      }
    }
  }

  // ----- every run

  ghost predicate LockInv(s: State) {
    SectionInv(s) && WriterInv(s) && ReaderInv(s) && ChainInv(s) && WaitInv(s) && s.m.faults == 0
  }

  /** The checks in lock and unlock never fail. */
  lemma StepReportsNothing(s: State, t: nat, c: Choice)
    requires WriterInv(s) && ReaderInv(s) && ChainInv(s)
    ensures Step(s, t, c).m.faults == s.m.faults
  {
    if t < |s.threads| && s.threads[t].process < |s.m.processes| {
      assert WriterFits(s, t);
      assert ReaderFits(s, t);
      if s.threads[t].pc.UnlinkLoad? {
        hide WriterInv, ReaderInv;
        UnlinkFinds(s, t);
      } else {
        hide WriterInv, ReaderInv, ChainInv;
        OthersReportNothing(s.threads[t], s.m, t, c);
      }
    }
  }

  lemma UnlinkFinds(s: State, t: nat)
    requires ReaderInv(s) && ChainInv(s) && t < |s.threads| && s.threads[t].process < |s.m.processes|
    requires s.threads[t].pc.UnlinkLoad?
    ensures s.m.readers > 0 && Desc(t, s.threads[t].pc.k) in s.m.processes[s.threads[t].process].chain
  {
    var d := Desc(t, s.threads[t].pc.k);
    assert ReaderFits(s, t);
    ChainKnown(s, t, d);
    HoldsSome(s.threads, t);
    assert d in multiset(s.m.processes[s.threads[t].process].chain);
  }

  lemma OthersReportNothing(th: Thread, m: Machine, t: nat, c: Choice)
    requires th.process < |m.processes| && !th.pc.UnlinkLoad? && PlaceFits(th, m.writer.Some?)
    requires m.writers == One(m.writer.Some?) && (m.writer == Some(t) <==> IsWriter(th))
    requires m.processes[th.process].owner == Some(t) <==> OwnsIt(th)
    requires th.excl > 0 ==> m.processes[th.process].nested == th.excl
    ensures ThreadStep(th, m, t, c).1.faults == m.faults
  {
    if GroupOf(th.pc) == Owning || GroupOf(th.pc) == Yielding {
      hide StepSection, StepJoin, StepDrop, StepTest, StepWait, StepWake;
    } else {
      hide StepOwn, StepYield;
    }
  }

  lemma StartKeepsAll(home: seq<nat>, n: nat)
    requires forall i :: 0 <= i < |home| ==> home[i] < n
    ensures LockInv(Start(home, n))
  {
    var s := Start(home, n);
    NothingAtStart(home, n);
    forall i | 0 <= i < |s.threads|
      ensures WriterFits(s, i) && ReaderFits(s, i)
    {
    }
    forall p | 0 <= p < |s.m.processes|
      ensures ChainFits(s, p)
    {
    }
  }

  lemma {:induction false} NothingAtStart(home: seq<nat>, n: nat)
    ensures Count(Queued, Start(home, n).threads) == 0 && Count(Owed, Start(home, n).threads) == 0
    ensures TotalHeld(Start(home, n).threads) == 0
    decreases |home|
  {
    if home != [] {
      assert Start(home, n).threads[1..] == Start(home[1..], n).threads;
      NothingAtStart(home[1..], n);
    }
  }

  /** In every interleaving of lock and unlock calls all of this holds. */
  lemma {:induction false} RunsKeepAll(home: seq<nat>, n: nat, steps: seq<(nat, Choice)>)
    requires forall i :: 0 <= i < |home| ==> home[i] < n
    ensures LockInv(Run(home, n, steps))
    decreases |steps|
  {
    if steps == [] {
      StartKeepsAll(home, n);
    } else {
      var k := |steps| - 1;
      RunsKeepAll(home, n, steps[..k]);
      StepKeepsAll(Run(home, n, steps[..k]), steps[k].0, steps[k].1);
    }
  }

  lemma StepKeepsAll(s: State, t: nat, c: Choice)
    requires LockInv(s)
    ensures LockInv(Step(s, t, c))
  {
    hide SectionInv, WriterInv, ReaderInv, ChainInv, WaitInv, Step;
    StepKeepsSection(s, t, c);
    StepKeepsWriter(s, t, c);
    StepKeepsReaders(s, t, c);
    StepKeepsChain(s, t, c);
    StepKeepsWait(s, t, c);
    StepReportsNothing(s, t, c);
  }

  // ----- what it means

  /** At most one thread is in the critical section. */
  lemma OneInside(home: seq<nat>, n: nat, steps: seq<(nat, Choice)>, i: nat, j: nat)
    requires forall x :: 0 <= x < |home| ==> home[x] < n
    requires var s := Run(home, n, steps);
             i < |s.threads| && j < |s.threads| && Inside(s.threads[i].pc) && Inside(s.threads[j].pc)
    ensures i == j
  {
    RunsKeepAll(home, n, steps);
  }

  /** n_writers is 0 or 1, n_readers is the number of shared descriptors held, and a thread
      that holds the lock exclusively is the only one that holds it at all. */
  lemma LockExcludes(home: seq<nat>, n: nat, steps: seq<(nat, Choice)>)
    requires forall x :: 0 <= x < |home| ==> home[x] < n
    ensures var s := Run(home, n, steps);
            && (s.m.writers == 0 || s.m.writers == 1)
            && s.m.readers == TotalHeld(s.threads)
            && s.m.faults == 0
            && forall i, j :: 0 <= i < |s.threads| && 0 <= j < |s.threads| && i != j && s.threads[i].excl > 0 ==>
                 s.m.writers == 1 && s.threads[j].excl == 0 && s.threads[j].held == {}
  {
    RunsKeepAll(home, n, steps);
    var s := Run(home, n, steps);
    forall i, j | 0 <= i < |s.threads| && 0 <= j < |s.threads| && i != j && s.threads[i].excl > 0
      ensures s.m.writers == 1 && s.threads[j].excl == 0 && s.threads[j].held == {}
    {
      assert WriterFits(s, i) && WriterFits(s, j);
      assert ReaderFits(s, j);
    }
  }

  /** The fast path of lock is taken exactly by a thread that holds the lock exclusively. */
  lemma FastPathIsOwners(home: seq<nat>, n: nat, steps: seq<(nat, Choice)>, i: nat)
    requires forall x :: 0 <= x < |home| ==> home[x] < n
    requires var s := Run(home, n, steps); i < |s.threads| && s.threads[i].pc.TestOwner?
    ensures var s := Run(home, n, steps);
            s.threads[i].process < |s.m.processes|
            && (s.m.processes[s.threads[i].process].owner == Some(i) <==> s.threads[i].excl > 0)
  {
    RunsKeepAll(home, n, steps);
    assert WriterFits(Run(home, n, steps), i);
  }

  /** With nobody in the critical section, n_waiters is the number of waiters plus the unused
      credits; if it is positive hEvent is reset and the lock is taken, so that the unlock
      that will wake the waiters is still to come. */
  lemma WaitersCounted(home: seq<nat>, n: nat, steps: seq<(nat, Choice)>)
    requires forall x :: 0 <= x < |home| ==> home[x] < n
    requires forall i :: 0 <= i < |Run(home, n, steps).threads| ==> !Inside(Run(home, n, steps).threads[i].pc)
    ensures var s := Run(home, n, steps);
            && s.m.waiters == Count(Owed, s.threads) + s.m.hSemaphore
            && (s.m.waiters > 0 ==> !s.m.hEvent && (s.m.writers != 0 || s.m.readers > 0))
  {
    RunsKeepAll(home, n, steps);
  }

  // ----- the drain loop of unlock

  predicate Draining(s: State, t: nat) {
    t < |s.threads| && (s.threads[t].pc.DrainWait? || s.threads[t].pc.DrainCount?)
  }

  /** The drain loop of thread t is over, and nothing is left of the waiters it woke. */
  predicate Drained(s: State, t: nat) {
    && t < |s.threads| && s.threads[t].pc == Leave(Return)
    && s.m.waiters == 0 && Count(Owed, s.threads) == 0 && s.m.hSemaphore == 0
  }

  /** The steps that a waiter has to take until it has given its credit. */
  function Way(pc: Pc): nat {
    if pc.AwaitEvent? then 2 else if pc.PostCredit? then 1 else 0
  }

  function TotalWay(threads: seq<Thread>): nat {
    if threads == [] then 0 else Way(threads[0].pc) + TotalWay(threads[1..])
  }

  lemma {:induction false} WayMoved(threads: seq<Thread>, t: nat, th: Thread)
    requires t < |threads|
    ensures TotalWay(threads[t := th]) + Way(threads[t].pc) == TotalWay(threads) + Way(th.pc)
  {
    if t == 0 {
      assert threads[0 := th][1..] == threads[1..];
    } else {
      assert threads[t := th][1..] == threads[1..][t - 1 := th];
      WayMoved(threads[1..], t - 1, th);
    }
  }

  /** The steps that are left of the drain loop of thread t: those of the waiters, and two for
      each credit. */
  function Rank(s: State, t: nat): int
    requires t < |s.threads|
  {
    TotalWay(s.threads) + 2 * s.m.waiters - One(s.threads[t].pc.DrainCount?)
  }

  /** Thread i is one that the drain loop waits for, or the loop itself if it need not wait. */
  predicate Working(s: State, t: nat, i: nat)
    requires t < |s.threads|
  {
    i < |s.threads| &&
    if i == t then s.threads[t].pc.DrainCount? || s.m.hSemaphore > 0 else Way(s.threads[i].pc) > 0
  }

  lemma DrainingHolds(s: State, t: nat, i: nat)
    requires LockInv(s) && Draining(s, t) && i < |s.threads|
    ensures s.m.token == Held(t) && s.m.waiters > 0 && s.m.hEvent
    ensures i != t ==> !Inside(s.threads[i].pc) && !s.threads[i].pc.SignalCs?
    ensures s.threads[i].process < |s.m.processes|
  {
    assert WriterFits(s, i);
    assert WaitFits(s.threads[t].pc, s.m);
  }

  /** A thread outside the critical section gets no farther from its credit, and nearer to it
      if it owes one. */
  lemma OutsideWay(th: Thread, m: Machine, i: nat, c: Choice)
    requires !Inside(th.pc) && !th.pc.SignalCs? && th.process < |m.processes| && m.hEvent
    ensures var (th', m') := ThreadStep(th, m, i, c);
            && m'.waiters == m.waiters
            && Way(th'.pc) <= Way(th.pc) && (Way(th.pc) > 0 ==> Way(th'.pc) < Way(th.pc))
  {
  }

  lemma OwnRank(s: State, t: nat, c: Choice)
    requires WaitInv(s) && SectionInv(s) && Draining(s, t) && s.threads[t].process < |s.m.processes|
    requires WaitInv(Step(s, t, c))
    ensures var u := Step(s, t, c);
            if Draining(u, t) then Rank(u, t) <= Rank(s, t) && (Working(s, t, t) ==> Rank(u, t) < Rank(s, t))
            else Drained(u, t)
  {
    var (th, m) := StepWake(s.threads[t], s.m);
    assert WaitFits(s.threads[t].pc, s.m);
    WayMoved(s.threads, t, th);
  }

  lemma OthersRank(s: State, t: nat, i: nat, c: Choice)
    requires Draining(s, t) && i < |s.threads| && i != t && s.threads[i].process < |s.m.processes|
    requires !Inside(s.threads[i].pc) && !s.threads[i].pc.SignalCs? && s.m.hEvent
    ensures var u := Step(s, i, c);
            Draining(u, t) && Rank(u, t) <= Rank(s, t) && (Working(s, t, i) ==> Rank(u, t) < Rank(s, t))
  {
    hide Inside, ThreadStep, Way;
    var (th, m) := ThreadStep(s.threads[i], s.m, i, c);
    OutsideWay(s.threads[i], s.m, i, c);
    WayMoved(s.threads, i, th);
  }

  /** While the loop goes on no step of any thread raises the rank, and every step of a thread
      that works for it lowers it; when the loop ends nothing is left. */
  lemma RankFalls(s: State, t: nat, i: nat, c: Choice)
    requires LockInv(s) && Draining(s, t)
    ensures var u := Step(s, i, c);
            if Draining(u, t) then Rank(u, t) <= Rank(s, t) && (Working(s, t, i) ==> Rank(u, t) < Rank(s, t))
            else Drained(u, t)
  {
    if i < |s.threads| {
      DrainingHolds(s, t, i);
      StepKeepsAll(s, i, c);
      hide SectionInv, WriterInv, ReaderInv, ChainInv, WaitInv, Step, Rank, Drained;
      if i == t {
        OwnRank(s, t, c);
      } else {
        OthersRank(s, t, i, c);
      }
    }
  }

  /** Until the loop ends some thread works for it. */
  lemma SomeoneWorks(s: State, t: nat) returns (i: nat)
    requires LockInv(s) && Draining(s, t)
    ensures Working(s, t, i) && Rank(s, t) > 0
  {
    i := t;
    DrainingHolds(s, t, t);
    if !Working(s, t, t) {
      CountPositive(Owed, s.threads);
      i :| 0 <= i < |s.threads| && Is(Owed, s.threads[i]);
      DrainingHolds(s, t, i);
      hide LockInv;
    }
  }

  /** In every run: while unlock drains, some thread works for it; whatever step is taken, the
      rank does not rise, and falls if that thread took it. So under every schedule that lets
      the threads it waits for run, the loop ends, after as many of their steps as its rank. */
  lemma DrainGoesOn(home: seq<nat>, n: nat, steps: seq<(nat, Choice)>, t: nat)
    requires forall x :: 0 <= x < |home| ==> home[x] < n
    requires Draining(Run(home, n, steps), t)
    ensures var s := Run(home, n, steps);
            && (exists i :: Working(s, t, i))
            && forall i, c :: var u := Step(s, i, c);
                 if Draining(u, t) then
                   0 < Rank(u, t) <= Rank(s, t) && (Working(s, t, i) ==> Rank(u, t) < Rank(s, t))
                 else Drained(u, t)
  {
    RunsKeepAll(home, n, steps);
    var s := Run(home, n, steps);
    var someone := SomeoneWorks(s, t);
    forall i, c
      ensures var u := Step(s, i, c);
              if Draining(u, t) then
                0 < Rank(u, t) <= Rank(s, t) && (Working(s, t, i) ==> Rank(u, t) < Rank(s, t))
              else Drained(u, t)
    {
      hide LockInv, Step, Rank, Working, Run;
      RankFalls(s, t, i, c);
      StepKeepsAll(s, i, c);
      if Draining(Step(s, i, c), t) {
        var other := SomeoneWorks(Step(s, i, c), t);
      }
    }
  }

  lemma RunOn(home: seq<nat>, n: nat, steps: seq<(nat, Choice)>, i: nat, c: Choice)
    ensures Run(home, n, steps + [(i, c)]) == Step(Run(home, n, steps), i, c)
  {
    assert (steps + [(i, c)])[..|steps|] == steps;
  }

  /** From every point of the drain loop the run can go on to its end. */
  lemma {:induction false} DrainEnds(home: seq<nat>, n: nat, steps: seq<(nat, Choice)>, t: nat)
    requires forall x :: 0 <= x < |home| ==> home[x] < n
    requires Draining(Run(home, n, steps), t)
    ensures exists rest ::
              |rest| <= Rank(Run(home, n, steps), t) && Drained(Run(home, n, steps + rest), t)
    decreases Rank(Run(home, n, steps), t)
  {
    hide Run, Step, Rank, Drained, LockInv, Working;
    var s := Run(home, n, steps);
    RunsKeepAll(home, n, steps);
    var i := SomeoneWorks(s, t);
    RankFalls(s, t, i, Go);
    RunOn(home, n, steps, i, Go);
    var next := [(i, Go)];
    if Draining(Run(home, n, steps + next), t) {
      DrainEnds(home, n, steps + next, t);
      var rest :| |rest| <= Rank(Run(home, n, steps + next), t) && Drained(Run(home, n, steps + next + rest), t);
      assert steps + (next + rest) == steps + next + rest;
      assert |next + rest| <= Rank(s, t);
    } else {
      assert |next| <= Rank(s, t) && Drained(Run(home, n, steps + next), t);
    }
  }

  // ----- what callers see

  /** What a caller may expect to hold once its present call has returned, as far as that is
      decided, and the call of lock that is not decided yet. */
  datatype Client = Client(held: set<int>, excl: nat, call: Option<Call>)

  /** A lock of this mode can be granted to thread t: no other thread is the writer, and for an
      exclusive lock no shared descriptor is held but a single one of its own. A thread is the
      writer as long as it has an exclusive lock and until unlock has given it up. */
  ghost predicate Compatible(s: State, t: nat, mode: Mode)
    requires t < |s.threads|
  {
    && (forall j :: 0 <= j < |s.threads| && j != t ==> !IsWriter(s.threads[j]))
    && (mode == Exclusive ==>
          |s.threads[t].held| <= 1 && forall j :: 0 <= j < |s.threads| && j != t ==> s.threads[j].held == {})
  }

  function Granted(cl: Client, c: Call): Client {
    if c.mode == Exclusive then Client(cl.held, cl.excl + 1, None) else Client(cl.held + {c.k}, cl.excl, None)
  }

  function Released(cl: Client, c: Call): Client {
    if c.mode == Exclusive then cl.(excl := if cl.excl > 0 then cl.excl - 1 else 0) else cl.(held := cl.held - {c.k})
  }

  /** How a lock would answer that decided at once: unlock gives up a lock; lock is granted on
      the spot to a thread that has the lock exclusively, and otherwise in the critical section
      if it is compatible; if it is not, a call that does not wait, or no longer, is refused. */
  ghost function Answer(s: State, cl: Client, t: nat, c: Choice): Client
    requires t < |s.threads|
  {
    var th := s.threads[t];
    if th.pc.TestWriter? then TestAnswer(cl, th.pc.c, Compatible(s, t, th.pc.c.mode)) else PlainAnswer(th, cl, c)
  }

  function TestAnswer(cl: Client, c: Call, ok: bool): Client {
    if ok then Granted(cl, c) else if c.LockCall? && c.wait then cl else cl.(call := None)
  }

  function PlainAnswer(th: Thread, cl: Client, c: Choice): Client {
    match th.pc
    case Idle =>
      if !c.Do? || !Allowed(th, c.c) then cl
      else if c.c.LockCall? then cl.(call := Some(c.c))
      else Released(cl, c.c)
    case TestOwner(call) => if cl.excl > 0 then Granted(cl, call) else cl
    case AwaitEvent(call) => if c.Timeout? && call.LockCall? then cl.(call := Some(call.(wait := false))) else cl
    case _ => cl
  }

  /** The answers to all calls of a run. */
  ghost function Clients(home: seq<nat>, n: nat, steps: seq<(nat, Choice)>): (cls: seq<Client>)
    ensures |cls| == |home| == |Run(home, n, steps).threads|
    decreases |steps|
  {
    if steps == [] then seq(|home|, _ => Client({}, 0, None))
    else
      var front, (t, c) := steps[..|steps| - 1], steps[|steps| - 1];
      var cls := Clients(home, n, front);
      if t >= |cls| then cls else cls[t := Answer(Run(home, n, front), cls[t], t, c)]
  }

  /** The descriptors that a thread will hold when its call has returned. */
  function HeldThen(th: Thread): set<int> {
    match th.pc
    case JoinLoad(k, _) => th.held + {k}
    case JoinStore(k, _, _) => th.held + {k}
    case UnlinkLoad(k) => th.held - {k}
    case UnlinkStore(k, _) => th.held - {k}
    case DropLoad(k) => th.held - {k}
    case DropStore(k, _) => th.held - {k}
    case Enter(c) => if c.UnlockCall? && c.mode == Shared then th.held - {c.k} else th.held
    case EnterWait(c) => if c.UnlockCall? && c.mode == Shared then th.held - {c.k} else th.held
    case _ => th.held
  }

  /** The exclusive locks; ok is whether an exclusive lock is compatible. */
  function ExclThen(th: Thread, ok: bool): nat {
    match th.pc
    case Nest => th.excl + 1
    case SetWriter | SetNested => 1
    case Unnest => if th.excl > 0 then th.excl - 1 else 0
    case TestReaders(_) | TestChain(_) => if ok then 1 else th.excl
    case _ => th.excl
  }

  function LockOnly(c: Call): Option<Call> {
    if c.LockCall? then Some(c) else None
  }

  /** The call of lock that a thread is in the middle of. */
  function CallThen(th: Thread, ok: bool): Option<Call> {
    match th.pc
    case TestOwner(c) => LockOnly(c)
    case Enter(c) => LockOnly(c)
    case EnterWait(c) => LockOnly(c)
    case TestWriter(c) => LockOnly(c)
    case TestReaders(c) => if !ok && c.LockCall? && c.wait then Some(c) else None
    case TestChain(c) => if !ok && c.LockCall? && c.wait then Some(c) else None
    case CountWaiter(c) => LockOnly(c)
    case ResetEvent(c) => LockOnly(c)
    case AwaitEvent(c) => LockOnly(c)
    case PostCredit(c) => LockOnly(c)
    case Leave(a) => if a.Retry? then LockOnly(a.c) else None
    case SignalCs(a) => if a.Retry? then LockOnly(a.c) else None
    case _ => None
  }

  ghost function Promise(s: State, i: nat): Client
    requires i < |s.threads|
  {
    PromiseOf(s.threads[i], Compatible(s, i, Exclusive))
  }

  /** The writer, and who passes the critical section on, are threads of the run. */
  ghost predicate Known(s: State) {
    && (s.m.writer.Some? ==> s.m.writer.value < |s.threads|)
    && (s.m.token.Signalling? ==> s.m.token.t < |s.threads|)
  }

  lemma WriterAndToken(th: Thread, m: Machine, t: nat, c: Choice)
    requires th.process < |m.processes|
    ensures var m' := ThreadStep(th, m, t, c).1;
            && m'.writer in {m.writer, None, Some(t)}
            && (m'.token.Signalling? ==> m'.token == m.token || m'.token.t == t)
  {
  }

  lemma StepKeepsKnown(s: State, t: nat, c: Choice)
    requires Known(s)
    ensures Known(Step(s, t, c)) && |Step(s, t, c).threads| == |s.threads|
  {
    hide ThreadStep;
    if t < |s.threads| && s.threads[t].process < |s.m.processes| {
      WriterAndToken(s.threads[t], s.m, t, c);
    }
  }

  /** n_writers is not 0 exactly if some other thread is the writer. */
  lemma WriterDecides(s: State, t: nat)
    requires WriterInv(s) && Known(s) && t < |s.threads| && s.threads[t].pc.TestWriter?
    ensures s.m.writers == 0 <==> forall j :: 0 <= j < |s.threads| && j != t ==> !IsWriter(s.threads[j])
  {
    assert WriterFits(s, t);
    if s.m.writer.Some? {
      assert WriterFits(s, s.m.writer.value);
    }
    forall j | 0 <= j < |s.threads| && j != t && s.m.writer == None
      ensures !IsWriter(s.threads[j])
    {
      assert WriterFits(s, j);
    }
  }

  lemma {:induction false} OthersHoldNone(threads: seq<Thread>, t: nat)
    requires t < |threads| && forall j :: 0 <= j < |threads| && j != t ==> threads[j].held == {}
    ensures TotalHeld(threads) == |threads[t].held|
  {
    if t == 0 {
      NoneHeld(threads[1..]);
    } else {
      OthersHoldNone(threads[1..], t - 1);
    }
  }

  lemma {:induction false} NoneHeld(threads: seq<Thread>)
    requires forall j :: 0 <= j < |threads| ==> threads[j].held == {}
    ensures TotalHeld(threads) == 0
  {
    if threads != [] {
      NoneHeld(threads[1..]);
    }
  }

  /** Without a writer, an exclusive lock is compatible if nobody holds a descriptor, and only
      if at most one is held. */
  lemma ReadersDecide(s: State, t: nat)
    requires WriterInv(s) && ReaderInv(s) && t < |s.threads| && s.m.writer == None
    ensures s.m.readers == 0 ==> Compatible(s, t, Exclusive)
    ensures Compatible(s, t, Exclusive) ==> s.m.readers == |s.threads[t].held| <= 1
    ensures s.m.readers == 1 ==> (Compatible(s, t, Exclusive) <==> |s.threads[t].held| == 1)
  {
    forall j | 0 <= j < |s.threads|
      ensures !IsWriter(s.threads[j])
      ensures TotalHeld(s.threads) >= |s.threads[j].held|
      ensures j != t ==> TotalHeld(s.threads) >= |s.threads[t].held| + |s.threads[j].held|
    {
      assert WriterFits(s, j);
      HoldsSome(s.threads, j);
      if j != t {
        HoldsAll(s.threads, t, j);
      }
    }
    if Compatible(s, t, Exclusive) {
      OthersHoldNone(s.threads, t);
    }
  }

  /** With one descriptor held, the chain of the caller's process begins with one of its own
      exactly if it is the holder. */
  lemma ChainDecides(s: State, t: nat)
    requires WriterInv(s) && ReaderInv(s) && ChainInv(s) && t < |s.threads| && s.threads[t].pc.TestChain?
    requires s.threads[t].process < |s.m.processes|
    ensures var chain := s.m.processes[s.threads[t].process].chain;
            Compatible(s, t, Exclusive) <==> chain != [] && chain[0].owner == t
  {
    assert WriterFits(s, t);
    assert ReaderFits(s, t);
    ReadersDecide(s, t);
    SoleReader(s, t);
    if |s.threads[t].held| == 1 {
      HolderIsFirst(s, t);
    }
  }

  lemma HolderIsFirst(s: State, t: nat)
    requires ReaderInv(s) && ChainInv(s) && t < |s.threads| && s.threads[t].pc.TestChain?
    requires |s.threads[t].held| == 1 == s.m.readers
    ensures s.threads[t].process < |s.m.processes|
    ensures var chain := s.m.processes[s.threads[t].process].chain; chain != [] && chain[0].owner == t
  {
    var k := Sets.Pick(s.threads[t].held);
    ChainKnown(s, t, Desc(t, k));
    var chain := s.m.processes[s.threads[t].process].chain;
    assert Desc(t, k) in multiset(chain);
    var d := chain[0];
    ChainKnown(s, t, d);
    assert d in multiset(chain);
    assert d.k in s.threads[d.owner].held;
    if d.owner != t {
      HoldsAll(s.threads, t, d.owner);
    }
  }

  /** Whether a lock is compatible depends on who is the writer and what is held. */
  lemma SameCompatible(s: State, u: State, t: nat, mode: Mode)
    requires t < |s.threads| == |u.threads| && u.threads[t].held == s.threads[t].held
    requires forall j :: 0 <= j < |s.threads| && j != t ==>
               IsWriter(u.threads[j]) == IsWriter(s.threads[j]) && u.threads[j].held == s.threads[j].held
    ensures Compatible(u, t, mode) <==> Compatible(s, t, mode)
  {
    hide IsWriter;
  }

  /** While a thread tests the conditions in the critical section the others do not change them. */
  lemma TestsAreStable(s: State, t: nat, c: Choice, j: nat)
    requires LockInv(s) && t < |s.threads| && j < |s.threads| && j != t && Inside(s.threads[j].pc)
    ensures |Step(s, t, c).threads| == |s.threads|
    ensures Compatible(Step(s, t, c), j, Exclusive) <==> Compatible(s, j, Exclusive)
  {
    assert WriterFits(s, t);
    assert s.m.token == Held(j) && s.m.cs <= 0 && !s.m.hCS;
    assert !Inside(s.threads[t].pc) && !s.threads[t].pc.SignalCs?;
    hide LockInv, SectionInv, WriterInv, ReaderInv, ChainInv, WaitInv;
    OutsideKeeps(s.threads[t], s.m, t, c);
    var u := Step(s, t, c);
    assert u.threads == s.threads[t := ThreadStep(s.threads[t], s.m, t, c).0];
    if IsWriter(s.threads[t]) {
      assert IsWriter(u.threads[t]);
      assert !Compatible(s, j, Exclusive) && !Compatible(u, j, Exclusive);
    } else {
      SameCompatible(s, u, j, Exclusive);
    }
  }

  /** A thread outside the critical section, which is taken, stays the writer if it is, and
      changes what it holds only as the writer. */
  lemma OutsideKeeps(th: Thread, m: Machine, t: nat, c: Choice)
    requires th.process < |m.processes| && !Inside(th.pc) && !th.pc.SignalCs? && PlaceFits(th, m.writer.Some?)
    requires m.cs <= 0 && !m.hCS
    requires th.excl > 0 ==> m.processes[th.process].nested == th.excl
    ensures var th' := ThreadStep(th, m, t, c).0;
            IsWriter(th') == IsWriter(th) && (!IsWriter(th) ==> th'.held == th.held)
  {
  }

  /** A step of another thread changes nothing for this one. */
  lemma OthersPromise(s: State, t: nat, c: Choice, j: nat)
    requires LockInv(s) && t < |s.threads| && j < |s.threads| && j != t
    ensures |Step(s, t, c).threads| == |s.threads| && Promise(Step(s, t, c), j) == Promise(s, j)
  {
    hide LockInv, Compatible, HeldThen;
    assert Step(s, t, c).threads[j] == s.threads[j];
    if s.threads[j].pc.TestReaders? || s.threads[j].pc.TestChain? {
      TestsAreStable(s, t, c, j);
    }
  }

  /** A step of this one keeps the promise, or answers its call. */
  lemma OwnPromise(s: State, t: nat, c: Choice)
    requires LockInv(s) && Known(s) && t < |s.threads|
    ensures |Step(s, t, c).threads| == |s.threads|
    ensures Promise(Step(s, t, c), t) == Answer(s, Promise(s, t), t, c)
  {
    var th := s.threads[t];
    assert WriterFits(s, t);
    assert ReaderFits(s, t);
    if GroupOf(th.pc) == Testing {
      TestAnswers(s, t, c);
    } else {
      assert PlainFits(th, s.m, t);
      hide LockInv, PlainFits, ThreadStep, Compatible, HeldThen, ExclThen, CallThen;
      var u := Step(s, t, c);
      assert u.threads[t] == ThreadStep(th, s.m, t, c).0;
      PlainAnswers(th, s.m, t, c);
      OkIrrelevant(th, Compatible(s, t, Exclusive));
      OkIrrelevant(u.threads[t], Compatible(u, t, Exclusive));
    }
  }

  /** What thread th holds or is promised in its place. */
  function PromiseOf(th: Thread, ok: bool): Client {
    Client(HeldThen(th), ExclThen(th, ok), CallThen(th, ok))
  }

  /** Outside the tests what is promised does not depend on other threads. */
  predicate Answered(th: Thread, th': Thread, c: Choice) {
    && !th'.pc.TestReaders? && !th'.pc.TestChain?
    && PromiseOf(th', true) == PlainAnswer(th, PromiseOf(th, true), c)
  }

  predicate PlainFits(th: Thread, m: Machine, t: nat) {
    && th.process < |m.processes| && GroupOf(th.pc) != Testing
    && PlaceFits(th, m.writer.Some?) && HeldFits(th, m.readers)
    && (th.excl > 0 ==> m.processes[th.process].nested == th.excl)
    && (m.processes[th.process].owner == Some(t) <==> OwnsIt(th))
  }

  lemma PlainAnswers(th: Thread, m: Machine, t: nat, c: Choice)
    requires PlainFits(th, m, t)
    ensures Answered(th, ThreadStep(th, m, t, c).0, c)
  {
    hide Answered, StepCall, StepSection, StepJoin, StepDrop, StepOwn, StepYield, StepWait, StepWake;
    match GroupOf(th.pc) {
      case Calling => CallingAnswers(th, m, t, c);
      case Sectioning => SectioningAnswers(th, m, t, c);
      case Joining => JoiningAnswers(th, m, t, c);
      case Dropping => DroppingAnswers(th, m, t, c);
      case Owning => OwningAnswers(th, m, t, c);
      case Yielding => YieldingAnswers(th, m, t, c);
      case Waiting => WaitingAnswers(th, m, t, c);
      case Waking => WakingAnswers(th, m, t, c);
    }
  }

  lemma OkIrrelevant(th: Thread, ok: bool)
    requires !th.pc.TestReaders? && !th.pc.TestChain?
    ensures PromiseOf(th, ok) == PromiseOf(th, true)
  {
  }

  lemma CallingAnswers(th: Thread, m: Machine, t: nat, c: Choice)
    requires PlainFits(th, m, t) && GroupOf(th.pc) == Calling
    ensures Answered(th, StepCall(th, c), c)
  {
  }

  lemma SectioningAnswers(th: Thread, m: Machine, t: nat, c: Choice)
    requires PlainFits(th, m, t) && GroupOf(th.pc) == Sectioning
    ensures Answered(th, StepSection(th, m, t).0, c)
  {
  }

  lemma JoiningAnswers(th: Thread, m: Machine, t: nat, c: Choice)
    requires PlainFits(th, m, t) && GroupOf(th.pc) == Joining
    ensures Answered(th, StepJoin(th, m, t).0, c)
  {
  }

  lemma DroppingAnswers(th: Thread, m: Machine, t: nat, c: Choice)
    requires PlainFits(th, m, t) && GroupOf(th.pc) == Dropping
    ensures Answered(th, StepDrop(th, m, t).0, c)
  {
  }

  lemma OwningAnswers(th: Thread, m: Machine, t: nat, c: Choice)
    requires PlainFits(th, m, t) && GroupOf(th.pc) == Owning
    ensures Answered(th, StepOwn(th, m, t).0, c)
  {
  }

  lemma YieldingAnswers(th: Thread, m: Machine, t: nat, c: Choice)
    requires PlainFits(th, m, t) && GroupOf(th.pc) == Yielding
    ensures Answered(th, StepYield(th, m, t).0, c)
  {
  }

  lemma WaitingAnswers(th: Thread, m: Machine, t: nat, c: Choice)
    requires PlainFits(th, m, t) && GroupOf(th.pc) == Waiting
    ensures Answered(th, StepWait(th, m, c).0, c)
  {
  }

  lemma WakingAnswers(th: Thread, m: Machine, t: nat, c: Choice)
    requires PlainFits(th, m, t) && GroupOf(th.pc) == Waking
    ensures Answered(th, StepWake(th, m).0, c)
  {
  }

  /** In the tests the answer is given, and kept from one test to the next. */
  lemma TestAnswers(s: State, t: nat, c: Choice)
    requires LockInv(s) && Known(s) && t < |s.threads| && GroupOf(s.threads[t].pc) == Testing
    ensures |Step(s, t, c).threads| == |s.threads|
    ensures Promise(Step(s, t, c), t) == Answer(s, Promise(s, t), t, c)
  {
    var th, u := s.threads[t], Step(s, t, c);
    assert WriterFits(s, t);
    assert ReaderFits(s, t);
    assert u.threads == s.threads[t := StepTest(th, s.m, t)] && u.m == s.m;
    TestKeepsHeld(th, s.m, t);
    SameCompatible(s, u, t, Exclusive);
    var ok := Compatible(s, t, Exclusive);
    match th.pc {
      case TestWriter(call) =>
        WriterDecides(s, t);
        hide LockInv, Compatible;
        WriterTestAnswers(th, s.m, t, ok);
        SharedCompatible(s, t);
      case TestReaders(_) =>
        ReadersDecide(s, t);
        hide LockInv, Compatible;
        ReadersTestAnswers(th, s.m, t, ok);
      case TestChain(_) =>
        ChainDecides(s, t);
        hide LockInv, Compatible;
        ChainTestAnswers(th, s.m, t, ok);
    }
  }

  lemma SharedCompatible(s: State, t: nat)
    requires t < |s.threads|
    ensures Compatible(s, t, Shared) <==> forall j :: 0 <= j < |s.threads| && j != t ==> !IsWriter(s.threads[j])
    ensures Compatible(s, t, Exclusive) ==> Compatible(s, t, Shared)
  {
  }

  lemma WriterTestAnswers(th: Thread, m: Machine, t: nat, ok: bool)
    requires th.process < |m.processes| && th.pc.TestWriter? && PlaceFits(th, m.writer.Some?)
    requires ok ==> m.writers == 0
    ensures var cl, c := PromiseOf(th, ok), th.pc.c;
            PromiseOf(StepTest(th, m, t), ok)
            == TestAnswer(cl, c, if c.mode == Exclusive then ok else m.writers == 0)
  {
  }

  lemma ReadersTestAnswers(th: Thread, m: Machine, t: nat, ok: bool)
    requires th.process < |m.processes| && th.pc.TestReaders? && PlaceFits(th, m.writer.Some?)
    requires (m.readers == 0 ==> ok) && (ok ==> m.readers == 0 || m.readers == 1)
    ensures PromiseOf(StepTest(th, m, t), ok) == PromiseOf(th, ok)
  {
  }

  lemma ChainTestAnswers(th: Thread, m: Machine, t: nat, ok: bool)
    requires th.process < |m.processes| && th.pc.TestChain? && PlaceFits(th, m.writer.Some?)
    requires var chain := m.processes[th.process].chain; ok <==> chain != [] && chain[0].owner == t
    ensures PromiseOf(StepTest(th, m, t), ok) == PromiseOf(th, ok)
  {
  }

  lemma TestKeepsHeld(th: Thread, m: Machine, t: nat)
    requires th.process < |m.processes|
    ensures var u := StepTest(th, m, t); u.held == th.held && u.excl == th.excl && u.process == th.process
  {
  }

  lemma ClientsStart(home: seq<nat>, n: nat, i: nat)
    requires i < |home|
    ensures Promise(Start(home, n), i) == Client({}, 0, None) && Known(Start(home, n))
  {
  }

  /** In every run every call is answered like that: a thread between calls holds exactly what
      its calls were answered, and a call of lock is under way exactly until it is answered. */
  lemma {:induction false} CallsAreAnswered(home: seq<nat>, n: nat, steps: seq<(nat, Choice)>)
    requires forall x :: 0 <= x < |home| ==> home[x] < n
    ensures var s, cls := Run(home, n, steps), Clients(home, n, steps);
            && Known(s)
            && (forall i :: 0 <= i < |cls| ==> Promise(s, i) == cls[i])
            && (forall i :: 0 <= i < |cls| && s.threads[i].pc.Idle? ==>
                  cls[i] == Client(s.threads[i].held, s.threads[i].excl, None))
    decreases |steps|
  {
    var cls := Clients(home, n, steps);
    if steps == [] {
      forall i | 0 <= i < |home|
        ensures Promise(Run(home, n, steps), i) == cls[i]
      {
        ClientsStart(home, n, i);
      }
    } else {
      var front, t, c := steps[..|steps| - 1], steps[|steps| - 1].0, steps[|steps| - 1].1;
      CallsAreAnswered(home, n, front);
      RunsKeepAll(home, n, front);
      var s := Run(home, n, front);
      StepKeepsKnown(s, t, c);
      forall i | 0 <= i < |home|
        ensures Promise(Step(s, t, c), i) == cls[i]
      {
        hide LockInv, Promise, Answer, Step, Known;
        if t < |home| {
          if i == t {
            OwnPromise(s, t, c);
          } else {
            OthersPromise(s, t, c, i);
          }
        } else {
          BeyondThreads(s, t, c);
        }
      }
    }
  }

  lemma BeyondThreads(s: State, t: nat, c: Choice)
    requires t >= |s.threads|
    ensures Step(s, t, c) == s
  {
  }

  // ----- every call returns

  /** The steps that a thread can be away from the end of its call, if waits time out. */
  function Rest(pc: Pc): nat {
    match pc
    case Idle => 0
    case Nest => 1
    case SignalCs(a) => if a.Retry? then 16 else 2
    case Leave(a) => if a.Retry? then 17 else 3
    case LinkStore(_, _, _) => 4
    case LinkLoad(_, _) => 5
    case JoinStore(_, _, _) => 6
    case JoinLoad(_, _) => 7
    case SetOwner => 4
    case SetNested => 5
    case SetWriter => 6
    case TestChain(c) => 8 + Again(c)
    case TestReaders(c) => 9 + Again(c)
    case TestWriter(c) => 10 + Again(c)
    case EnterWait(c) => 12 + Again(c)
    case Enter(c) => 13 + Again(c)
    case PostCredit(c) => 14 + Again(c)
    case TestOwner(c) => 14 + Again(c)
    case AwaitEvent(_) => 15
    case ResetEvent(_) => 18
    case CountWaiter(_) => 22
    case DrainCount => 4
    case DrainWait => 5
    case SetWake => 6
    case WakeTest => 7
    case ClearWriter => 8
    case DropStore(_, _) => 8
    case DropLoad(_) => 9
    case UnlinkStore(_, _) => 10
    case UnlinkLoad(_) => 11
    case ClearOwner => 14
    case Unnest => 15
  }

  function Again(c: Call): nat {
    if c.LockCall? && c.wait then 20 else 0
  }

  /** The thread can take a step towards the end of its call. */
  predicate Enabled(th: Thread, m: Machine) {
    !th.pc.Idle? && (th.pc.EnterWait? ==> m.hCS) && (th.pc.DrainWait? ==> m.hSemaphore > 0)
  }

  predicate Nearer(th: Thread, m: Machine, th': Thread, m': Machine) {
    Rest(th'.pc) + 3 * m'.waiters < Rest(th.pc) + 3 * m.waiters
  }

  predicate CanStep(th: Thread, m: Machine) {
    th.process < |m.processes| && PlaceFits(th, m.writer.Some?) && Enabled(th, m)
  }

  lemma EnabledAdvances(th: Thread, m: Machine, t: nat)
    requires CanStep(th, m)
    ensures var (th', m') := ThreadStep(th, m, t, Timeout); Nearer(th, m, th', m')
  {
    hide Nearer, StepSection, StepJoin, StepDrop, StepOwn, StepYield, StepTest, StepWait, StepWake;
    match GroupOf(th.pc) {
      case Calling =>
      case Sectioning => SectioningAdvances(th, m, t);
      case Joining => JoiningAdvances(th, m, t);
      case Dropping => DroppingAdvances(th, m, t);
      case Owning => OwningAdvances(th, m, t);
      case Yielding => YieldingAdvances(th, m, t);
      case Testing => TestingAdvances(th, m, t);
      case Waiting => WaitingAdvances(th, m, t);
      case Waking => WakingAdvances(th, m, t);
    }
  }

  lemma SectioningAdvances(th: Thread, m: Machine, t: nat)
    requires CanStep(th, m) && GroupOf(th.pc) == Sectioning
    ensures var (th', m') := StepSection(th, m, t); Nearer(th, m, th', m')
  {
  }

  lemma JoiningAdvances(th: Thread, m: Machine, t: nat)
    requires CanStep(th, m) && GroupOf(th.pc) == Joining
    ensures var (th', m') := StepJoin(th, m, t); Nearer(th, m, th', m')
  {
  }

  lemma DroppingAdvances(th: Thread, m: Machine, t: nat)
    requires CanStep(th, m) && GroupOf(th.pc) == Dropping
    ensures var (th', m') := StepDrop(th, m, t); Nearer(th, m, th', m')
  {
  }

  lemma OwningAdvances(th: Thread, m: Machine, t: nat)
    requires CanStep(th, m) && GroupOf(th.pc) == Owning
    ensures var (th', m') := StepOwn(th, m, t); Nearer(th, m, th', m')
  {
  }

  lemma YieldingAdvances(th: Thread, m: Machine, t: nat)
    requires CanStep(th, m) && GroupOf(th.pc) == Yielding
    ensures var (th', m') := StepYield(th, m, t); Nearer(th, m, th', m')
  {
  }

  lemma TestingAdvances(th: Thread, m: Machine, t: nat)
    requires CanStep(th, m) && GroupOf(th.pc) == Testing
    ensures var (th', m') := (StepTest(th, m, t), m); Nearer(th, m, th', m')
  {
  }

  lemma WaitingAdvances(th: Thread, m: Machine, t: nat)
    requires CanStep(th, m) && GroupOf(th.pc) == Waiting
    ensures var (th', m') := StepWait(th, m, Timeout); Nearer(th, m, th', m')
  {
  }

  lemma WakingAdvances(th: Thread, m: Machine, t: nat)
    requires CanStep(th, m) && GroupOf(th.pc) == Waking
    ensures var (th', m') := StepWake(th, m); Nearer(th, m, th', m')
  {
  }

  function TotalRest(threads: seq<Thread>): nat {
    if threads == [] then 0 else Rest(threads[0].pc) + TotalRest(threads[1..])
  }

  lemma {:induction false} RestMoved(threads: seq<Thread>, t: nat, th: Thread)
    requires t < |threads|
    ensures TotalRest(threads[t := th]) + Rest(threads[t].pc) == TotalRest(threads) + Rest(th.pc)
  {
    hide Rest;
    if t == 0 {
      assert threads[0 := th][1..] == threads[1..];
    } else {
      assert threads[t := th][1..] == threads[1..][t - 1 := th];
      RestMoved(threads[1..], t - 1, th);
    }
  }

  function AllRest(s: State): int {
    TotalRest(s.threads) + 3 * s.m.waiters
  }

  predicate AllIdle(s: State) {
    forall i :: 0 <= i < |s.threads| ==> s.threads[i].pc.Idle?
  }

  /** As long as a call is under way some thread can go on. */
  lemma SomeoneEnabled(s: State) returns (i: nat)
    requires LockInv(s) && Known(s) && !AllIdle(s)
    ensures i < |s.threads| && Enabled(s.threads[i], s.m)
  {
    match s.m.token {
      case Held(t) =>
        i := t;
        if s.threads[t].pc.DrainWait? && s.m.hSemaphore == 0 {
          i := SomeoneWorks(s, t);
        }
      case Signalling(t) => i := t;
      case Signalled =>
        CountPositive(Queued, s.threads);
        i :| 0 <= i < |s.threads| && Is(Queued, s.threads[i]);
      case Free =>
        CountPositive(Queued, s.threads);
        i :| 0 <= i < |s.threads| && !s.threads[i].pc.Idle?;
        assert !Is(Queued, s.threads[i]);
    }
  }

  lemma EnabledStep(s: State, i: nat)
    requires LockInv(s) && i < |s.threads| && Enabled(s.threads[i], s.m)
    ensures 0 <= AllRest(Step(s, i, Timeout)) < AllRest(s)
  {
    assert WriterFits(s, i);
    StepKeepsAll(s, i, Timeout);
    assert s.m.waiters >= 0 && Step(s, i, Timeout).m.waiters >= 0;
    hide LockInv, Enabled, ThreadStep, PlaceFits;
    var (th, m) := ThreadStep(s.threads[i], s.m, i, Timeout);
    EnabledAdvances(s.threads[i], s.m, i);
    RestMoved(s.threads, i, th);
  }

  predicate NoCall(steps: seq<(nat, Choice)>) {
    forall i :: 0 <= i < |steps| ==> !steps[i].1.Do?
  }

  ghost predicate CanReturn(home: seq<nat>, n: nat, steps: seq<(nat, Choice)>) {
    exists rest :: NoCall(rest) && AllIdle(Run(home, n, steps + rest))
  }

  lemma CanReturnBefore(home: seq<nat>, n: nat, steps: seq<(nat, Choice)>, i: nat)
    requires CanReturn(home, n, steps + [(i, Timeout)])
    ensures CanReturn(home, n, steps)
  {
    hide AllIdle, Run;
    var next := [(i, Choice.Timeout)];
    var rest :| NoCall(rest) && AllIdle(Run(home, n, steps + next + rest));
    assert steps + (next + rest) == steps + next + rest;
    assert NoCall(next + rest);
  }

  lemma CanReturnNow(home: seq<nat>, n: nat, steps: seq<(nat, Choice)>)
    requires AllIdle(Run(home, n, steps))
    ensures CanReturn(home, n, steps)
  {
    hide AllIdle, Run;
    assert steps + [] == steps && NoCall([]);
  }

  /** There is no deadlock if waits may time out: from every reachable state all calls can
      return, without a new one. */
  lemma {:induction false} EveryCallReturns(home: seq<nat>, n: nat, steps: seq<(nat, Choice)>)
    requires forall x :: 0 <= x < |home| ==> home[x] < n
    ensures CanReturn(home, n, steps)
    decreases AllRest(Run(home, n, steps))
  {
    var s := Run(home, n, steps);
    RunsKeepAll(home, n, steps);
    CallsAreAnswered(home, n, steps);
    hide Run, Step, LockInv, Known, AllRest, CanReturn, AllIdle, Enabled, Promise;
    if AllIdle(s) {
      CanReturnNow(home, n, steps);
    } else {
      var i := SomeoneEnabled(s);
      EnabledStep(s, i);
      RunOn(home, n, steps, i, Timeout);
      EveryCallReturns(home, n, steps + [(i, Choice.Timeout)]);
      CanReturnBefore(home, n, steps, i);
    }
  }
}
