/** src/fifo/fifo.h with any number of threads in put and get at once. Each step is one
    atomic action of one thread: the enqueue and dequeue bodies, which hold the exclusive
    lock, and each operation on a semaphore or event. Whether enqueue finds room is left
    open. */
module FifoProtocol {
  import opened Wrappers

  /** Where a thread stands. */
  datatype Phase<M> =
    | Idle
    | Putting(m: M)    // in put, before enqueue
    | Stored           // enqueued, not_empty not yet signalled
    | Full(m: M)       // enqueue failed
    | Claimed(m: M)    // waited for not_empty in order to drop the oldest message
    | Dropped(m: M)    // dropped it, not_full not yet signalled
    | Blocked(m: M)    // waiting for not_full
    | Getting          // in get, waiting for not_empty
    | Taken            // past that wait, before dequeue
    | Got(r: Option<M>)  // dequeued, not_full not yet signalled

  datatype State<M> = State(threads: seq<Phase<M>>,
                            queue: seq<M>, notEmpty: nat, notFull: bool,
                            entered: seq<M>,   // every message enqueued, in order
                            left: seq<M>,      // every message dequeued, in order
                            faults: nat)   // calls of global_func_log in get, and
                                           // dequeues that found nothing in put

  /** What the environment decides: the call an idle thread makes, whether enqueue finds
      room, and whether a wait ends before its timeout. */
  datatype Choice<M> = Put(m: M) | Get | Success | Failure

  function Moved<M>(s: State<M>, i: nat, p: Phase<M>): State<M>
    requires i < |s.threads|
  {
    s.(threads := s.threads[i := p])
  }

  /** dequeue, on to phase p. */
  function Dequeue<M>(s: State<M>, i: nat, p: Phase<M>): State<M>
    requires i < |s.threads|
  {
    if s.queue == [] then Moved(s, i, p).(faults := s.faults + 1)
    else Moved(s, i, p).(queue := s.queue[1..], left := s.left + [s.queue[0]])
  }

  /** One step of thread i; a wait that cannot end leaves the state alone. */
  function Step<M>(s: State<M>, i: nat, c: Choice<M>): State<M> {
    if i >= |s.threads| then s
    else match s.threads[i]
      case Idle =>
        if c.Put? then Moved(s, i, Putting(c.m)) else if c.Get? then Moved(s, i, Getting) else s
      case Putting(m) =>
        if c.Success? then Moved(s, i, Stored).(queue := s.queue + [m], entered := s.entered + [m])
        else Moved(s, i, Full(m)).(notFull := false)
      case Stored => Moved(s, i, Idle).(notEmpty := s.notEmpty + 1)
      case Full(m) =>
        if c.Success? && s.notEmpty > 0 then Moved(s, i, Claimed(m)).(notEmpty := s.notEmpty - 1)
        else Moved(s, i, Blocked(m))
      case Claimed(m) => Dequeue(s, i, Dropped(m))
      case Dropped(m) => Moved(s, i, Blocked(m)).(notFull := true)
      case Blocked(m) => if s.notFull then Moved(s, i, Putting(m)) else s
      case Getting =>
        if c.Success? && s.notEmpty > 0 then Moved(s, i, Taken).(notEmpty := s.notEmpty - 1)
        else Moved(s, i, Idle)
      case Taken => Dequeue(s, i, Got(if s.queue == [] then None else Some(s.queue[0])))
      case Got(_) => Moved(s, i, Idle).(notFull := true)
  }

  /** All threads idle, nothing queued. */
  function Start<M>(n: nat): State<M> {
    State(seq(n, _ => Idle), [], 0, false, [], [], 0)
  }

  /** The state after a run of n threads from the start. */
  function Run<M>(n: nat, steps: seq<(nat, Choice<M>)>): State<M> {
    if steps == [] then Start(n)
    else Step(Run(n, steps[..|steps| - 1]), steps[|steps| - 1].0, steps[|steps| - 1].1)
  }

  /** A thread that owes the queue: it has taken a count but not the message, or put in the
      message but not the count. */
  predicate Owes<M>(p: Phase<M>) {
    p.Claimed? || p.Taken? || p.Stored?
  }

  function Owing<M>(threads: seq<Phase<M>>): nat {
    if threads == [] then 0 else (if Owes(threads[0]) then 1 else 0) + Owing(threads[1..])
  }

  lemma {:induction false} OwingMoved<M>(threads: seq<Phase<M>>, i: nat, p: Phase<M>)
    requires i < |threads|
    ensures Owing(threads[i := p]) + (if Owes(threads[i]) then 1 else 0) == Owing(threads) + (if Owes(p) then 1 else 0)
  {
    if i == 0 {
      assert threads[0 := p][1..] == threads[1..];
    } else {
      assert threads[i := p][1..] == threads[1..][i - 1 := p];
      OwingMoved(threads[1..], i - 1, p);
    }
  }

  lemma {:induction false} OwingPositive<M>(threads: seq<Phase<M>>, i: nat)
    requires i < |threads| && Owes(threads[i])
    ensures Owing(threads) > 0
  {
    if i > 0 {
      OwingPositive(threads[1..], i - 1);
    }
  }

  lemma {:induction false} NothingOwed<M>(n: nat)
    ensures Owing(Start<M>(n).threads) == 0
  {
    if n > 0 {
      NothingOwed<M>(n - 1);
      assert Start<M>(n).threads[1..] == Start<M>(n - 1).threads;
    }
  }

  /** The length of the queue is the count of not_empty plus what threads owe. */
  ghost predicate Balanced<M>(s: State<M>) {
    |s.queue| == s.notEmpty + Owing(s.threads)
  }

  /** Messages leave in the order they came, none lost or made up. */
  ghost predicate InOrder<M>(s: State<M>) {
    s.entered == s.left + s.queue
  }

  /** A dequeue by a thread past its wait finds a message and settles what it owed. */
  lemma DequeueKeepsBalance<M>(s: State<M>, i: nat, p: Phase<M>)
    requires Balanced(s) && i < |s.threads| && Owes(s.threads[i]) && !Owes(p)
    ensures s.queue != []
    ensures Balanced(Dequeue(s, i, p)) && Dequeue(s, i, p).faults == s.faults
  {
    OwingPositive(s.threads, i);
    OwingMoved(s.threads, i, p);
  }

  lemma StepKeepsBalance<M>(s: State<M>, i: nat, c: Choice<M>)
    requires Balanced(s)
    ensures Balanced(Step(s, i, c)) && Step(s, i, c).faults == s.faults
  {
    hide Owing;
    if i < |s.threads| {
      match s.threads[i] {
        case Claimed(m) => DequeueKeepsBalance(s, i, Dropped(m));
        case Taken => DequeueKeepsBalance(s, i, Step(s, i, c).threads[i]);
        case _ => OwingMoved(s.threads, i, Step(s, i, c).threads[i]);
      }
    }
  }

  lemma DequeueKeepsOrder<M>(s: State<M>, i: nat, p: Phase<M>)
    requires InOrder(s) && i < |s.threads|
    ensures InOrder(Dequeue(s, i, p)) && s.left <= Dequeue(s, i, p).left && Dequeue(s, i, p).entered == s.entered
  {
    if s.queue != [] {
      assert s.left + s.queue == s.left + [s.queue[0]] + s.queue[1..];
    }
  }

  lemma StepKeepsOrder<M>(s: State<M>, i: nat, c: Choice<M>)
    requires InOrder(s)
    ensures InOrder(Step(s, i, c))
    ensures s.entered <= Step(s, i, c).entered && s.left <= Step(s, i, c).left
  {
    hide Dequeue;
    if i < |s.threads| {
      match s.threads[i] {
        case Claimed(m) => DequeueKeepsOrder(s, i, Dropped(m));
        case Taken => DequeueKeepsOrder(s, i, Got(if s.queue == [] then None else Some(s.queue[0])));
        case Putting(m) => assert s.left + s.queue + [m] == s.left + (s.queue + [m]);
        case _ =>
      }
    }
  }

  /** In every interleaving: the count is balanced, no dequeue after a successful wait finds
      the queue empty, and messages leave in order. */
  lemma {:induction false} RunsKeepTheQueue<M>(n: nat, steps: seq<(nat, Choice<M>)>)
    ensures Balanced(Run(n, steps)) && InOrder(Run(n, steps))
    ensures Run(n, steps).faults == 0
    ensures forall i :: 0 <= i < |Run(n, steps).threads| &&
                        (Run(n, steps).threads[i].Taken? || Run(n, steps).threads[i].Claimed?)
                        ==> Run(n, steps).queue != []
    decreases |steps|
  {
    var s := Run(n, steps);
    if steps == [] {
      NothingOwed<M>(n);
    } else {
      var k := |steps| - 1;
      RunsKeepTheQueue(n, steps[..k]);
      StepKeepsBalance(Run(n, steps[..k]), steps[k].0, steps[k].1);
      StepKeepsOrder(Run(n, steps[..k]), steps[k].0, steps[k].1);
    }
    forall i | 0 <= i < |s.threads| && Owes(s.threads[i])
      ensures Owing(s.threads) > 0
    {
      OwingPositive(s.threads, i);
    }
  }

  /** Once every thread is idle again the count is exactly the number of messages. */
  lemma QuietCount<M>(n: nat, steps: seq<(nat, Choice<M>)>)
    requires forall i :: 0 <= i < |Run(n, steps).threads| ==> !Owes(Run(n, steps).threads[i])
    ensures Run(n, steps).notEmpty == |Run(n, steps).queue|
  {
    RunsKeepTheQueue(n, steps);
    NoneOwe(Run(n, steps).threads);
  }

  lemma {:induction false} NoneOwe<M>(threads: seq<Phase<M>>)
    requires forall i :: 0 <= i < |threads| ==> !Owes(threads[i])
    ensures Owing(threads) == 0
  {
    if threads != [] {
      NoneOwe(threads[1..]);
    }
  }

  // ----- every message

  /** How often put was called with x. */
  ghost function Given<M>(n: nat, steps: seq<(nat, Choice<M>)>, x: M): nat {
    if steps == [] then 0
    else
      var front, (i, c) := steps[..|steps| - 1], steps[|steps| - 1];
      var s := Run(n, front);
      Given(n, front, x) + One(i < |s.threads| && s.threads[i].Idle? && c == Put(x))
  }

  /** How often get has returned x. */
  ghost function Received<M>(n: nat, steps: seq<(nat, Choice<M>)>, x: M): nat {
    if steps == [] then 0
    else
      var front, i := steps[..|steps| - 1], steps[|steps| - 1].0;
      var s := Run(n, front);
      Received(n, front, x) + One(i < |s.threads| && Plays(Returning(x), s.threads[i]))
  }

  /** How often put has dropped x to make room. */
  ghost function Discarded<M>(n: nat, steps: seq<(nat, Choice<M>)>, x: M): nat {
    if steps == [] then 0
    else
      var front, i := steps[..|steps| - 1], steps[|steps| - 1].0;
      var s := Run(n, front);
      Discarded(n, front, x) + One(i < |s.threads| && Drops(s, i) && s.queue[0] == x)
  }

  predicate Drops<M>(s: State<M>, i: nat)
    requires i < |s.threads|
  {
    s.threads[i].Claimed? && s.queue != []
  }

  /** How often enqueue has failed. */
  function Failures<M>(n: nat, steps: seq<(nat, Choice<M>)>): nat {
    if steps == [] then 0
    else
      var front, (i, c) := steps[..|steps| - 1], steps[|steps| - 1];
      var s := Run(n, front);
      Failures(n, front) + One(i < |s.threads| && s.threads[i].Putting? && !c.Success?)
  }

  /** How often a message was dropped. */
  function Dropping<M>(n: nat, steps: seq<(nat, Choice<M>)>): nat {
    if steps == [] then 0
    else
      var front, i := steps[..|steps| - 1], steps[|steps| - 1].0;
      var s := Run(n, front);
      Dropping(n, front) + One(i < |s.threads| && Drops(s, i))
  }

  /** Whether a message has left, and its room been announced, since enqueue last failed. */
  predicate RoomAnnounced<M>(n: nat, steps: seq<(nat, Choice<M>)>) {
    steps != [] &&
    var front, (i, c) := steps[..|steps| - 1], steps[|steps| - 1];
    var s := Run(n, front);
    if i < |s.threads| && s.threads[i].Putting? && !c.Success? then false
    else RoomAnnounced(n, front) || (i < |s.threads| && (s.threads[i].Dropped? || s.threads[i].Got?))
  }

  function One(b: bool): nat {
    if b then 1 else 0
  }

  /** Storing: in put, and still to store x. Returning: in get, and about to return x.
      FoundFull: found the queue full and has not dropped anything for it yet. */
  datatype Role<M> = Storing(x: M) | Returning(x: M) | FoundFull

  ghost predicate Plays<M>(role: Role<M>, p: Phase<M>) {
    match role
    case Storing(x) => (p.Putting? || p.Full? || p.Claimed? || p.Dropped? || p.Blocked?) && p.m == x
    case Returning(x) => p.Got? && p.r == Some(x)
    case FoundFull => p.Full? || p.Claimed?
  }

  ghost function Count<M>(role: Role<M>, threads: seq<Phase<M>>): nat {
    if threads == [] then 0 else One(Plays(role, threads[0])) + Count(role, threads[1..])
  }

  lemma {:induction false} CountMoved<M>(role: Role<M>, threads: seq<Phase<M>>, i: nat, q: Phase<M>)
    requires i < |threads|
    ensures Count(role, threads[i := q]) + One(Plays(role, threads[i])) == Count(role, threads) + One(Plays(role, q))
  {
    hide Plays;
    if i == 0 {
      assert threads[0 := q][1..] == threads[1..];
    } else {
      assert threads[i := q][1..] == threads[1..][i - 1 := q];
      CountMoved(role, threads[1..], i - 1, q);
    }
  }

  lemma {:induction false} CountNone<M>(role: Role<M>, threads: seq<Phase<M>>)
    requires forall i :: 0 <= i < |threads| ==> threads[i].Idle?
    ensures Count(role, threads) == 0
  {
    if threads != [] {
      CountNone(role, threads[1..]);
    }
  }

  /** How often x occurs. */
  ghost function Times<M>(s: seq<M>, x: M): nat {
    if s == [] then 0 else Times(s[..|s| - 1], x) + One(s[|s| - 1] == x)
  }

  lemma TimesAdd<M>(s: seq<M>, m: M, x: M)
    ensures Times(s + [m], x) == Times(s, x) + One(m == x)
  {
    assert (s + [m])[..|s|] == s;
  }

  lemma {:induction false} TimesJoin<M>(a: seq<M>, b: seq<M>, x: M)
    ensures Times(a + b, x) == Times(a, x) + Times(b, x)
  {
    if b == [] {
      assert a + b == a;
    } else {
      var n := |b| - 1;
      assert (a + b)[..|a + b| - 1] == a + b[..n];
      TimesJoin(a, b[..n], x);
    }
  }

  /** One step may take the message x into put, or store it. */
  lemma StepEnters<M>(s: State<M>, i: nat, c: Choice<M>, x: M)
    requires i < |s.threads|
    ensures var u, p := Step(s, i, c), s.threads[i];
            Times(u.entered, x) + Count(Storing(x), u.threads)
            == Times(s.entered, x) + Count(Storing(x), s.threads) + One(p.Idle? && c == Put(x))
  {
    hide Count, Times;
    CountMoved(Storing(x), s.threads, i, Step(s, i, c).threads[i]);
    if s.threads[i].Putting? {
      TimesAdd(s.entered, s.threads[i].m, x);
    }
  }

  /** It may drop it, take it out for get, or return it. */
  lemma StepLeaves<M>(s: State<M>, i: nat, c: Choice<M>, x: M)
    requires i < |s.threads|
    ensures var u, p := Step(s, i, c), s.threads[i];
            Times(u.left, x) + Count(Returning(x), s.threads)
            == Times(s.left, x) + One(Drops(s, i) && s.queue[0] == x)
               + Count(Returning(x), u.threads) + One(Plays(Returning(x), p))
  {
    hide Count, Times;
    CountMoved(Returning(x), s.threads, i, Step(s, i, c).threads[i]);
    if s.queue != [] {
      TimesAdd(s.left, s.queue[0], x);
    }
  }

  lemma StepAnnounces<M>(s: State<M>, i: nat, c: Choice<M>)
    requires i < |s.threads|
    ensures var u, p := Step(s, i, c), s.threads[i];
            && u.notFull == (if p.Putting? && !c.Success? then false else s.notFull || p.Dropped? || p.Got?)
            && Count(FoundFull, u.threads) + One(Drops(s, i))
               <= Count(FoundFull, s.threads) + One(p.Putting? && !c.Success?)
  {
    hide Count;
    CountMoved(FoundFull, s.threads, i, Step(s, i, c).threads[i]);
  }

  lemma BeyondThreads<M>(s: State<M>, i: nat, c: Choice<M>)
    requires i >= |s.threads|
    ensures Step(s, i, c) == s
  {
  }

  /** In every interleaving: each message given to put has been stored or is still in the hands
      of its put; each message that left was returned by get, is about to be, or was dropped. */
  lemma {:induction false} EveryMessage<M>(n: nat, steps: seq<(nat, Choice<M>)>, x: M)
    ensures var s := Run(n, steps);
            && Given(n, steps, x) == Times(s.entered, x) + Count(Storing(x), s.threads)
            && Times(s.left, x) == Received(n, steps, x) + Discarded(n, steps, x) + Count(Returning(x), s.threads)
    decreases |steps|
  {
    if steps == [] {
      CountNone(Storing(x), Start<M>(n).threads);
      CountNone(Returning(x), Start<M>(n).threads);
    } else {
      var front := steps[..|steps| - 1];
      var (i, c) := steps[|steps| - 1];
      var s := Run(n, front);
      EveryMessage(n, front, x);
      hide Step, Count, Plays, Drops, Times;
      if i < |s.threads| {
        StepEnters(s, i, c, x);
        StepLeaves(s, i, c, x);
      } else {
        BeyondThreads(s, i, c);
      }
    }
  }

  /** No more messages are dropped than enqueue failed, and not_full is signalled exactly when
      room has been announced since enqueue last failed. */
  lemma {:induction false} DropsAreNeeded<M>(n: nat, steps: seq<(nat, Choice<M>)>)
    ensures var s := Run(n, steps);
            && Dropping(n, steps) + Count(FoundFull, s.threads) <= Failures(n, steps)
            && s.notFull == RoomAnnounced(n, steps)
    decreases |steps|
  {
    if steps == [] {
      CountNone(FoundFull, Start<M>(n).threads);
    } else {
      var front := steps[..|steps| - 1];
      var (i, c) := steps[|steps| - 1];
      var s := Run(n, front);
      DropsAreNeeded(n, front);
      hide Step, Count, Drops;
      if i < |s.threads| {
        StepAnnounces(s, i, c);
      } else {
        BeyondThreads(s, i, c);
      }
    }
  }

  /** Once every thread is idle again, what was given is what was received, what was dropped
      and what is still queued. */
  lemma QuietMessages<M>(n: nat, steps: seq<(nat, Choice<M>)>, x: M)
    requires forall i :: 0 <= i < |Run(n, steps).threads| ==> Run(n, steps).threads[i].Idle?
    ensures Given(n, steps, x) ==
            Received(n, steps, x) + Discarded(n, steps, x) + Times(Run(n, steps).queue, x)
  {
    EveryMessage(n, steps, x);
    RunsKeepTheQueue(n, steps);
    var s := Run(n, steps);
    CountNone(Storing(x), s.threads);
    CountNone(Returning(x), s.threads);
    TimesJoin(s.left, s.queue, x);
  }

  // ----- a call that nobody interrupts

  /** Thread i takes steps alone. */
  function Alone<M>(s: State<M>, i: nat, choices: seq<Choice<M>>): State<M>
    decreases |choices|
  {
    if choices == [] then s else Alone(Step(s, i, choices[0]), i, choices[1..])
  }

  /** put with room: the message is the last, and is counted. */
  lemma PutStores<M>(s: State<M>, i: nat, m: M)
    requires i < |s.threads| && s.threads[i].Idle?
    ensures Alone(s, i, [Put(m), Success, Success]) ==
            s.(queue := s.queue + [m], entered := s.entered + [m], notEmpty := s.notEmpty + 1)
  {
    var s1 := Step(s, i, Put(m));
    var s2 := Step(s1, i, Success);
    AloneThree(s, i, Put(m), Success, Success);
    assert Step(s2, i, Success).threads == s.threads;
  }

  /** put without room: it drops the oldest message that is counted, announces the room, and
      tries again. */
  lemma PutDrops<M>(s: State<M>, i: nat, m: M)
    requires i < |s.threads| && s.threads[i].Idle? && s.notEmpty > 0 && s.queue != []
    ensures Alone(s, i, [Put(m), Failure, Success] + [Success, Success, Success] + [Success, Success]) ==
            s.(queue := s.queue[1..] + [m], left := s.left + [s.queue[0]], entered := s.entered + [m], notFull := true)
  {
    AloneThree(s, i, Put(m), Failure, Success);
    var s1 := Alone(s, i, [Put(m), Failure, Success]);
    assert s1 == s.(threads := s.threads[i := Claimed(m)], notEmpty := s.notEmpty - 1, notFull := false);
    AloneThree(s1, i, Success, Success, Success);
    var s2 := Alone(s1, i, [Success, Success, Success]);
    assert s2 == s.(threads := s.threads[i := Putting(m)], queue := s.queue[1..], left := s.left + [s.queue[0]],
                    notEmpty := s.notEmpty - 1, notFull := true);
    AloneTwo(s2, i, Success, Success);
    var s3 := Alone(s2, i, [Success, Success]);
    assert s3.threads == s.threads;
    hide Step, Alone;
    AloneAppend(s, i, [Put(m), Failure, Success], [Success, Success, Success]);
    AloneAppend(s, i, [Put(m), Failure, Success] + [Success, Success, Success], [Success, Success]);
  }

  /** put without room and without a counted message: it waits for not_full. */
  lemma PutWaits<M>(s: State<M>, i: nat, m: M, more: seq<Choice<M>>)
    requires i < |s.threads| && s.threads[i].Idle? && s.notEmpty == 0
    ensures Alone(s, i, [Put(m), Failure, Success] + more) ==
            s.(threads := s.threads[i := Blocked(m)], notFull := false)
  {
    AloneThree(s, i, Put(m), Failure, Success);
    var s1 := Alone(s, i, [Put(m), Failure, Success]);
    assert s1 == s.(threads := s.threads[i := Blocked(m)], notFull := false);
    AloneAppend(s, i, [Put(m), Failure, Success], more);
    BlockedStays(s1, i, more);
  }

  lemma {:induction false} BlockedStays<M>(s: State<M>, i: nat, more: seq<Choice<M>>)
    requires i < |s.threads| && s.threads[i].Blocked? && !s.notFull
    ensures Alone(s, i, more) == s
    decreases |more|
  {
    if more != [] {
      BlockedStays(s, i, more[1..]);
    }
  }

  /** get with a counted message: it returns the oldest, and announces the room. */
  lemma GetTakes<M>(s: State<M>, i: nat)
    requires i < |s.threads| && s.threads[i].Idle? && s.notEmpty > 0 && s.queue != []
    ensures Alone(s, i, [Get, Success, Success]).threads[i] == Got(Some(s.queue[0]))
    ensures Alone(s, i, [Get, Success, Success] + [Success]) ==
            s.(queue := s.queue[1..], left := s.left + [s.queue[0]], notEmpty := s.notEmpty - 1, notFull := true)
  {
    AloneThree(s, i, Get, Success, Success);
    AloneAppend(s, i, [Get, Success, Success], [Success]);
    var s1 := Alone(s, i, [Get, Success, Success]);
    assert Alone(s1, i, [Success]) == Step(s1, i, Success) by { assert [Choice<M>.Success][1..] == []; }
    assert Step(s1, i, Success).threads == s.threads;
  }

  /** get that finds no counted message in time: nothing has changed. */
  lemma GetGivesUp<M>(s: State<M>, i: nat, c: Choice<M>)
    requires i < |s.threads| && s.threads[i].Idle? && (s.notEmpty == 0 || !c.Success?)
    ensures Alone(s, i, [Get, c]) == s
  {
    AloneTwo(s, i, Get, c);
    assert Alone(s, i, [Get, c]).threads == s.threads;
  }

  lemma AloneTwo<M>(s: State<M>, i: nat, a: Choice<M>, b: Choice<M>)
    ensures Alone(s, i, [a, b]) == Step(Step(s, i, a), i, b)
  {
    hide Step;
    assert [a, b][1..] == [b] && [b][1..] == [];
    assert Alone(s, i, [a, b]) == Alone(Step(s, i, a), i, [b]);
  }

  lemma AloneThree<M>(s: State<M>, i: nat, a: Choice<M>, b: Choice<M>, c: Choice<M>)
    ensures Alone(s, i, [a, b, c]) == Step(Step(Step(s, i, a), i, b), i, c)
  {
    hide Step;
    assert [a, b, c][1..] == [b, c];
    assert Alone(s, i, [a, b, c]) == Alone(Step(s, i, a), i, [b, c]);
    AloneTwo(Step(s, i, a), i, b, c);
  }

  lemma {:induction false} AloneAppend<M>(s: State<M>, i: nat, a: seq<Choice<M>>, b: seq<Choice<M>>)
    ensures Alone(s, i, a + b) == Alone(Alone(s, i, a), i, b)
    decreases |a|
  {
    hide Step;
    if a == [] {
      assert a + b == b;
    } else {
      assert (a + b)[1..] == a[1..] + b;
      AloneAppend(Step(s, i, a[0]), i, a[1..], b);
    }
  }
}
