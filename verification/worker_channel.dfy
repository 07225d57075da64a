/** The handshake between the main thread and one worker thread that src/common/dispatch.cpp
    (twice) and src/database/qsgigabase.cpp with src/database/gigaclient.cpp use: a queue that
    only the main thread touches, and the fields Done, Trigger, the item (notif, giga_query)
    and the event m_hevtSinc, which both threads touch. Every access to one of those is a step
    of its own. */
module WorkerChannel {
  import opened Wrappers

  /** Where the worker's run loop stands. */
  datatype Pc = WaitSignal | ResetSignal | TestTrigger | ClearTrigger | Execute | SetDone | Post

  /** Where the main thread stands in SetNotif or SetQuery. */
  datatype Stage = TestDone | StoreItem | StoreTrigger | StoreDone | Signal

  datatype Channel<T> = Channel(
    queue: seq<T>, pending: int,        // the queue, and the counter beside it
    done: bool, trigger: bool, item: Option<T>, signalled: bool,
    fail: bool,                         // fFail
    result: Option<T>,                  // whose result the worker has stored
    pc: Pc,
    posted: seq<T>,                     // completion events not yet delivered
    handling: bool,                     // one has been delivered and its item not yet removed
    sending: Option<(T, Stage)>,        // SetNotif in progress
    adding: Option<T>,                  // an item sent and not yet enqueued
    refused: nat,                       // calls of SetNotif that found the worker busy
    accepted: seq<T>, executed: seq<T>, finished: seq<T>)  // every item enqueued, executed, removed

  function New<T>(): Channel<T> {
    Channel([], 0, true, false, None, false, false, None, WaitSignal, [], false, None, None, 0, [], [], [])
  }

  // ----- the worker

  function Items<T>(item: Option<T>): seq<T> {
    if item.Some? then [item.value] else []
  }

  /** One step of run; ok is whether the transaction succeeds. An item is only there to be
      executed if one was ever sent. */
  function WorkerStep<T>(c: Channel<T>, ok: bool): Channel<T> {
    match c.pc
    case WaitSignal => if c.signalled then c.(pc := ResetSignal) else c
    case ResetSignal => c.(signalled := false, pc := TestTrigger)
    case TestTrigger => if c.trigger then c.(pc := ClearTrigger, result := None) else c.(pc := WaitSignal)
    case ClearTrigger => c.(trigger := false, pc := Execute)
    case Execute =>
      c.(executed := c.executed + Items(c.item),
         result := c.item, fail := c.fail || !ok, pc := SetDone)
    case SetDone => c.(done := true, pc := Post)
    case Post => c.(posted := c.posted + Items(c.item), pc := WaitSignal)
  }

  // ----- the main thread

  /** SetNotif or SetQuery begins. */
  function StartSend<T>(c: Channel<T>, x: T): Channel<T> {
    c.(sending := Some((x, TestDone)))
  }

  /** One step of it. */
  function SendStep<T>(c: Channel<T>): Channel<T>
    requires c.sending.Some?
  {
    var (x, stage) := c.sending.value;
    match stage
    case TestDone =>
      if c.done then c.(sending := Some((x, StoreItem))) else c.(sending := None, refused := c.refused + 1)
    case StoreItem => c.(item := Some(x), sending := Some((x, StoreTrigger)))
    case StoreTrigger => c.(trigger := true, sending := Some((x, StoreDone)))
    case StoreDone => c.(done := false, sending := Some((x, Signal)))
    case Signal => c.(signalled := true, sending := None)
  }

  /** DoExec: send at once if the queue is empty, and enqueue after that; else just enqueue. */
  function Submit<T>(c: Channel<T>, x: T): Channel<T> {
    if c.queue == [] then StartSend(c, x).(adding := Some(x)) else Enqueue(c, x)
  }

  function Enqueue<T>(c: Channel<T>, x: T): Channel<T> {
    c.(queue := c.queue + [x], pending := c.pending + 1, accepted := c.accepted + [x], adding := None)
  }

  /** A completion event reaches the main thread. */
  function Deliver<T>(c: Channel<T>): Channel<T>
    requires c.posted != []
  {
    c.(posted := c.posted[1..], handling := true)
  }

  /** The head has been dealt with: remove it, and send the next one if there is one and go. */
  function Finish<T>(c: Channel<T>, go: bool): Channel<T>
    requires c.queue != []
  {
    var rest := c.(queue := c.queue[1..], pending := c.pending - 1, finished := c.finished + [c.queue[0]],
                   handling := false);
    if rest.queue != [] && go then StartSend(rest, rest.queue[0]) else rest
  }

  // ----- the invariant

  /** The queue, with the item that is about to join it. */
  function Ahead<T>(c: Channel<T>): seq<T> {
    c.queue + (if c.adding.Some? then [c.adding.value] else [])
  }

  /** The worker sleeps and has nothing to wake up for. */
  predicate Asleep<T>(c: Channel<T>) {
    c.pc == WaitSignal && !c.signalled
  }

  /** The head is on its way to the worker. */
  predicate BeingSent<T(==)>(c: Channel<T>, x: T, stage: Stage) {
    && Ahead(c) != [] && x == Ahead(c)[0]
    && Asleep(c) && c.posted == [] && !c.handling && c.executed == c.finished
    && c.done == (stage != Signal)
    && c.trigger == (stage == StoreDone || stage == Signal)
    && (stage != TestDone && stage != StoreItem ==> c.item == Some(x))
  }

  /** The worker holds the head. */
  predicate AtWork<T(==)>(c: Channel<T>) {
    && Ahead(c) != [] && c.item == Some(Ahead(c)[0])
    && c.posted == [] && !c.handling
    && c.signalled == (c.pc == WaitSignal || c.pc == ResetSignal)
    && c.trigger == (c.pc == WaitSignal || c.pc == ResetSignal || c.pc == TestTrigger || c.pc == ClearTrigger)
    && c.done == (c.pc == Post)
    && c.executed == c.finished + (if c.pc == SetDone || c.pc == Post then [Ahead(c)[0]] else [])
    && (c.pc == SetDone || c.pc == Post ==> c.result == Some(Ahead(c)[0]))
  }

  /** The head is done; its completion event is posted or being handled. */
  predicate Completed<T(==)>(c: Channel<T>) {
    && Ahead(c) != [] && Asleep(c) && c.done && !c.trigger
    && (if c.handling then c.posted == [] && c.queue != [] else c.posted == [Ahead(c)[0]])
    && c.executed == c.finished + [Ahead(c)[0]]
    && c.result == Some(Ahead(c)[0])
  }

  /** Nothing is in flight; then nothing waits, unless the worker has failed. */
  predicate AtRest<T(==)>(c: Channel<T>) {
    && Asleep(c) && c.done && !c.trigger && c.posted == [] && !c.handling
    && c.executed == c.finished
    && (Ahead(c) == [] || c.fail)
  }

  predicate Fine<T(==)>(c: Channel<T>) {
    && c.pending == |c.queue| && c.accepted == c.finished + c.queue && c.refused == 0
    && (c.adding.Some? ==> c.queue == [])
    && match c.sending
       case Some(s) => BeingSent(c, s.0, s.1)
       case None => AtWork(c) || Completed(c) || (AtRest(c) && c.adding.None?)
  }

  // ----- every step keeps it

  lemma NewFine<T>()
    ensures Fine(New<T>())
  {
  }

  lemma WorkerKeepsFine<T>(c: Channel<T>, ok: bool)
    requires Fine(c)
    ensures Fine(WorkerStep(c, ok))
    ensures var d := WorkerStep(c, ok);
            (d.queue, d.sending, d.adding, d.accepted, d.finished, d.handling)
              == (c.queue, c.sending, c.adding, c.accepted, c.finished, c.handling)
    ensures ok ==> WorkerStep(c, ok).fail == c.fail
  {
    match c.pc {
      case WaitSignal =>
      case ResetSignal => assert WorkerStep(c, ok) == c.(signalled := false, pc := TestTrigger);
      case TestTrigger =>
      case ClearTrigger => assert WorkerStep(c, ok) == c.(trigger := false, pc := Execute);
      case Execute =>
      case SetDone => assert WorkerStep(c, ok) == c.(done := true, pc := Post);
      case Post =>
    }
  }

  lemma WorkerExecutes<T>(c: Channel<T>, ok: bool)
    ensures c.executed <= WorkerStep(c, ok).executed
  {
  }

  lemma SendExecutes<T>(c: Channel<T>)
    requires c.sending.Some?
    ensures SendStep(c).executed == c.executed && SendStep(c).fail == c.fail
  {
  }

  /** SetNotif never finds its worker busy, and no step of the worker gets between its steps. */
  lemma SendKeepsFine<T>(c: Channel<T>)
    requires Fine(c) && c.sending.Some?
    ensures Fine(SendStep(c))
    ensures var d := SendStep(c);
            && d.queue == c.queue && d.adding == c.adding && d.accepted == c.accepted && d.executed == c.executed
            && d.finished == c.finished && d.handling == c.handling && d.posted == c.posted && d.fail == c.fail
  {
  }

  lemma SubmitKeepsFine<T>(c: Channel<T>, x: T)
    requires Fine(c) && c.sending.None? && c.adding.None?
    ensures Fine(Submit(c, x))
  {
    assert c.finished + c.queue + [x] == c.finished + (c.queue + [x]);
  }

  /** Enqueuing the item that was sent. */
  lemma AddKeepsFine<T>(c: Channel<T>)
    requires Fine(c) && c.sending.None? && c.adding.Some?
    ensures Fine(Enqueue(c, c.adding.value))
  {
    assert c.finished + c.queue + [c.adding.value] == c.finished + (c.queue + [c.adding.value]);
    assert Ahead(Enqueue(c, c.adding.value)) == Ahead(c);
  }

  lemma DeliverKeepsFine<T>(c: Channel<T>)
    requires Fine(c) && c.posted != [] && c.sending.None? && c.adding.None?
    ensures Fine(Deliver(c))
    ensures c.queue != [] && c.posted[0] == c.queue[0]
  {
  }

  lemma FinishKeepsFine<T>(c: Channel<T>, go: bool)
    requires Fine(c) && c.handling && c.sending.None? && c.adding.None? && (!go ==> c.fail)
    ensures c.queue != [] && Fine(Finish(c, go))
  {
    assert c.finished + c.queue == c.finished + [c.queue[0]] + c.queue[1..];
  }

  /** A transaction that fails, and only that, makes the worker fail. */
  lemma WorkerFails<T>(c: Channel<T>, ok: bool)
    ensures WorkerStep(c, ok).fail <==> c.fail || (c.pc == Execute && !ok)
  {
  }

  // ----- progress

  /** The steps that are left until the completion event of the item in flight is delivered. */
  function Way<T>(c: Channel<T>): nat {
    match c.sending
    case Some((_, stage)) => 8 + (match stage
                                  case TestDone => 5
                                  case StoreItem => 4
                                  case StoreTrigger => 3
                                  case StoreDone => 2
                                  case Signal => 1)
    case None => match c.pc
      case WaitSignal => if c.signalled then 8 else if c.posted != [] then 1 else 0
      case ResetSignal => 7
      case TestTrigger => 6
      case ClearTrigger => 5
      case Execute => 4
      case SetDone => 3
      case Post => 2
  }

  lemma WorkerAdvances<T>(c: Channel<T>, ok: bool)
    requires Fine(c) && c.sending.None? && AtWork(c)
    ensures Way(WorkerStep(c, ok)) < Way(c)
  {
  }

  lemma SendAdvances<T>(c: Channel<T>)
    requires Fine(c) && c.sending.Some?
    ensures Way(SendStep(c)) < Way(c)
  {
  }

  lemma DeliverAdvances<T>(c: Channel<T>)
    requires Fine(c) && c.sending.None? && c.posted != []
    ensures Way(Deliver(c)) == 0 && Way(c) == 1
  {
  }

  /** Finishing the head may start to send the next item. */
  lemma FinishAdvances<T>(c: Channel<T>, go: bool)
    requires Fine(c) && c.handling && c.sending.None? && c.adding.None?
    ensures c.queue != [] && Way(Finish(c, go)) <= 13 && |Ahead(Finish(c, go))| == |Ahead(c)| - 1
  {
  }

  lemma FailKeepsFine<T>(c: Channel<T>)
    requires Fine(c)
    ensures Fine(c.(fail := true))
  {
  }
}
