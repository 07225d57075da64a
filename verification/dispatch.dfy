/** The Dispatcher of src/common/dispatch.cpp: a writer thread and a waiter thread, each with
    its queue. A delayed notification waits in the second and then joins the first. The main
    thread handles one request or one completion event at a time; the steps of SetNotif
    interleave with those of both workers. */
module Dispatch {
  import opened Wrappers
  import opened WorkerChannel

  /** A NotificationData instance: its identity and what it carries. */
  datatype Notification<T> = Notification(id: nat, load: T)

  /** What the main thread is in the middle of. */
  datatype Main<T> =
    | Ready
    | AddingWrite(n: Notification<T>)  // SetNotif of the writer, then enqueue n
    | AddingWait(n: Notification<T>)   // SetNotif of the waiter, then enqueue n
    | ResendingWrite                   // SetNotif of the writer with the next head
    | Forwarding(n: Notification<T>)   // SetNotif of the waiter with the next head, then n to the writer

  datatype State<T> = State(write: Channel<Notification<T>>, wait: Channel<Notification<T>>,
                            main: Main<T>, next: nat,
                            asserts: nat)       // failures of the asserts in notificationEvent

  datatype Action<T> =
    | Writer(ok: bool)        // a step of the writer, and how its transaction ends
    | Waiter                  // a step of the waiter
    | ConnectFails            // the connector thread sets fFail
    | Call(load: T, delayed: bool)  // a call of DoExec
    | WriteDone               // delivery of a writer's event
    | WaitDone                // delivery of a waiter's event
    | Continue                // the main thread goes on with what it is doing

  /** DoExec. */
  function DoExec<T>(s: State<T>, load: T, delayed: bool): State<T> {
    var n := Notification(s.next, load);
    var t := s.(next := s.next + 1);
    if delayed then
      t.(wait := Submit(s.wait, n), main := if s.wait.queue == [] then AddingWait(n) else Ready)
    else
      t.(write := Submit(s.write, n), main := if s.write.queue == [] then AddingWrite(n) else Ready)
  }

  /** notificationEvent for END_WRITE_NOTIF. */
  function WriteEnds<T(==)>(s: State<T>): State<T>
    requires s.write.posted != []
  {
    var c := Deliver(s.write);
    if c.queue == [] then s.(write := c.(handling := false))
    else
      s.(write := Finish(c, !c.fail), main := ResendingWrite,
         asserts := if c.queue[0] == s.write.posted[0] then s.asserts else s.asserts + 1)
  }

  /** notificationEvent for END_WAIT_NOTIF, up to the forwarding of a copy. */
  function WaitEnds<T(==)>(s: State<T>): State<T>
    requires s.wait.posted != []
  {
    var c := Deliver(s.wait);
    if c.queue == [] then s.(wait := c.(handling := false))
    else
      s.(wait := Finish(c, !c.fail), next := s.next + 1,
         main := Forwarding(Notification(s.next, s.wait.posted[0].load)),
         asserts := if c.queue[0] == s.wait.posted[0] then s.asserts else s.asserts + 1)
  }

  /** The end of END_WAIT_NOTIF: send the copy if the writer has nothing to do and is well,
      and enqueue it. */
  function Forward<T>(s: State<T>, n: Notification<T>): State<T> {
    if s.write.queue == [] && !s.write.fail
    then s.(write := StartSend(s.write, n).(adding := Some(n)), main := AddingWrite(n))
    else s.(write := Enqueue(s.write, n), main := Ready)
  }

  function GoOn<T>(s: State<T>): State<T> {
    match s.main
    case Ready => s
    case AddingWrite(n) =>
      if s.write.sending.Some? then s.(write := SendStep(s.write)) else s.(write := Enqueue(s.write, n), main := Ready)
    case AddingWait(n) =>
      if s.wait.sending.Some? then s.(wait := SendStep(s.wait)) else s.(wait := Enqueue(s.wait, n), main := Ready)
    case ResendingWrite => if s.write.sending.Some? then s.(write := SendStep(s.write)) else s.(main := Ready)
    case Forwarding(n) => if s.wait.sending.Some? then s.(wait := SendStep(s.wait)) else Forward(s, n)
  }

  /** One step; requests and events wait until the main thread is ready. */
  function Step<T(==)>(s: State<T>, a: Action<T>): State<T> {
    match a
    case Writer(ok) => s.(write := WorkerStep(s.write, ok))
    case Waiter => s.(wait := WorkerStep(s.wait, true))
    case ConnectFails => s.(write := s.write.(fail := true))
    case Call(load, delayed) => if s.main.Ready? then DoExec(s, load, delayed) else s
    case WriteDone => if s.main.Ready? && s.write.posted != [] then WriteEnds(s) else s
    case WaitDone => if s.main.Ready? && s.wait.posted != [] then WaitEnds(s) else s
    case Continue => GoOn(s)
  }

  function Run<T(==)>(actions: seq<Action<T>>): State<T> {
    if actions == [] then State(New(), New(), Ready, 0, 0)
    else Step(Run(actions[..|actions| - 1]), actions[|actions| - 1])
  }

  // ----- the invariant

  /** What the main thread is doing agrees with the two channels. */
  ghost predicate MainFits<T>(s: State<T>) {
    && s.write.adding == (if s.main.AddingWrite? then Some(s.main.n) else None)
    && s.wait.adding == (if s.main.AddingWait? then Some(s.main.n) else None)
    && (s.write.sending.Some? ==> s.main.AddingWrite? || s.main.ResendingWrite?)
    && (s.wait.sending.Some? ==> s.main.AddingWait? || s.main.Forwarding?)
    && !s.write.handling && !s.wait.handling && !s.wait.fail
    && s.asserts == 0
  }

  /** Instances enter a queue in the order they were made, so none enters twice. */
  ghost predicate Fresh<T>(accepted: seq<Notification<T>>, bound: nat) {
    && (forall i, j :: 0 <= i < j < |accepted| ==> accepted[i].id < accepted[j].id)
    && (forall i :: 0 <= i < |accepted| ==> accepted[i].id < bound)
  }

  /** Whether the main thread has an instance in hand that it has not enqueued yet. */
  predicate Holding<T>(m: Main<T>) {
    m.AddingWrite? || m.AddingWait? || m.Forwarding?
  }

  /** An instance in hand is younger than all that were enqueued. */
  ghost predicate InHand<T>(s: State<T>) {
    && (Holding(s.main) ==> s.main.n.id < s.next)
    && Fresh(s.write.accepted, if Holding(s.main) then s.main.n.id else s.next)
    && Fresh(s.wait.accepted, if Holding(s.main) then s.main.n.id else s.next)
  }

  ghost predicate Inv<T>(s: State<T>) {
    Fine(s.write) && Fine(s.wait) && MainFits(s) && InHand(s)
  }

  lemma FreshAdd<T>(accepted: seq<Notification<T>>, n: Notification<T>, bound: nat)
    requires Fresh(accepted, n.id) && n.id < bound
    ensures Fresh(accepted + [n], bound)
  {
  }

  // ----- every step keeps it

  lemma WorkersKeep<T>(s: State<T>, a: Action<T>)
    requires Inv(s) && (a.Writer? || a.Waiter? || a.ConnectFails?)
    ensures Inv(Step(s, a))
  {
    hide Fine, WorkerStep, Fresh;
    match a {
      case Writer(ok) => WorkerKeepsFine(s.write, ok);
      case Waiter => WorkerKeepsFine(s.wait, true);
      case _ => FailKeepsFine(s.write);
    }
  }

  lemma DoExecKeeps<T>(s: State<T>, load: T, delayed: bool)
    requires Inv(s) && s.main.Ready?
    ensures Inv(DoExec(s, load, delayed))
  {
    hide Fine, Fresh;
    var n := Notification(s.next, load);
    FreshGrows(s.write.accepted, s.next, s.next + 1);
    FreshGrows(s.wait.accepted, s.next, s.next + 1);
    if delayed {
      SubmitKeepsFine(s.wait, n);
      FreshAdd(s.wait.accepted, n, s.next + 1);
      } else {
      SubmitKeepsFine(s.write, n);
      FreshAdd(s.write.accepted, n, s.next + 1);
      }
  }

  lemma FreshGrows<T>(accepted: seq<Notification<T>>, a: nat, b: nat)
    requires Fresh(accepted, a) && a <= b
    ensures Fresh(accepted, b)
  {
  }

  lemma WriteEndsKeeps<T>(s: State<T>)
    requires Inv(s) && s.main.Ready? && s.write.posted != []
    ensures Inv(WriteEnds(s))
  {
    hide Fine, Fresh;
    var c := Deliver(s.write);
    DeliverKeepsFine(s.write);
    FinishKeepsFine(c, !c.fail);
  }

  lemma WaitEndsKeeps<T>(s: State<T>)
    requires Inv(s) && s.main.Ready? && s.wait.posted != []
    ensures Inv(WaitEnds(s))
  {
    hide Fine, Fresh;
    var c := Deliver(s.wait);
    DeliverKeepsFine(s.wait);
    FinishKeepsFine(c, !c.fail);
    FreshGrows(s.write.accepted, s.next, s.next + 1);
    FreshGrows(s.wait.accepted, s.next, s.next + 1);
  }

  lemma ForwardKeeps<T>(s: State<T>, n: Notification<T>)
    requires Inv(s) && s.main == Forwarding(n) && s.wait.sending.None?
    ensures Inv(Forward(s, n))
  {
    hide Fine, Fresh;
    ForwardFine(s.write, n);
    FreshAdd(s.write.accepted, n, s.next);
    FreshGrows(s.wait.accepted, n.id, s.next);
  }

  lemma ForwardFine<T>(c: Channel<T>, n: T)
    requires Fine(c) && c.sending.None? && c.adding.None?
    ensures if c.queue == [] && !c.fail then Fine(StartSend(c, n).(adding := Some(n))) else Fine(Enqueue(c, n))
  {
    assert c.finished + c.queue + [n] == c.finished + (c.queue + [n]);
  }

  lemma GoOnKeeps<T>(s: State<T>)
    requires Inv(s)
    ensures Inv(GoOn(s))
  {
    hide Fine, Fresh, SendStep, Forward;
    match s.main {
      case Ready =>
      case AddingWrite(n) => AddWriteKeeps(s, n);
      case AddingWait(n) => AddWaitKeeps(s, n);
      case ResendingWrite => ResendKeeps(s);
      case Forwarding(n) => ForwardingKeeps(s, n);
    }
  }

  lemma AddWriteKeeps<T>(s: State<T>, n: Notification<T>)
    requires Inv(s) && s.main == AddingWrite(n)
    ensures Inv(GoOn(s))
  {
    hide Fine, Fresh, SendStep;
    if s.write.sending.Some? {
      SendKeepsFine(s.write);
    } else {
      AddKeepsFine(s.write);
      FreshAdd(s.write.accepted, n, s.next);
      FreshGrows(s.wait.accepted, n.id, s.next);
      }
  }

  lemma AddWaitKeeps<T>(s: State<T>, n: Notification<T>)
    requires Inv(s) && s.main == AddingWait(n)
    ensures Inv(GoOn(s))
  {
    hide Fine, Fresh, SendStep;
    if s.wait.sending.Some? {
      SendKeepsFine(s.wait);
    } else {
      AddKeepsFine(s.wait);
      FreshAdd(s.wait.accepted, n, s.next);
      FreshGrows(s.write.accepted, n.id, s.next);
      }
  }

  lemma ResendKeeps<T>(s: State<T>)
    requires Inv(s) && s.main == ResendingWrite
    ensures Inv(GoOn(s))
  {
    hide Fine, Fresh, SendStep;
    if s.write.sending.Some? {
      SendKeepsFine(s.write);
    }
  }

  lemma ForwardingKeeps<T>(s: State<T>, n: Notification<T>)
    requires Inv(s) && s.main == Forwarding(n)
    ensures Inv(GoOn(s))
  {
    hide Fine, Fresh, Forward, SendStep;
    if s.wait.sending.Some? {
      SendKeepsFine(s.wait);
    } else {
      ForwardKeeps(s, n);
    }
  }

  lemma StepKeeps<T>(s: State<T>, a: Action<T>)
    requires Inv(s)
    ensures Inv(Step(s, a))
  {
    hide Inv, WriteEnds, WaitEnds, DoExec, GoOn;
    match a {
      case Call(load, delayed) => if s.main.Ready? { DoExecKeeps(s, load, delayed); }
      case WriteDone => if s.main.Ready? && s.write.posted != [] { WriteEndsKeeps(s); }
      case WaitDone => if s.main.Ready? && s.wait.posted != [] { WaitEndsKeeps(s); }
      case Continue => GoOnKeeps(s);
      case _ => WorkersKeep(s, a);
    }
  }

  lemma {:induction false} RunsKeep<T>(actions: seq<Action<T>>)
    ensures Inv(Run(actions))
    decreases |actions|
  {
    if actions == [] {
      NewFine<Notification<T>>();
    } else {
      RunsKeep(actions[..|actions| - 1]);
      StepKeeps(Run(actions[..|actions| - 1]), actions[|actions| - 1]);
    }
  }

  // ----- every request, and no other

  /** What DoExec was asked to send, with a delay or without, in order. */
  function Requested<T(==)>(actions: seq<Action<T>>, delayed: bool): seq<T> {
    if actions == [] then []
    else
      var front, last := actions[..|actions| - 1], actions[|actions| - 1];
      Requested(front, delayed) +
      (if last.Call? && last.delayed == delayed && Run(front).main.Ready? then [last.load] else [])
  }

  function Loads<T>(ns: seq<Notification<T>>): seq<T> {
    seq(|ns|, i requires 0 <= i < |ns| => ns[i].load)
  }

  /** What has joined the writer's queue or is about to. */
  function ToWrite<T>(s: State<T>): seq<T> {
    Loads(s.write.accepted) + (if s.main.AddingWrite? || s.main.Forwarding? then [s.main.n.load] else [])
  }

  /** What has joined the waiter's queue or is about to. */
  function ToWait<T>(s: State<T>): seq<T> {
    Loads(s.wait.accepted) + (if s.main.AddingWait? then [s.main.n.load] else [])
  }

  /** all is made of a and b, each in its order. */
  predicate Merges<T(==)>(all: seq<T>, a: seq<T>, b: seq<T>) {
    if all == [] then a == [] && b == []
    else
      var n, x := |all| - 1, all[|all| - 1];
      || (a != [] && a[|a| - 1] == x && Merges(all[..n], a[..|a| - 1], b))
      || (b != [] && b[|b| - 1] == x && Merges(all[..n], a, b[..|b| - 1]))
  }

  lemma MergesAdd<T>(all: seq<T>, a: seq<T>, b: seq<T>, x: T)
    requires Merges(all, a, b)
    ensures Merges(all + [x], a + [x], b) && Merges(all + [x], a, b + [x])
  {
    assert (all + [x])[..|all|] == all && (a + [x])[..|a|] == a && (b + [x])[..|b|] == b;
  }

  lemma LoadsAdd<T>(ns: seq<Notification<T>>, n: Notification<T>)
    ensures Loads(ns + [n]) == Loads(ns) + [n.load]
  {
  }

  function Called<T>(s: State<T>, a: Action<T>, delayed: bool): seq<T> {
    if a.Call? && a.delayed == delayed && s.main.Ready? then [a.load] else []
  }

  /** What a step adds: a request to the queue it is for, and what has waited to the writer's. */
  lemma StepConserves<T>(s: State<T>, a: Action<T>)
    requires Inv(s)
    ensures var u := Step(s, a);
            && ToWait(u) == ToWait(s) + Called(s, a, true)
            && (u.wait.finished == s.wait.finished || (Called(s, a, false) == [] && s.wait.queue != []
                                                       && u.wait.finished == s.wait.finished + [s.wait.queue[0]]))
            && ToWrite(u) == ToWrite(s) + Called(s, a, false) + Loads(u.wait.finished[|s.wait.finished|..])
  {
    hide Fresh, Loads, Fine, InHand, WorkerStep;
    NoLoads<T>();
    assert s.wait.finished[|s.wait.finished|..] == [];
    assert ToWrite(s) + [] == ToWrite(s) && ToWait(s) + [] == ToWait(s);
    match a {
      case Writer(ok) => WorkerKeepsFine(s.write, ok);
      case Waiter => WorkerKeepsFine(s.wait, true);
      case ConnectFails =>
      case Call(load, delayed) => if s.main.Ready? { CallConserves(s, load, delayed); }
      case WriteDone =>
      case WaitDone => if s.main.Ready? && s.wait.posted != [] { WaitEndsConserves(s); }
      case Continue => GoOnConserves(s);
    }
  }

  lemma NoLoads<T>()
    ensures Loads<T>([]) == []
  {
  }

  lemma CallConserves<T>(s: State<T>, load: T, delayed: bool)
    requires s.main.Ready?
    ensures var u := DoExec(s, load, delayed);
            && u.wait.finished == s.wait.finished && u.wait.finished[|s.wait.finished|..] == []
            && ToWait(u) == ToWait(s) + (if delayed then [load] else [])
            && ToWrite(u) == ToWrite(s) + (if delayed then [] else [load])
  {
    hide Loads;
    LoadsAdd(s.wait.accepted, Notification(s.next, load));
    LoadsAdd(s.write.accepted, Notification(s.next, load));
  }

  lemma WaitEndsConserves<T>(s: State<T>)
    requires Inv(s) && s.main.Ready? && s.wait.posted != []
    ensures var u := WaitEnds(s);
            && ToWait(u) == ToWait(s) && s.wait.queue != []
            && u.wait.finished == s.wait.finished + [s.wait.queue[0]]
            && ToWrite(u) == ToWrite(s) + Loads(u.wait.finished[|s.wait.finished|..])
  {
    DeliverKeepsFine(s.wait);
    hide Fine, Fresh;
    assert (s.wait.finished + [s.wait.queue[0]])[|s.wait.finished|..] == [s.wait.queue[0]];
  }

  lemma GoOnConserves<T>(s: State<T>)
    requires Inv(s)
    ensures var u := GoOn(s);
            && ToWait(u) == ToWait(s) && ToWrite(u) == ToWrite(s) && u.wait.finished == s.wait.finished
  {
    hide Loads, Fresh, SendStep, Fine;
    if s.write.sending.Some? {
      SendKeepsFine(s.write);
    }
    if s.wait.sending.Some? {
      SendKeepsFine(s.wait);
    }
    if Holding(s.main) {
      LoadsAdd(s.write.accepted, s.main.n);
      LoadsAdd(s.wait.accepted, s.main.n);
    }
  }

  /** In every run: what joined the waiter's queue, with what is in hand, is what was requested
      with a delay, in order; what joined the writer's is what was requested without and what
      has waited, each in its order. */
  lemma {:induction false} NothingLost<T>(actions: seq<Action<T>>)
    ensures var s := Run(actions);
            && ToWait(s) == Requested(actions, true)
            && Merges(ToWrite(s), Requested(actions, false), Loads(s.wait.finished))
            && s.wait.accepted == s.wait.finished + s.wait.queue
    decreases |actions|
  {
    RunsKeep(actions);
    if actions != [] {
      var front, last := actions[..|actions| - 1], actions[|actions| - 1];
      NothingLost(front);
      RunsKeep(front);
      StepConserves(Run(front), last);
      MergedBy(Run(front), Run(actions), last, Requested(front, false));
    }
  }

  lemma MergedBy<T>(s: State<T>, u: State<T>, a: Action<T>, direct: seq<T>)
    requires Merges(ToWrite(s), direct, Loads(s.wait.finished))
    requires u.wait.finished == s.wait.finished
             || (Called(s, a, false) == [] && s.wait.queue != []
                 && u.wait.finished == s.wait.finished + [s.wait.queue[0]])
    requires ToWrite(u) == ToWrite(s) + Called(s, a, false) + Loads(u.wait.finished[|s.wait.finished|..])
    ensures Merges(ToWrite(u), direct + Called(s, a, false), Loads(u.wait.finished))
  {
    NoLoads<T>();
    hide Merges, ToWrite;
    if u.wait.finished != s.wait.finished {
      var n := s.wait.queue[0];
      assert u.wait.finished[|s.wait.finished|..] == [n];
      LoadsAdd(s.wait.finished, n);
      assert Loads([n]) == [n.load];
      MergesAdd(ToWrite(s), direct, Loads(s.wait.finished), n.load);
      assert ToWrite(u) == ToWrite(s) + [n.load] && direct + Called(s, a, false) == direct;
    } else {
      assert u.wait.finished[|s.wait.finished|..] == [];
      if Called(s, a, false) != [] {
        MergesAdd(ToWrite(s), direct, Loads(s.wait.finished), a.load);
        assert ToWrite(u) == ToWrite(s) + [a.load];
      } else {
        assert ToWrite(u) == ToWrite(s) && direct + [] == direct;
      }
    }
  }

  /** Whether the connector or a transaction has failed in a run. */
  function Failed<T(==)>(actions: seq<Action<T>>): bool {
    actions != [] &&
    var front, last := actions[..|actions| - 1], actions[|actions| - 1];
    || Failed(front) || last.ConnectFails?
    || (last.Writer? && !last.ok && Run(front).write.pc == Execute)
  }

  /** The writer has failed if and only if something did. */
  lemma {:induction false} FailsExactly<T>(actions: seq<Action<T>>)
    ensures Run(actions).write.fail <==> Failed(actions)
    decreases |actions|
  {
    if actions != [] {
      FailsExactly(actions[..|actions| - 1]);
      StepFails(Run(actions[..|actions| - 1]), actions[|actions| - 1]);
    }
  }

  lemma StepFails<T>(s: State<T>, a: Action<T>)
    ensures Step(s, a).write.fail <==>
            s.write.fail || a.ConnectFails? || (a.Writer? && !a.ok && s.write.pc == Execute)
  {
    match a {
      case Writer(ok) => WorkerFails(s.write, ok);
      case Continue => GoOnExecutes(s);
      case _ => assert Step(s, a).write.fail == (s.write.fail || a.ConnectFails?) by { hide GoOn, WorkerStep; }
    }
  }

  // ----- and every request is executed, unless a failure stops the writer

  /** The steps left until nothing is queued, if no more is requested. */
  function Rank<T(==)>(s: State<T>): nat {
    60 * |Ahead(s.wait)| + 20 * |Ahead(s.write)| + Way(s.wait) + Way(s.write) +
    match s.main
    case Ready => 0
    case Forwarding(_) => 36
    case _ => 1
  }

  /** Nothing is queued or in hand, or what is queued is stuck behind a failure. */
  predicate Done<T(==)>(s: State<T>) {
    s.main.Ready? && s.wait.queue == [] && (s.write.queue == [] || (s.write.fail && AtRest(s.write)))
  }

  /** A step that brings the end nearer. */
  function Next<T(==)>(s: State<T>): Action<T> {
    if !s.main.Ready? then Continue
    else if s.write.posted != [] then WriteDone
    else if s.wait.posted != [] then WaitDone
    else if AtWork(s.write) then Writer(true)
    else Waiter
  }

  lemma NextAdvances<T>(s: State<T>)
    requires Inv(s) && !Done(s)
    ensures Rank(Step(s, Next(s))) < Rank(s)
  {
    hide InHand, Fresh;
    match Next(s) {
      case Continue => ContinueAdvances(s);
      case WriteDone =>
        DeliverAdvances(s.write);
        DeliverKeepsFine(s.write);
        FinishAdvances(Deliver(s.write), !s.write.fail);
      case WaitDone =>
        DeliverAdvances(s.wait);
        DeliverKeepsFine(s.wait);
        FinishAdvances(Deliver(s.wait), !s.wait.fail);
      case Writer(_) =>
        WorkerAdvances(s.write, true);
        WorkerKeepsFine(s.write, true);
      case _ =>
        WorkerAdvances(s.wait, true);
        WorkerKeepsFine(s.wait, true);
    }
  }

  lemma ContinueAdvances<T>(s: State<T>)
    requires Inv(s) && !s.main.Ready?
    ensures Rank(GoOn(s)) < Rank(s)
  {
    hide Fresh, InHand, SendStep, AtWork, Completed, AtRest, BeingSent;
    if s.write.sending.Some? {
      SendAdvances(s.write);
      SendKeepsFine(s.write);
    }
    if s.wait.sending.Some? {
      SendAdvances(s.wait);
      SendKeepsFine(s.wait);
    }
  }

  predicate Helps<T>(a: Action<T>) {
    !a.Call? && !a.ConnectFails? && (a.Writer? ==> a.ok)
  }

  predicate Helpful<T>(actions: seq<Action<T>>) {
    forall i :: 0 <= i < |actions| ==> Helps(actions[i])
  }

  lemma NextHelps<T>(s: State<T>)
    ensures Helps(Next(s))
  {
  }

  lemma RunOn<T>(actions: seq<Action<T>>, a: Action<T>)
    ensures Run(actions + [a]) == Step(Run(actions), a)
    ensures Helps(a) ==> Failed(actions + [a]) == Failed(actions)
    ensures Helps(a) ==> forall d :: Requested(actions + [a], d) == Requested(actions, d)
  {
    assert (actions + [a])[..|actions|] == actions;
    forall d
      ensures Helps(a) ==> Requested(actions + [a], d) == Requested(actions, d)
    {
      assert Requested(actions + [a], d) == Requested(actions, d) + Called(Run(actions), a, d);
    }
  }

  /** The run has come to its end: all that was to wait has waited, and, if nothing failed, all
      that was requested has been executed by the writer. */
  ghost predicate Settled<T>(actions: seq<Action<T>>, direct: seq<T>, delayed: seq<T>, failed: bool) {
    var s := Run(actions);
    && Done(s) && Loads(s.wait.finished) == Loads(s.wait.executed) == delayed
    && Merges(Loads(s.write.accepted), direct, delayed)
    && s.write.executed == s.write.finished
    && (!failed ==> s.write.executed == s.write.accepted)
  }

  ghost predicate CanSettle<T(!new)>(actions: seq<Action<T>>, direct: seq<T>, delayed: seq<T>, failed: bool) {
    exists more :: Helpful(more) && Settled(actions + more, direct, delayed, failed)
  }

  lemma CanSettleNow<T(!new)>(actions: seq<Action<T>>, direct: seq<T>, delayed: seq<T>, failed: bool)
    requires Settled(actions, direct, delayed, failed)
    ensures CanSettle(actions, direct, delayed, failed)
  {
    hide Settled;
    assert actions + [] == actions && Helpful<T>([]);
  }

  lemma CanSettleBefore<T(!new)>(actions: seq<Action<T>>, a: Action<T>, direct: seq<T>, delayed: seq<T>, failed: bool)
    requires CanSettle(actions + [a], direct, delayed, failed) && Helps(a)
    ensures CanSettle(actions, direct, delayed, failed)
  {
    hide Settled, Helps;
    var more :| Helpful(more) && Settled(actions + [a] + more, direct, delayed, failed);
    assert actions + ([a] + more) == actions + [a] + more;
    assert Helpful([a] + more);
  }

  /** From every reachable state the steps of the workers and the main thread alone can bring
      every request to its end. */
  lemma {:induction false} EveryRequestSettles<T(!new)>(actions: seq<Action<T>>)
    ensures CanSettle(actions, Requested(actions, false), Requested(actions, true), Failed(actions))
    decreases Rank(Run(actions))
  {
    var s := Run(actions);
    RunsKeep(actions);
    hide Run, Rank, Next, Settled, Inv, CanSettle, Step, Requested, Failed, Done, Helps;
    if Done(s) {
      DoneIsSettled(actions);
      CanSettleNow(actions, Requested(actions, false), Requested(actions, true), Failed(actions));
    } else {
      NextAdvances(s);
      NextHelps(s);
      RunOn(actions, Next(s));
      EveryRequestSettles(actions + [Next(s)]);
      CanSettleBefore(actions, Next(s), Requested(actions, false), Requested(actions, true), Failed(actions));
    }
  }

  lemma DoneIsSettled<T>(actions: seq<Action<T>>)
    requires Done(Run(actions))
    ensures Settled(actions, Requested(actions, false), Requested(actions, true), Failed(actions))
  {
    RunsKeep(actions);
    NothingLost(actions);
    FailsExactly(actions);
    hide Run, Requested, Failed, Merges, Loads, Fresh;
    var s := Run(actions);
    assert AtRest(s.wait) && AtRest(s.write);
    assert s.wait.finished + [] == s.wait.finished && s.write.finished + [] == s.write.finished;
    assert Loads(s.wait.accepted) + [] == Loads(s.wait.accepted);
    assert Loads(s.write.accepted) + [] == Loads(s.write.accepted);
  }

  // ----- what it means

  /** In every interleaving the asserts hold, the counters are the queue lengths, SetNotif
      never finds a worker busy, and what a worker has executed is what was removed from its
      queue, in queue order, or that and the present head; no instance is enqueued twice. */
  lemma RunsAreSound<T>(actions: seq<Action<T>>)
    ensures var s := Run(actions);
            && s.asserts == 0 && s.write.refused == 0 && s.wait.refused == 0
            && s.write.pending == |s.write.queue| && s.wait.pending == |s.wait.queue|
            && ExecutedInOrder(s.write) && ExecutedInOrder(s.wait)
            && Fresh(s.write.accepted, s.next) && Fresh(s.wait.accepted, s.next)
  {
    RunsKeep(actions);
    var s := Run(actions);
    hide Run;
    ExecutesHeads(s.write);
    ExecutesHeads(s.wait);
    if Holding(s.main) {
      FreshGrows(s.write.accepted, s.main.n.id, s.next);
      FreshGrows(s.wait.accepted, s.main.n.id, s.next);
    }
  }

  ghost predicate ExecutedInOrder<T>(c: Channel<T>) {
    && c.accepted == c.finished + c.queue
    && (c.executed == c.finished || (Ahead(c) != [] && c.executed == c.finished + [Ahead(c)[0]]))
  }

  lemma ExecutesHeads<T>(c: Channel<T>)
    requires Fine(c)
    ensures ExecutedInOrder(c)
  {
  }

  /** A notification that joins a queue that is empty is sent, even after a failure. */
  lemma FirstIsSent<T>(actions: seq<Action<T>>)
    requires Run(actions).main.AddingWrite? || Run(actions).main.AddingWait?
    ensures var s := Run(actions);
            var c := if s.main.AddingWrite? then s.write else s.wait;
            c.queue == [] && (c.sending.Some? || AtWork(c) || Completed(c)) && Ahead(c) == [s.main.n]
  {
    RunsKeep(actions);
    hide Run;
  }

  /** Unless its worker has failed, a queue that is not empty has its head in flight. */
  lemma NeverStuck<T>(actions: seq<Action<T>>)
    requires Run(actions).main.Ready?
    ensures var s := Run(actions);
            && (s.write.queue != [] && !s.write.fail ==> AtWork(s.write) || Completed(s.write))
            && (s.wait.queue != [] ==> AtWork(s.wait) || Completed(s.wait))
  {
    RunsKeep(actions);
    hide Run;
  }

  // ----- after a failure of the writer

  /** What of a channel's queue is not on its way to the worker. */
  function Behind<T(==)>(c: Channel<T>): seq<T> {
    if c.queue == [] then [] else if AtRest(c) && c.sending.None? then c.queue else c.queue[1..]
  }

  /** The worker has failed; it may still do the items of done, but those of stuck stay queued. */
  ghost predicate Stalled<T>(c: Channel<T>, done: seq<T>, stuck: seq<T>) {
    && c.fail && stuck != [] && c.adding.None?
    && if done == c.finished then AtRest(c) && c.sending.None? && stuck <= c.queue
       else c.queue != [] && done == c.finished + [c.queue[0]] && stuck <= c.queue[1..]
  }

  lemma StalledStays<T>(s: State<T>, a: Action<T>, done: seq<Notification<T>>, stuck: seq<Notification<T>>)
    requires Inv(s) && Stalled(s.write, done, stuck)
    ensures Stalled(Step(s, a).write, done, stuck)
  {
    hide Fresh, InHand;
    match a {
      case Writer(ok) => WorkerKeepsFine(s.write, ok);
      case Continue => if s.main.ResendingWrite? && s.write.sending.Some? { SendKeepsFine(s.write); }
      case WriteDone => if s.main.Ready? && s.write.posted != [] { StalledEnds(s.write, done, stuck); }
      case _ =>
    }
  }

  lemma StalledEnds<T>(c: Channel<T>, done: seq<T>, stuck: seq<T>)
    requires Fine(c) && Stalled(c, done, stuck) && c.posted != [] && c.sending.None?
    ensures Stalled(Finish(Deliver(c), !c.fail), done, stuck)
  {
    DeliverKeepsFine(c);
    FinishKeepsFine(Deliver(c), false);
  }

  /** The items that a failed worker may still do. */
  function MayFinish<T(==)>(c: Channel<T>): seq<T> {
    if c.queue == [] || Behind(c) == c.queue then c.finished else c.finished + [c.queue[0]]
  }

  lemma FailureStallsNow<T>(c: Channel<T>)
    requires Fine(c) && c.fail && Behind(c) != []
    ensures Stalled(c, MayFinish(c), Behind(c))
  {
    assert |c.finished + [c.queue[0]]| > |c.finished|;
  }

  lemma StalledMeans<T>(c: Channel<T>, done: seq<T>, stuck: seq<T>)
    requires Fine(c) && Stalled(c, done, stuck)
    ensures c.executed <= done && (stuck <= c.queue || (c.queue != [] && stuck <= c.queue[1..]))
  {
    ExecutesHeads(c);
  }

  /** Once the writer has failed, nothing of its queue is ever executed, apart from the head
      if that is in flight already: in every continuation of every run the rest stays queued. */
  lemma FailureStalls<T>(actions: seq<Action<T>>, more: seq<Action<T>>)
    requires Run(actions).write.fail && Behind(Run(actions).write) != []
    ensures var c, u := Run(actions).write, Run(actions + more).write;
            && c.executed <= u.executed <= MayFinish(c)
            && (Behind(c) <= u.queue || (u.queue != [] && Behind(c) <= u.queue[1..]))
  {
    RunsKeep(actions);
    RunsKeep(actions + more);
    var c := Run(actions).write;
    ExecutedGrows(actions, more);
    hide Run, Fine, Stalled, Behind, MayFinish;
    FailureStallsNow(c);
    StalledForEver(actions, more, MayFinish(c), Behind(c));
    StalledMeans(Run(actions + more).write, MayFinish(c), Behind(c));
  }

  /** A notification that has waited is not sent if the writer has failed meanwhile, now or ever
      after. */
  lemma ForwardedStalls<T>(actions: seq<Action<T>>, more: seq<Action<T>>)
    requires var s := Run(actions); s.main.Forwarding? && s.wait.sending.None? && s.write.fail
    ensures Run(actions).main.n !in Run(actions + [Continue] + more).write.executed
  {
    var s, n := Run(actions), Run(actions).main.n;
    RunsKeep(actions);
    RunOn(actions, Continue);
    var u := Run(actions + [Continue]);
    hide Run;
    ForwardedBehind(s.write, n);
    FailureStalls(actions + [Continue], more);
    assert n !in MayFinish(u.write) by { NotYetIn(s, n); }
  }

  lemma ForwardedBehind<T>(c: Channel<T>, n: T)
    requires Fine(c) && c.sending.None? && c.adding.None? && c.fail
    ensures var d := Enqueue(c, n); Behind(d) != [] && MayFinish(d) <= c.accepted
  {
  }

  lemma NotYetIn<T>(s: State<T>, n: Notification<T>)
    requires Inv(s) && s.main == Forwarding(n)
    ensures forall xs :: xs <= s.write.accepted ==> n !in xs
  {
  }

  lemma {:induction false} StalledForEver<T>(actions: seq<Action<T>>, more: seq<Action<T>>,
                                             done: seq<Notification<T>>, stuck: seq<Notification<T>>)
    requires Stalled(Run(actions).write, done, stuck)
    ensures Stalled(Run(actions + more).write, done, stuck)
    decreases |more|
  {
    if more == [] {
      assert actions + more == actions;
    } else {
      var n := |more| - 1;
      StalledForEver(actions, more[..n], done, stuck);
      RunsKeep(actions + more[..n]);
      assert (actions + more)[..|actions + more| - 1] == actions + more[..n];
      StalledStays(Run(actions + more[..n]), more[n], done, stuck);
    }
  }

  lemma StepExecutes<T>(s: State<T>, a: Action<T>)
    ensures s.write.executed <= Step(s, a).write.executed
  {
    match a {
      case Writer(ok) => WorkerExecutes(s.write, ok);
      case Continue => GoOnExecutes(s);
      case _ => assert Step(s, a).write.executed == s.write.executed by { hide GoOn, WorkerStep; }
    }
  }

  lemma GoOnExecutes<T>(s: State<T>)
    ensures GoOn(s).write.executed == s.write.executed && GoOn(s).write.fail == s.write.fail
  {
    hide SendStep;
    if s.write.sending.Some? {
      SendExecutes(s.write);
    }
  }

  lemma {:induction false} ExecutedGrows<T>(actions: seq<Action<T>>, more: seq<Action<T>>)
    ensures Run(actions).write.executed <= Run(actions + more).write.executed
    decreases |more|
  {
    if more == [] {
      assert actions + more == actions;
    } else {
      var n := |more| - 1;
      ExecutedGrows(actions, more[..n]);
      assert (actions + more)[..|actions + more| - 1] == actions + more[..n];
      assert Run(actions + more) == Step(Run(actions + more[..n]), more[n]);
      hide Run, Step;
      StepExecutes(Run(actions + more[..n]), more[n]);
    }
  }
}
