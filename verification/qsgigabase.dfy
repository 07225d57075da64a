/** The request side of src/database/qsgigabase.cpp over one worker (src/database/
    gigaclient.cpp): transactions queue up, one is with the worker, and its completion event
    emits TransactionDone, whose handlers may call DoExec again before the transaction is
    removed. A query that fails completes like any other. */
module QSGigabase {
  import opened Wrappers
  import opened WorkerChannel

  /** A QSTransaction instance: its identity and its command. */
  datatype Transaction<T> = Transaction(id: nat, cmd: T)

  /** What the main thread is in the middle of; in is whether it runs a handler of TransactionDone. */
  datatype Main<T> =
    | Ready(inside: bool)
    | Adding(x: Transaction<T>, inside: bool)  // SetQuery, then enqueue x
    | Resending                                // SetQuery with the next head

  datatype State<T> = State(c: Channel<Transaction<T>>, main: Main<T>, next: nat,
                            reported: seq<Transaction<T>>,  // TransactionDone signals, in order
                            stale: nat)                     // those with another transaction's result stored

  datatype Action<T> =
    | Worker             // a step of the worker
    | DoExec(cmd: T)     // a request, from outside or from a handler
    | Event              // a completion event is delivered
    | HandlersReturn     // emit returns
    | Continue           // the main thread goes on with SetQuery

  function Submitted<T>(s: State<T>, cmd: T): State<T>
    requires s.main.Ready?
  {
    var x := Transaction(s.next, cmd);
    s.(c := Submit(s.c, x), next := s.next + 1, main := if s.c.queue == [] then Adding(x, s.main.inside) else s.main)
  }

  /** event, up to the emission of TransactionDone. */
  function Reported<T(==)>(s: State<T>): State<T>
    requires s.c.posted != []
  {
    var c := Deliver(s.c);
    if c.queue == [] then s.(c := c.(handling := false))
    else s.(c := c, main := Ready(true), reported := s.reported + [c.queue[0]],
            stale := if c.result == Some(c.queue[0]) then s.stale else s.stale + 1)
  }

  /** event, after it. */
  function Removed<T>(s: State<T>): State<T> {
    if s.c.queue == [] then s else s.(c := Finish(s.c, true), main := Resending)
  }

  function GoOn<T>(s: State<T>): State<T> {
    match s.main
    case Ready(_) => s
    case Adding(x, inside) =>
      if s.c.sending.Some? then s.(c := SendStep(s.c)) else s.(c := Enqueue(s.c, x), main := Ready(inside))
    case Resending => if s.c.sending.Some? then s.(c := SendStep(s.c)) else s.(main := Ready(false))
  }

  function Step<T(==)>(s: State<T>, a: Action<T>): State<T> {
    match a
    case Worker => s.(c := WorkerStep(s.c, true))
    case DoExec(cmd) => if s.main.Ready? then Submitted(s, cmd) else s
    case Event => if s.main == Ready(false) && s.c.posted != [] then Reported(s) else s
    case HandlersReturn => if s.main == Ready(true) then Removed(s) else s
    case Continue => GoOn(s)
  }

  function Run<T(==)>(actions: seq<Action<T>>): State<T> {
    if actions == [] then State(New(), Ready(false), 0, [], 0)
    else Step(Run(actions[..|actions| - 1]), actions[|actions| - 1])
  }

  /** Instances are enqueued in the order they were made. */
  ghost predicate Fresh<T>(accepted: seq<Transaction<T>>, bound: nat) {
    && (forall i, j :: 0 <= i < j < |accepted| ==> accepted[i].id < accepted[j].id)
    && (forall i :: 0 <= i < |accepted| ==> accepted[i].id < bound)
  }

  ghost predicate Inv<T>(s: State<T>) {
    && Fine(s.c) && !s.c.fail
    && (s.main.Adding? <==> s.c.adding.Some?)
    && (s.main.Adding? ==> s.c.adding == Some(s.main.x) && !s.main.inside && s.main.x.id < s.next)
    && Fresh(s.c.accepted, if s.main.Adding? then s.main.x.id else s.next)
    && (s.c.sending.Some? ==> !s.main.Ready?)
    && (s.c.handling <==> s.main == Ready(true))
    && s.stale == 0
    && s.reported == s.c.finished + (if s.c.handling && s.c.queue != [] then [s.c.queue[0]] else [])
  }

  lemma FreshAdd<T>(accepted: seq<Transaction<T>>, x: Transaction<T>, bound: nat)
    requires Fresh(accepted, x.id) && x.id < bound
    ensures Fresh(accepted + [x], bound) && Fresh(accepted, bound)
  {
  }

  lemma WorkerKeeps<T>(s: State<T>)
    requires Inv(s)
    ensures Inv(Step(s, Worker))
  {
    hide Fine, WorkerStep;
    WorkerKeepsFine(s.c, true);
  }

  lemma SubmittedKeeps<T>(s: State<T>, cmd: T)
    requires Inv(s) && s.main.Ready?
    ensures Inv(Submitted(s, cmd))
  {
    HandlingHasHead(s.c);
    hide Fine, Fresh;
    var x := Transaction(s.next, cmd);
    SubmitKeepsFine(s.c, x);
    FreshAdd(s.c.accepted, x, s.next + 1);
  }

  /** While an event is handled its transaction heads the queue and its result is stored. */
  lemma HandlingHasHead<T>(c: Channel<T>)
    requires Fine(c)
    ensures c.handling ==> c.queue != [] && c.result == Some(c.queue[0]) && c.posted == [] && Asleep(c)
  {
  }

  lemma ReportedKeeps<T>(s: State<T>)
    requires Inv(s) && s.main == Ready(false) && s.c.posted != []
    ensures Inv(Reported(s))
  {
    DeliverKeepsFine(s.c);
    HandlingHasHead(Deliver(s.c));
    hide Fine, Fresh;
  }

  lemma RemovedKeeps<T>(s: State<T>)
    requires Inv(s) && s.main == Ready(true)
    ensures Inv(Removed(s))
  {
    hide Fine, Fresh;
    FinishKeepsFine(s.c, true);
  }

  lemma GoOnKeeps<T>(s: State<T>)
    requires Inv(s)
    ensures Inv(GoOn(s))
  {
    hide Fine, Fresh;
    if s.c.sending.Some? {
      SendKeepsFine(s.c);
    } else if s.main.Adding? {
      AddKeepsFine(s.c);
      FreshAdd(s.c.accepted, s.main.x, s.next);
    }
  }

  lemma StepKeeps<T>(s: State<T>, a: Action<T>)
    requires Inv(s)
    ensures Inv(Step(s, a))
  {
    hide Inv, Submitted, Reported, Removed, GoOn;
    match a {
      case Worker => WorkerKeeps(s);
      case DoExec(cmd) => if s.main.Ready? { SubmittedKeeps(s, cmd); }
      case Event => if s.main == Ready(false) && s.c.posted != [] { ReportedKeeps(s); }
      case HandlersReturn => if s.main == Ready(true) { RemovedKeeps(s); }
      case Continue => GoOnKeeps(s);
    }
  }

  lemma {:induction false} RunsKeep<T>(actions: seq<Action<T>>)
    ensures Inv(Run(actions))
    decreases |actions|
  {
    if actions == [] {
      NewFine<Transaction<T>>();
    } else {
      RunsKeep(actions[..|actions| - 1]);
      StepKeeps(Run(actions[..|actions| - 1]), actions[|actions| - 1]);
    }
  }

  // ----- every request, and no other

  /** The commands that DoExec was called with, from outside or from handlers, in order. */
  function Requested<T(==)>(actions: seq<Action<T>>): seq<T> {
    if actions == [] then []
    else
      var front, last := actions[..|actions| - 1], actions[|actions| - 1];
      Requested(front) + (if last.DoExec? && Run(front).main.Ready? then [last.cmd] else [])
  }

  function Cmds<T>(xs: seq<Transaction<T>>): seq<T> {
    seq(|xs|, i requires 0 <= i < |xs| => xs[i].cmd)
  }

  /** What has been enqueued, and what is about to be. */
  function Entered<T>(s: State<T>): seq<T> {
    Cmds(s.c.accepted) + (if s.main.Adding? then [s.main.x.cmd] else [])
  }

  lemma CmdsAdd<T>(xs: seq<Transaction<T>>, x: Transaction<T>)
    ensures Cmds(xs + [x]) == Cmds(xs) + [x.cmd]
  {
  }

  lemma StepEnters<T>(s: State<T>, a: Action<T>)
    requires Inv(s)
    ensures Entered(Step(s, a)) == Entered(s) + (if a.DoExec? && s.main.Ready? then [a.cmd] else [])
  {
    hide Cmds, Fine, Fresh;
    match a {
      case Worker => WorkerKeepsFine(s.c, true);
      case DoExec(cmd) => CmdsAdd(s.c.accepted, Transaction(s.next, cmd));
      case Event =>
      case HandlersReturn =>
      case Continue => if s.main.Adding? { CmdsAdd(s.c.accepted, s.main.x); }
    }
  }

  /** In every run what was enqueued, with what is in hand, is what was requested, in order. */
  lemma {:induction false} EveryRequestEnters<T>(actions: seq<Action<T>>)
    ensures Entered(Run(actions)) == Requested(actions)
    decreases |actions|
  {
    if actions != [] {
      var front, last := actions[..|actions| - 1], actions[|actions| - 1];
      EveryRequestEnters(front);
      RunsKeep(front);
      StepEnters(Run(front), last);
    }
  }

  // ----- and every request is reported

  /** The steps left until nothing is queued, if no more is requested. */
  function Rank<T(==)>(s: State<T>): nat {
    20 * |Ahead(s.c)| + Way(s.c) + (if s.main.Ready? then 0 else 1)
  }

  /** A step that brings the end nearer. */
  function Next<T(==)>(s: State<T>): Action<T> {
    match s.main
    case Ready(inside) => if inside then HandlersReturn else if s.c.posted != [] then Event else Worker
    case _ => Continue
  }

  lemma NextAdvances<T>(s: State<T>)
    requires Inv(s) && (s.main != Ready(false) || s.c.queue != [])
    ensures Rank(Step(s, Next(s))) < Rank(s)
  {
    HandlingHasHead(s.c);
    match Next(s) {
      case HandlersReturn => FinishAdvances(s.c, true);
      case Event => DeliverAdvances(s.c);
      case Worker =>
        WorkerAdvances(s.c, true);
        WorkerKeepsFine(s.c, true);
      case _ =>
        if s.c.sending.Some? {
          SendAdvances(s.c);
          SendKeepsFine(s.c);
        } else if s.main.Adding? {
          AddedAhead(s.c);
        }
    }
  }

  lemma AddedAhead<T>(c: Channel<T>)
    requires Fine(c) && c.adding.Some? && c.sending.None?
    ensures var d := Enqueue(c, c.adding.value); |Ahead(d)| == |Ahead(c)| && Way(d) == Way(c)
  {
  }

  /** Nothing is queued or in hand, and all that was requested has been executed and reported. */
  ghost predicate Settled<T>(actions: seq<Action<T>>) {
    var s := Run(actions);
    && s.main == Ready(false) && s.c.queue == []
    && Cmds(s.c.executed) == Cmds(s.reported) == Requested(actions)
  }

  predicate NoRequest<T>(actions: seq<Action<T>>) {
    forall i :: 0 <= i < |actions| ==> !actions[i].DoExec?
  }

  lemma RunOn<T>(actions: seq<Action<T>>, a: Action<T>)
    ensures Run(actions + [a]) == Step(Run(actions), a)
  {
    assert (actions + [a])[..|actions|] == actions;
  }

  /** The requests made so far are executed and reported in some continuation. */
  ghost predicate CanSettle<T(!new)>(actions: seq<Action<T>>) {
    exists more :: NoRequest(more) && Settled(actions + more)
  }

  lemma CanSettleNow<T(!new)>(actions: seq<Action<T>>)
    requires Settled(actions)
    ensures CanSettle(actions)
  {
    hide Settled;
    assert actions + [] == actions && NoRequest<T>([]);
  }

  lemma CanSettleBefore<T(!new)>(actions: seq<Action<T>>, a: Action<T>)
    requires CanSettle(actions + [a]) && !a.DoExec?
    ensures CanSettle(actions)
  {
    hide Settled;
    var more :| NoRequest(more) && Settled(actions + [a] + more);
    assert actions + ([a] + more) == actions + [a] + more;
    assert NoRequest([a] + more);
  }

  /** From every reachable state the requests made so far can all be executed and reported, in
      the order they were made, and no step but those of the worker and the main thread is
      needed for it. */
  lemma {:induction false} EveryRequestIsReported<T(!new)>(actions: seq<Action<T>>)
    ensures CanSettle(actions)
    decreases Rank(Run(actions))
  {
    var s := Run(actions);
    RunsKeep(actions);
    hide Run, Rank, Next, Settled, Inv, CanSettle, Step;
    if s.main == Ready(false) && s.c.queue == [] {
      AtRestSettled(actions);
      CanSettleNow(actions);
    } else {
      NextAdvances(s);
      NextIsNoRequest(s);
      RunOn(actions, Next(s));
      EveryRequestIsReported(actions + [Next(s)]);
      CanSettleBefore(actions, Next(s));
    }
  }

  lemma NextIsNoRequest<T>(s: State<T>)
    ensures !Next(s).DoExec?
  {
  }

  lemma AtRestSettled<T>(actions: seq<Action<T>>)
    requires Run(actions).main == Ready(false) && Run(actions).c.queue == []
    ensures Settled(actions)
  {
    RunsKeep(actions);
    EveryRequestEnters(actions);
    hide Run, Requested;
  }

  // ----- what it means

  /** In every interleaving, re-entrant requests included: SetQuery never finds the worker
      busy, pending_queris is the queue length, every transaction is executed and reported at
      most once and in order, and each report finds its own transaction's result. */
  lemma RunsAreSound<T>(actions: seq<Action<T>>)
    ensures var s := Run(actions);
            && (s.main == Ready(true) ==> s.c.queue != [])
            && s.stale == 0 && s.c.refused == 0 && s.c.pending == |s.c.queue|
            && s.c.accepted == s.c.finished + s.c.queue
            && (s.c.executed == s.c.finished || (Ahead(s.c) != [] && s.c.executed == s.c.finished + [Ahead(s.c)[0]]))
            && s.reported <= s.c.executed
            && s.reported == s.c.finished + (if s.main == Ready(true) then [s.c.queue[0]] else [])
            && forall i, j :: 0 <= i < j < |s.c.accepted| ==> s.c.accepted[i].id < s.c.accepted[j].id
  {
    RunsKeep(actions);
    hide Run;
  }

  /** While the handlers of TransactionDone run, whatever they request, the stored result stays
      that of the transaction they were called for, and the worker stays asleep. */
  lemma HandlersSeeTheirResult<T>(actions: seq<Action<T>>)
    requires Run(actions).main == Ready(true)
    ensures var s := Run(actions);
            && s.reported != [] && s.c.queue != [] && s.c.queue[0] == s.reported[|s.reported| - 1]
            && s.c.result == Some(s.c.queue[0])
            && s.c.posted == [] && Asleep(s.c)
  {
    RunsKeep(actions);
    hide Run;
    HandlingHasHead(Run(actions).c);
  }

  /** Between events a queue that is not empty has its head in flight. */
  lemma NeverStuck<T>(actions: seq<Action<T>>)
    requires Run(actions).main == Ready(false)
    ensures var s := Run(actions); s.c.queue != [] <==> AtWork(s.c) || Completed(s.c)
  {
    RunsKeep(actions);
    hide Run;
  }
}
