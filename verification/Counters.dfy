/** Conservation of the server's counters in every reachable state. */
module Counters {
  import opened Sql
  import opened Classifier
  import opened ServerModel

  /** Between the start and the finish of db_server_execute. */
  predicate InFlight(x: Worker) {
    x.Polling? || x.Running? || x.Executed? || x.TimedOut?
  }

  ghost function Flying(workers: map<Wid, Worker>): set<Wid> {
    set w | w in workers && InFlight(workers[w])
  }

  /** The counters add up among themselves. */
  predicate Sums(m: Metrics) {
    && m.requests == m.health + m.metrics + m.queries + m.queueFull
    && m.errors == m.syntaxErrors + m.queryErrors + m.internalErrors + m.queueFull + m.lockTimeouts
    && m.selects + m.inserts <= m.queries
    && m.active + m.syntaxErrors + m.queryErrors + m.internalErrors + m.lockTimeouts + m.notFound <= m.queries
  }

  ghost predicate Balanced(s: Server) {
    Sums(s.metrics) && s.metrics.active == |Flying(s.workers)|
  }

  lemma Takeoff(workers: map<Wid, Worker>, w: Wid, x: Worker)
    requires w in workers && !InFlight(workers[w]) && InFlight(x)
    ensures Flying(workers[w := x]) == Flying(workers) + {w} && |Flying(workers[w := x])| == |Flying(workers)| + 1
  {
  }

  lemma Landing(workers: map<Wid, Worker>, w: Wid, x: Worker)
    requires w in workers && InFlight(workers[w]) && !InFlight(x)
    ensures |Flying(workers)| == |Flying(workers[w := x])| + 1
  {
    assert Flying(workers) == Flying(workers[w := x]) + {w};
  }

  lemma Cruise(workers: map<Wid, Worker>, w: Wid, x: Worker)
    requires w in workers && (InFlight(workers[w]) <==> InFlight(x))
    ensures Flying(workers[w := x]) == Flying(workers)
  {
  }

  lemma StartedSums(m: Metrics, kind: QueryKind)
    requires Sums(m)
    ensures Sums(QueryStarted(m, kind)) && QueryStarted(m, kind).active == m.active + 1
  {
  }

  lemma FinishedSums(m: Metrics, timedOut: bool, status: Status)
    requires Sums(m) && m.active > 0
    ensures Sums(QueryFinished(m, timedOut, status)) && QueryFinished(m, timedOut, status).active == m.active - 1
  {
  }

  lemma StepBalanced(s: Server, a: Action, s': Server)
    requires Balanced(s) && Step(s, a, s')
    ensures Balanced(s')
    ensures (a.Finish? || a.FinishTimedOut?) ==> s.metrics.active > 0
  {
    hide ExecStep, Flying;
    match a {
      case Receive(w, job) =>
        Takeoff(s.workers, w, Polling(job));
        StartedSums(s.metrics, job.kind);
      case Finish(w) =>
        Landing(s.workers, w, s'.workers[w]);
        FinishedSums(s.metrics, false, s.workers[w].result.status);
      case FinishTimedOut(w) =>
        Landing(s.workers, w, Idle);
        FinishedSums(s.metrics, true, Error);
      case GiveUp(w) => Cruise(s.workers, w, s'.workers[w]);
      case Acquire(w) => Cruise(s.workers, w, s'.workers[w]);
      case Advance(w) => Cruise(s.workers, w, s'.workers[w]);
      case Release(w) => Cruise(s.workers, w, s'.workers[w]);
      case RenderRow(w) => Cruise(s.workers, w, s'.workers[w]);
      case Respond(w) => Cruise(s.workers, w, Idle);
      case _ =>
    }
  }

  lemma {:induction false} MovesBalance(states: seq<Server>, actions: seq<Action>, i: nat)
    requires Moves(states, actions) && i < |states|
    ensures Balanced(states[i])
  {
    if i > 0 {
      MovesBalance(states, actions, i - 1);
      assert Step(states[i - 1], actions[i - 1], states[i - 1 + 1]);
      StepBalanced(states[i - 1], actions[i - 1], states[i]);
    } else {
      assert Flying(states[0].workers) == {};
    }
  }

  /**
   In every reachable state requests and errors add up, `active` is the number of executions in
   flight, and every decrement of `active` meets a positive counter.
   */
  lemma CountersBalance(states: seq<Server>, actions: seq<Action>, i: nat)
    requires IsRun(states, actions) && i < |states|
    ensures Balanced(states[i])
    ensures i < |actions| && (actions[i].Finish? || actions[i].FinishTimedOut?) ==> states[i].metrics.active > 0
  {
    MovesBalance(states, actions, i);
    if i < |actions| {
      assert Step(states[i], actions[i], states[i + 1]);
      StepBalanced(states[i], actions[i], states[i + 1]);
    }
  }

  // ------------------------------------------------------------ what was counted

  datatype Event =
    | HealthEvent
    | MetricsEvent
    | QueryEvent
    | ReadEvent
    | WriteEvent
    | SyntaxEvent
    | QueryErrorEvent
    | InternalEvent
    | NotFoundEvent
    | QueueFullEvent
    | TimeoutEvent

  /** A worker leaves its call with this status. */
  predicate EndsWith(s: Server, a: Action, status: Status) {
    a.Finish? && a.w in s.workers && s.workers[a.w].Executed? && s.workers[a.w].result.status == status
  }

  /** The step is an event of this sort. */
  predicate Is(s: Server, a: Action, event: Event) {
    match event
    case HealthEvent => a.Health?
    case MetricsEvent => a.MetricsRequest?
    case QueryEvent => a.Receive?
    case ReadEvent => a.Receive? && a.job.kind == KindRead
    case WriteEvent => a.Receive? && a.job.kind == KindWrite
    case SyntaxEvent => EndsWith(s, a, SyntaxError)
    case QueryErrorEvent => EndsWith(s, a, QueryError) || EndsWith(s, a, Exit)
    case InternalEvent => EndsWith(s, a, Error)
    case NotFoundEvent => EndsWith(s, a, NotFound)
    case QueueFullEvent => a.QueueFull?
    case TimeoutEvent => a.FinishTimedOut?
  }

  /** How many of the first n steps are events of this sort. */
  function Happened(states: seq<Server>, actions: seq<Action>, n: nat, event: Event): nat
    requires n <= |actions| < |states|
  {
    if n == 0 then 0 else
    Happened(states, actions, n - 1, event) + if Is(states[n - 1], actions[n - 1], event) then 1 else 0
  }

  function CounterOf(m: Metrics, event: Event): nat {
    match event
    case HealthEvent => m.health
    case MetricsEvent => m.metrics
    case QueryEvent => m.queries
    case ReadEvent => m.selects
    case WriteEvent => m.inserts
    case SyntaxEvent => m.syntaxErrors
    case QueryErrorEvent => m.queryErrors
    case InternalEvent => m.internalErrors
    case NotFoundEvent => m.notFound
    case QueueFullEvent => m.queueFull
    case TimeoutEvent => m.lockTimeouts
  }

  lemma StepCounts(s: Server, a: Action, s': Server, event: Event)
    requires Step(s, a, s')
    ensures CounterOf(s'.metrics, event) == CounterOf(s.metrics, event) + if Is(s, a, event) then 1 else 0
  {
    hide ExecStep;
  }

  lemma {:induction false} MovesCount(states: seq<Server>, actions: seq<Action>, i: nat, event: Event)
    requires Moves(states, actions) && i < |states|
    ensures CounterOf(states[i].metrics, event) == Happened(states, actions, i, event)
  {
    hide Is, Step;
    if i > 0 {
      MovesCount(states, actions, i - 1, event);
      assert Step(states[i - 1], actions[i - 1], states[i - 1 + 1]);
      StepCounts(states[i - 1], actions[i - 1], states[i], event);
    }
  }

  /** Every counter is the number of the events it stands for, in every reachable state. */
  lemma CountersCountEvents(states: seq<Server>, actions: seq<Action>, i: nat)
    requires IsRun(states, actions) && i < |states|
    ensures var m := states[i].metrics;
            && m.health == Happened(states, actions, i, HealthEvent)
            && m.metrics == Happened(states, actions, i, MetricsEvent)
            && m.queries == Happened(states, actions, i, QueryEvent)
            && m.selects == Happened(states, actions, i, ReadEvent)
            && m.inserts == Happened(states, actions, i, WriteEvent)
            && m.syntaxErrors == Happened(states, actions, i, SyntaxEvent)
            && m.queryErrors == Happened(states, actions, i, QueryErrorEvent)
            && m.internalErrors == Happened(states, actions, i, InternalEvent)
            && m.notFound == Happened(states, actions, i, NotFoundEvent)
            && m.queueFull == Happened(states, actions, i, QueueFullEvent)
            && m.lockTimeouts == Happened(states, actions, i, TimeoutEvent)
  {
    hide Arrivals, Happened;
    forall event | true ensures CounterOf(states[i].metrics, event) == Happened(states, actions, i, event) {
      MovesCount(states, actions, i, event);
    }
    var m := states[i].metrics;
    assert CounterOf(m, HealthEvent) == m.health && CounterOf(m, MetricsEvent) == m.metrics;
    assert CounterOf(m, QueryEvent) == m.queries && CounterOf(m, ReadEvent) == m.selects;
    assert CounterOf(m, WriteEvent) == m.inserts && CounterOf(m, SyntaxEvent) == m.syntaxErrors;
    assert CounterOf(m, QueryErrorEvent) == m.queryErrors && CounterOf(m, InternalEvent) == m.internalErrors;
    assert CounterOf(m, NotFoundEvent) == m.notFound && CounterOf(m, QueueFullEvent) == m.queueFull;
    assert CounterOf(m, TimeoutEvent) == m.lockTimeouts;
  }

  // -------------------------------------------------------- where each query is

  ghost function Engaged(workers: map<Wid, Worker>): set<Wid> {
    set w | w in workers && !workers[w].Idle?
  }

  /** Every query received is answered, timed out, or with a worker. */
  ghost predicate Accounted(s: Server) {
    s.metrics.queries == |s.responses| + s.metrics.lockTimeouts + |Engaged(s.workers)|
  }

  lemma EngagedChanges(workers: map<Wid, Worker>, w: Wid, x: Worker)
    requires w in workers
    ensures |Engaged(workers[w := x])| ==
            |Engaged(workers)| - (if workers[w].Idle? then 0 else 1) + (if x.Idle? then 0 else 1)
  {
    var before, after := Engaged(workers), Engaged(workers[w := x]);
    assert before - {w} == after - {w};
    WithAndWithout(before, w);
    WithAndWithout(after, w);
  }

  lemma WithAndWithout(s: set<Wid>, w: Wid)
    ensures |s| == |s - {w}| + if w in s then 1 else 0
  {
    if w in s {
      assert s == (s - {w}) + {w};
    } else {
      assert s == s - {w};
    }
  }

  lemma StepAccounts(s: Server, a: Action, s': Server)
    requires Accounted(s) && Step(s, a, s')
    ensures Accounted(s')
  {
    hide ExecStep, Engaged;
    if !(a.KeepPolling? || a.Health? || a.MetricsRequest? || a.QueueFull?) && s'.workers != s.workers {
      EngagedChanges(s.workers, a.w, s'.workers[a.w]);
    }
  }

  /** In every reachable state: queries received = responses sent + timeouts + queries still with a worker. */
  lemma {:induction false} QueriesAccounted(states: seq<Server>, actions: seq<Action>, i: nat)
    requires IsRun(states, actions) && i < |states|
    ensures Happened(states, actions, i, QueryEvent) ==
            |states[i].responses| + Happened(states, actions, i, TimeoutEvent) + |Engaged(states[i].workers)|
  {
    AlwaysAccounted(states, actions, i);
    MovesCount(states, actions, i, QueryEvent);
    MovesCount(states, actions, i, TimeoutEvent);
  }

  lemma {:induction false} AlwaysAccounted(states: seq<Server>, actions: seq<Action>, i: nat)
    requires Moves(states, actions) && i < |states|
    ensures Accounted(states[i])
  {
    hide Step;
    if i > 0 {
      AlwaysAccounted(states, actions, i - 1);
      assert Step(states[i - 1], actions[i - 1], states[i - 1 + 1]);
      StepAccounts(states[i - 1], actions[i - 1], states[i]);
    } else {
      assert Engaged(states[0].workers) == {};
    }
  }
}
