/**
 Lock-protected execution by any number of workers, as a transition system.

 Memory is shared and nothing in a step forces discipline on it: an INSERT
 changes the table in several steps, leaves the index in an arbitrary torn state
 while the tree is being updated, and a SELECT reads one row, or one node or slot of
 the index, per step.  What keeps this safe is only the lock each query takes, and that
 lock is chosen from the query text.
 */
module ServerModel {
  import opened Records
  import opened SqlText
  import opened Sql
  import opened Classifier
  import opened IndexRead

  type Wid = nat

  /** The table in memory; `fault` records a read outside it. */
  datatype Shared = Shared(
    nextId: int,
    rows: seq<Ref>,
    size: nat,
    heap: seq<Record>,
    index: Index,
    fault: bool)

  /** How far the executor has got with one statement. */
  datatype Exec =
    | Begin
    | Grown
    | Taken(ref: Ref, id: int)
    | Filled(ref: Ref, id: int)
    | Stored(ref: Ref, id: int)
    | Indexing(ref: Ref, id: int, saved: Index)
    | Indexed(ref: Ref, id: int, inserted: bool)
    | Scan(row: nat, found: seq<Ref>)
    | Walk(stage: Stage)
    | Done(result: SqlResult)

  /** A query as the server sees it (text and lock kind) and as the executor will read it. */
  datatype Job = Job(text: string, kind: QueryKind, st: Statement)

  function JobOf(text: string): Job {
    Job(text, Classify(text), ParseStatement(text))
  }

  datatype Worker =
    | Idle
    | Polling(job: Job)
    | Running(job: Job, pos: int, exec: Exec)
    | Executed(job: Job, pos: int, result: SqlResult)
    | TimedOut(job: Job)
    | Rendering(job: Job, pos: int, result: SqlResult, sent: seq<Record>)

  datatype Lock = Lock(readers: set<Wid>, writer: Option<Wid>)

  datatype Metrics = Metrics(
    requests: nat,
    health: nat,
    metrics: nat,
    queries: nat,
    selects: nat,
    inserts: nat,
    errors: nat,
    syntaxErrors: nat,
    queryErrors: nat,
    internalErrors: nat,
    notFound: nat,
    queueFull: nat,
    lockTimeouts: nat,
    active: nat)

  datatype Response = Response(job: Job, pos: int, result: SqlResult, rows: seq<Record>)

  /**
   `log` lists the queries in the order in which they obtained the lock, `answers` the
   results of those that have finished, by position in the log.
   */
  datatype Server = Server(
    shared: Shared,
    lock: Lock,
    workers: map<Wid, Worker>,
    metrics: Metrics,
    timeoutMs: nat,
    log: seq<Job>,
    answers: map<int, SqlResult>,
    responses: seq<Response>)

  // ------------------------------------------------------------- executor steps

  function RowsResult(found: seq<Ref>, c: Condition): SqlResult {
    SqlResult(if found == [] && c != Everything then NotFound else StatusOk, SelectedRows, found, 0, |found|)
  }

  ghost predicate InsertStep(sh: Shared, name: string, age: int, e: Exec, sh': Shared, e': Exec) {
    match e
    case Begin =>
      && e' == Grown
      && (if sh.size < |sh.rows| then sh' == sh else
          && sh' == sh.(rows := sh'.rows)
          && |sh'.rows| == (if |sh.rows| == 0 then 8 else 2 * |sh.rows|)
          && sh'.rows[..|sh.rows|] == sh.rows)
    case Grown =>
      && e' == Taken(|sh.heap|, sh.nextId)
      && sh' == sh.(heap := sh.heap + [Record(sh.nextId, "", 0)], nextId := sh.nextId + 1)
    case Taken(ref, id) =>
      && e' == Filled(ref, id)
      && sh' == (if 0 <= ref < |sh.heap|
                 then sh.(heap := sh.heap[ref := Record(id, StoredName(name), age)])
                 else sh.(fault := true))
    case Filled(ref, id) =>
      && e' == Stored(ref, id)
      && sh' == (if sh.size < |sh.rows| then sh.(rows := sh.rows[sh.size := ref]) else sh.(fault := true))
    case Stored(ref, id) =>
      && e' == Indexing(ref, id, sh.index)
      && sh' == sh.(index := sh'.index)
    case Indexing(ref, id, saved) =>
      || (e' == e && sh' == sh.(index := sh'.index))
      || (&& e'.Indexed? && e' == Indexed(ref, id, e'.inserted)
          && sh' == sh.(index := sh'.index)
          && InsertOutcome(saved, id, ref, sh'.index, e'.inserted))
    case Indexed(ref, id, inserted) =>
      if inserted
      then e' == Done(SqlResult(StatusOk, Inserted, [], id, 1)) && sh' == sh.(size := sh.size + 1)
      else e' == Done(Failed(Error)) && sh' == sh
    case _ => false
  }

  ghost predicate SelectStep(sh: Shared, c: Condition, e: Exec, sh': Shared, e': Exec) {
    match e
    case Begin =>
      sh' == sh && e' == (if c.IdIs? then Walk(Start) else Scan(0, []))
    case Scan(i, found) =>
      if i >= sh.size then
        sh' == sh && e' == Done(RowsResult(found, c))
      else if i < |sh.rows| && 0 <= sh.rows[i] < |sh.heap| then
        && sh' == sh
        && e' == Scan(i + 1, if Matches(sh.heap[sh.rows[i]], c) then found + [sh.rows[i]] else found)
      else
        sh' == sh.(fault := true) && e' == e
    case Walk(Finished(found)) =>
      sh' == sh && e' == Done(RowsResult(found, c))
    case Walk(stage) =>
      && c.IdIs?
      && var next := Next(sh.index, c.idOp, c.id, stage);
         if next == Crash then sh' == sh.(fault := true) && e' == e else sh' == sh && e' == Walk(next)
    case _ => false
  }

  /** One step of executing the statement that the text denotes, whatever lock is held. */
  ghost predicate ExecStep(sh: Shared, st: Statement, e: Exec, sh': Shared, e': Exec) {
    match st
    case ExitStatement => e == Begin && sh' == sh && e' == Done(Failed(Exit))
    case Rejected(why) => e == Begin && sh' == sh && e' == Done(Failed(why))
    case InsertStatement(name, age) => InsertStep(sh, name, age, e, sh', e')
    case SelectStatement(c) => SelectStep(sh, c, e, sh', e')
  }

  // ------------------------------------------------------------------- metrics

  function QueryStarted(m: Metrics, kind: QueryKind): Metrics {
    m.(requests := m.requests + 1,
       queries := m.queries + 1,
       active := m.active + 1,
       inserts := if kind == KindWrite then m.inserts + 1 else m.inserts,
       selects := if kind == KindRead then m.selects + 1 else m.selects)
  }

  function QueryFinished(m: Metrics, timedOut: bool, status: Status): Metrics {
    var m := m.(active := if m.active > 0 then m.active - 1 else m.active);
    if timedOut then m.(errors := m.errors + 1, lockTimeouts := m.lockTimeouts + 1)
    else match status
      case NotFound => m.(notFound := m.notFound + 1)
      case SyntaxError => m.(errors := m.errors + 1, syntaxErrors := m.syntaxErrors + 1)
      case QueryError => m.(errors := m.errors + 1, queryErrors := m.queryErrors + 1)
      case Exit => m.(errors := m.errors + 1, queryErrors := m.queryErrors + 1)
      case Error => m.(errors := m.errors + 1, internalErrors := m.internalErrors + 1)
      case StatusOk => m
  }

  // -------------------------------------------------------------- server steps

  datatype Action =
    | Receive(w: Wid, job: Job)
    | KeepPolling(w: Wid)
    | GiveUp(w: Wid)
    | Acquire(w: Wid)
    | Advance(w: Wid)
    | Release(w: Wid)
    | Finish(w: Wid)
    | FinishTimedOut(w: Wid)
    | RenderRow(w: Wid)
    | Respond(w: Wid)
    | Health
    | MetricsRequest
    | QueueFull

  function With(s: Server, w: Wid, x: Worker): Server {
    s.(workers := s.workers[w := x])
  }

  /** A try-lock succeeds only when the lock is free for that kind. */
  predicate LockFree(l: Lock, kind: QueryKind) {
    match kind
    case KindNone => true
    case KindRead => l.writer.None?
    case KindWrite => l.writer.None? && l.readers == {}
  }

  function Locked(l: Lock, w: Wid, kind: QueryKind): Lock {
    match kind
    case KindNone => l
    case KindRead => l.(readers := l.readers + {w})
    case KindWrite => l.(writer := Some(w))
  }

  function Unlocked(l: Lock, w: Wid, kind: QueryKind): Lock {
    match kind
    case KindNone => l
    case KindRead => l.(readers := l.readers - {w})
    case KindWrite => l.(writer := None)
  }

  ghost predicate Step(s: Server, a: Action, s': Server) {
    match a
    case Receive(w, job) =>
      && w in s.workers && s.workers[w].Idle?
      && s' == With(s, w, Polling(job)).(metrics := QueryStarted(s.metrics, job.kind))
    case KeepPolling(w) =>
      w in s.workers && s.workers[w].Polling? && s' == s
    case GiveUp(w) =>
      && w in s.workers && s.workers[w].Polling? && s.timeoutMs > 0
      && s.workers[w].job.kind != KindNone
      && s' == With(s, w, TimedOut(s.workers[w].job))
    case Acquire(w) =>
      && w in s.workers && s.workers[w].Polling?
      && var j := s.workers[w].job;
         && LockFree(s.lock, j.kind)
         && s' == With(s, w, Running(j, if j.kind == KindNone then -1 else |s.log|, Begin))
                  .(lock := Locked(s.lock, w, j.kind), log := if j.kind == KindNone then s.log else s.log + [j])
    case Advance(w) =>
      && w in s.workers && s.workers[w].Running?
      && w in s'.workers && s'.workers[w].Running?
      && s' == With(s, w, s.workers[w].(exec := s'.workers[w].exec)).(shared := s'.shared)
      && ExecStep(s.shared, s.workers[w].job.st, s.workers[w].exec, s'.shared, s'.workers[w].exec)
    case Release(w) =>
      && w in s.workers && s.workers[w].Running? && s.workers[w].exec.Done?
      && var x := s.workers[w];
         s' == With(s, w, Executed(x.job, x.pos, x.exec.result))
               .(lock := Unlocked(s.lock, w, x.job.kind),
                 answers := if x.job.kind == KindNone then s.answers else s.answers[x.pos := x.exec.result])
    case Finish(w) =>
      && w in s.workers && s.workers[w].Executed?
      && var x := s.workers[w];
         s' == With(s, w, Rendering(x.job, x.pos, x.result, []))
               .(metrics := QueryFinished(s.metrics, false, x.result.status))
    case FinishTimedOut(w) =>
      && w in s.workers && s.workers[w].TimedOut?
      && s' == With(s, w, Idle).(metrics := QueryFinished(s.metrics, true, Error))
    case RenderRow(w) =>
      && w in s.workers && s.workers[w].Rendering?
      && var x := s.workers[w];
         && |x.sent| < |x.result.records|
         && var ref := x.result.records[|x.sent|];
            s' == if 0 <= ref < |s.shared.heap|
                  then With(s, w, x.(sent := x.sent + [s.shared.heap[ref]]))
                  else s.(shared := s.shared.(fault := true))
    case Respond(w) =>
      && w in s.workers && s.workers[w].Rendering?
      && var x := s.workers[w];
         && |x.sent| == |x.result.records|
         && s' == With(s, w, Idle).(responses := s.responses + [Response(x.job, x.pos, x.result, x.sent)])
    case Health =>
      s' == s.(metrics := s.metrics.(requests := s.metrics.requests + 1, health := s.metrics.health + 1))
    case MetricsRequest =>
      s' == s.(metrics := s.metrics.(requests := s.metrics.requests + 1, metrics := s.metrics.metrics + 1))
    case QueueFull =>
      s' == s.(metrics := s.metrics.(requests := s.metrics.requests + 1,
                                     errors := s.metrics.errors + 1,
                                     queueFull := s.metrics.queueFull + 1))
  }

  ghost predicate Init(s: Server) {
    && s.shared == Shared(1, [], 0, [], Index([], TreeShape.NULL), false)
    && s.lock == Lock({}, None)
    && (forall w :: w in s.workers ==> s.workers[w] == Idle)
    && s.metrics == Metrics(0, 0, 0, 0, 0, 0, 0, 0, 0, 0, 0, 0, 0, 0)
    && s.log == [] && s.answers == map[] && s.responses == []
  }

  ghost predicate Moves(states: seq<Server>, actions: seq<Action>) {
    && |states| == |actions| + 1
    && Init(states[0])
    && forall i :: 0 <= i < |actions| ==> Step(states[i], actions[i], states[i + 1])
  }

  /** Every query that arrives is a text, classified and read as the code does. */
  ghost predicate Arrivals(actions: seq<Action>) {
    forall i :: 0 <= i < |actions| && actions[i].Receive? ==> actions[i].job == JobOf(actions[i].job.text)
  }

  /** A run of the server: any interleaving of any workers on any query texts. */
  ghost predicate IsRun(states: seq<Server>, actions: seq<Action>) {
    Moves(states, actions) && Arrivals(actions)
  }
}
