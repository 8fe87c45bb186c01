/**
 One call into the shared database, and the handling of one HTTP request around
 it, as the code runs them: counters and table are updated in place.  What the
 other threads decide enters as arguments: the rounds of the lock loop, each with
 the outcome of its try-lock and the clock reading after it.
 */
module DbServer {
  import opened SqlText
  import opened Users
  import opened Sql
  import opened Classifier
  import opened ServerModel
  import opened Counters
  import opened SqlKinds

  /** One round of the lock loop: whether the try-lock succeeded, and the clock reading after it. */
  datatype Attempt = Attempt(granted: bool, now: nat)

  datatype LockOutcome = Acquired | GaveUp | StillWaiting

  predicate Expired(a: Attempt, start: nat, timeoutMs: nat) {
    timeoutMs > 0 && a.now - start >= timeoutMs
  }

  /** The loop goes on after this round. */
  predicate GoesOn(a: Attempt, start: nat, timeoutMs: nat) {
    !a.granted && !Expired(a, start, timeoutMs)
  }

  /** The other threads and the clock as the lock loop meets them: the time at its start, then round after round. */
  datatype Wait = Wait(start: nat, attempts: seq<Attempt>)

  /** Round i ends the loop: every earlier round went on. */
  predicate EndsAt(wait: Wait, timeoutMs: nat, i: int) {
    && 0 <= i < |wait.attempts| && !GoesOn(wait.attempts[i], wait.start, timeoutMs)
    && forall j :: 0 <= j < i ==> GoesOn(wait.attempts[j], wait.start, timeoutMs)
  }

  /** The loop for a query of this kind ends within the given rounds. */
  ghost predicate Ends(kind: QueryKind, wait: Wait, timeoutMs: nat) {
    kind == KindNone || exists i :: EndsAt(wait, timeoutMs, i)
  }

  /** The loop ends without the lock: in the round that ends it the try failed. */
  ghost predicate GivesUp(kind: QueryKind, wait: Wait, timeoutMs: nat) {
    kind != KindNone && exists i :: EndsAt(wait, timeoutMs, i) && !wait.attempts[i].granted
  }

  /**
   Polls for the lock: a query without a kind never waits, the first granted try wins if no earlier
   round had expired, and without a timeout the loop never gives up.
   */
  method TryAcquireLock(kind: QueryKind, timeoutMs: nat, wait: Wait) returns (outcome: LockOutcome, rounds: nat)
    ensures kind == KindNone ==> outcome == Acquired && rounds == 0
    ensures outcome == GaveUp <==> GivesUp(kind, wait, timeoutMs)
    ensures outcome == StillWaiting <==> !Ends(kind, wait, timeoutMs)
    ensures rounds <= |wait.attempts|
    ensures forall i :: 0 <= i < rounds - 1 ==>
              !wait.attempts[i].granted && (timeoutMs == 0 || wait.attempts[i].now - wait.start < timeoutMs)
    ensures kind != KindNone && outcome == Acquired ==> rounds > 0 && wait.attempts[rounds - 1].granted
    ensures outcome == GaveUp ==>
              && kind != KindNone && rounds > 0 && !wait.attempts[rounds - 1].granted
              && timeoutMs > 0 && wait.attempts[rounds - 1].now - wait.start >= timeoutMs
    ensures outcome == StillWaiting ==>
              && rounds == |wait.attempts|
              && forall i :: 0 <= i < rounds ==>
                   !wait.attempts[i].granted && (timeoutMs == 0 || wait.attempts[i].now - wait.start < timeoutMs)
  {
    if kind == KindNone {
      return Acquired, 0;
    }
    rounds := 0;
    while rounds < |wait.attempts|
      invariant rounds <= |wait.attempts|
      invariant forall i :: 0 <= i < rounds ==> GoesOn(wait.attempts[i], wait.start, timeoutMs)
    {
      var a := wait.attempts[rounds];
      rounds := rounds + 1;
      if a.granted {
        assert EndsAt(wait, timeoutMs, rounds - 1);
        assert forall i :: EndsAt(wait, timeoutMs, i) ==> i == rounds - 1;
        return Acquired, rounds;
      }
      if timeoutMs > 0 && a.now - wait.start >= timeoutMs {
        assert EndsAt(wait, timeoutMs, rounds - 1);
        return GaveUp, rounds;
      }
    }
    outcome := StillWaiting;
  }

  datatype Execution = Execution(result: SqlResult, usedIndex: bool, isWrite: bool, timedOut: bool)

  class Db {
    const table: Table
    const lockTimeoutMs: nat
    var metrics: Metrics

    /** The table is consistent and the counters add up. */
    ghost predicate Valid()
      reads this, table, table.rows, table.pkIndex
    {
      table.Valid() && Sums(metrics)
    }

    constructor (lockTimeoutMs: nat)
      ensures Valid() && fresh(table) && fresh(table.rows) && fresh(table.pkIndex)
      ensures this.lockTimeoutMs == lockTimeoutMs
      ensures DbOf(table) == Sql.Db([], []) && metrics == Metrics(0, 0, 0, 0, 0, 0, 0, 0, 0, 0, 0, 0, 0, 0)
    {
      table := new Table();
      this.lockTimeoutMs := lockTimeoutMs;
      metrics := Metrics(0, 0, 0, 0, 0, 0, 0, 0, 0, 0, 0, 0, 0, 0);
    }

    method RecordHealth()
      requires Sums(metrics)
      modifies this`metrics
      ensures Sums(metrics)
      ensures metrics == old(metrics).(requests := old(metrics).requests + 1, health := old(metrics).health + 1)
    {
      metrics := metrics.(requests := metrics.requests + 1, health := metrics.health + 1);
    }

    method RecordMetricsRequest()
      requires Sums(metrics)
      modifies this`metrics
      ensures Sums(metrics)
      ensures metrics == old(metrics).(requests := old(metrics).requests + 1, metrics := old(metrics).metrics + 1)
    {
      metrics := metrics.(requests := metrics.requests + 1, metrics := metrics.metrics + 1);
    }

    method RecordQueueFull()
      requires Sums(metrics)
      modifies this`metrics
      ensures Sums(metrics)
      ensures metrics == old(metrics).(requests := old(metrics).requests + 1, errors := old(metrics).errors + 1,
                queueFull := old(metrics).queueFull + 1)
    {
      metrics := metrics.(requests := metrics.requests + 1, errors := metrics.errors + 1,
        queueFull := metrics.queueFull + 1);
    }

    /** Classifies, counts, waits for the lock, executes, releases and counts again. */
    method Execute(query: CString, wait: Wait) returns (e: Execution)
      requires Valid() && Ends(Classify(query), wait, lockTimeoutMs)
      modifies this, table, table.rows, table.pkIndex
      ensures Valid() && (table.rows == old(table.rows) || fresh(table.rows))
      ensures e.timedOut <==> GivesUp(Classify(query), wait, lockTimeoutMs)
      ensures e.timedOut ==> e.result == Failed(Error) && DbOf(table) == old(DbOf(table))
      ensures !e.timedOut ==> e.result == Answer(old(DbOf(table)), ParseStatement(query))
                              && DbOf(table) == Effect(old(DbOf(table)), ParseStatement(query))
      ensures metrics == QueryFinished(QueryStarted(old(metrics), Classify(query)), e.timedOut, e.result.status)
      ensures metrics.active == old(metrics.active) && metrics.requests == old(metrics.requests) + 1
      ensures DbOf(table) != old(DbOf(table)) ==> e.isWrite && !e.timedOut
      ensures e.result.action == SelectedRows ==>
                ParseStatement(query).SelectStatement? && (e.usedIndex <==> ParseStatement(query).condition.IdIs?)
    {
      hide QueryStarted, QueryFinished, Sums, Answer, Effect, ParseStatement, Classify, GuessUsesIndex, GivesUp, Ends;
      var kind := ClassifyQuery(query);
      var usedIndex := GuessIndexUse(query);
      ghost var initially := metrics;
      metrics := QueryStarted(metrics, kind);
      var outcome, rounds := TryAcquireLock(kind, lockTimeoutMs, wait);
      if outcome != Acquired {
        e := Execution(Failed(Error), usedIndex, kind == KindWrite, true);
        metrics := QueryFinished(metrics, true, Error);
        CallSums(initially, kind, true, Error);
        return;
      }
      ghost var before := DbOf(table);
      var result := Sql.Execute(table, query);
      e := Execution(result, usedIndex, kind == KindWrite, false);
      metrics := QueryFinished(metrics, false, result.status);
      CallSums(initially, kind, false, result.status);
      CallIsCovered(before, query);
    }
  }

  /** A call counts one query and at most one error, and leaves nothing in flight. */
  lemma CallSums(m: Metrics, kind: QueryKind, timedOut: bool, status: Status)
    requires Sums(m)
    ensures var m' := QueryFinished(QueryStarted(m, kind), timedOut, status);
            && Sums(m') && m'.active == m.active
            && m'.requests == m.requests + 1 && m'.queries == m.queries + 1
            && m'.errors == m.errors + if timedOut || (status != StatusOk && status != NotFound) then 1 else 0
  {
    StartedSums(m, kind);
    FinishedSums(QueryStarted(m, kind), timedOut, status);
  }

  /** What the lock kind and the index guess promise about one executed query. */
  lemma CallIsCovered(db: Sql.Db, q: string)
    requires DbOk(db)
    ensures Effect(db, ParseStatement(q)) != db ==> Classify(q) == KindWrite
    ensures Answer(db, ParseStatement(q)).action == SelectedRows ==>
              && ParseStatement(q).SelectStatement? && Classify(q) == KindRead
              && (GuessUsesIndex(q) <==> ParseStatement(q).condition.IdIs?)
  {
    LockSuffices(q);
    if ParseStatement(q).SelectStatement? {
      GuessIsExact(q);
    }
  }

  /** An executed text is answered 200 if it is an INSERT or a SELECT, found rows or not, and 400 otherwise. */
  lemma StatusMeans(db: Sql.Db, q: string)
    requires DbOk(db)
    ensures StatusCode(Answer(db, ParseStatement(q)).status) ==
            if ParseStatement(q).InsertStatement? || ParseStatement(q).SelectStatement? then 200 else 400
  {
    FiveKinds(q);
    hide ParseStatement;
  }

  datatype Verb = Get | Post | Other

  datatype Request = Unreadable | Malformed | Parsed(verb: Verb, path: string, query: CString)

  datatype Endpoint = HealthEndpoint | MetricsEndpoint | QueryEndpoint | WrongMethod | NoEndpoint | BadRequest

  function Route(r: Request): Endpoint {
    if !r.Parsed? then BadRequest
    else if r.verb == Get && r.path == "/health" then HealthEndpoint
    else if r.verb == Get && r.path == "/metrics" then MetricsEndpoint
    else if r.verb == Post && r.path == "/query" then QueryEndpoint
    else if r.path == "/health" || r.path == "/metrics" || r.path == "/query" || r.verb == Other then WrongMethod
    else NoEndpoint
  }

  /** The HTTP status of an executed statement. */
  function StatusCode(s: Status): int {
    match s
    case SyntaxError => 400
    case QueryError => 400
    case Exit => 400
    case Error => 500
    case _ => 200
  }

  /** The HTTP status of every route that runs no query. */
  function FixedStatus(e: Endpoint): int {
    match e
    case HealthEndpoint => 200
    case MetricsEndpoint => 200
    case WrongMethod => 405
    case NoEndpoint => 404
    case _ => 400
  }

  /** The routes, by method and path. */
  lemma RoutesMean(r: Request)
    ensures Route(r) == QueryEndpoint <==> r.Parsed? && r.verb == Post && r.path == "/query"
    ensures Route(r) != QueryEndpoint ==>
              FixedStatus(Route(r)) ==
              if !r.Parsed? then 400
              else if r.path == "/health" || r.path == "/metrics" then (if r.verb == Get then 200 else 405)
              else if r.path == "/query" || r.verb == Other then 405
              else 404
  {
    assert |"/health"| == 7 && |"/metrics"| == 8 && |"/query"| == 6;
  }

  class Context {
    const db: Db
    const maxRequests: nat
    var completed: nat
    var stopRequested: bool

    constructor (maxRequests: nat, lockTimeoutMs: nat)
      ensures db.Valid() && fresh(db) && db.lockTimeoutMs == lockTimeoutMs && completed == 0 && !stopRequested
    {
      hide *;
      db := new Db(lockTimeoutMs);
      this.maxRequests := maxRequests;
      completed, stopRequested := 0, false;
    }

    /** Counts one finished response and asks for a stop when the limit is reached. */
    method NoteResponseComplete()
      modifies this`completed, this`stopRequested
      ensures completed == old(completed) + 1
      ensures stopRequested <==> old(stopRequested) || (maxRequests > 0 && completed >= maxRequests)
    {
      completed := completed + 1;
      if maxRequests > 0 && completed >= maxRequests {
        stopRequested := true;
      }
    }

    /** An error answer, counted like any other response. */
    method SendErrorAndCount(code: int) returns (status: int)
      modifies this`completed, this`stopRequested
      ensures status == code && completed == old(completed) + 1
      ensures stopRequested <==> old(stopRequested) || (maxRequests > 0 && completed >= maxRequests)
    {
      NoteResponseComplete();
      status := code;
    }

    /** Runs a query request and counts its response. */
    method HandleQuery(query: CString, wait: Wait) returns (status: int)
      requires db.Valid() && Ends(Classify(query), wait, db.lockTimeoutMs)
      modifies this`completed, this`stopRequested, db, db.table, db.table.rows, db.table.pkIndex
      ensures db.Valid() && (db.table.rows == old(db.table.rows) || fresh(db.table.rows))
      ensures completed == old(completed) + 1
      ensures stopRequested <==> old(stopRequested) || (maxRequests > 0 && completed >= maxRequests)
      ensures db.metrics.requests == old(db.metrics.requests) + 1
      ensures status == 503 <==> GivesUp(Classify(query), wait, db.lockTimeoutMs)
      ensures DbOf(db.table) ==
              if status == 503 then old(DbOf(db.table)) else Effect(old(DbOf(db.table)), ParseStatement(query))
      ensures status != 503 ==>
                status == if ParseStatement(query).InsertStatement? || ParseStatement(query).SelectStatement? then 200
                    else 400
    {
      hide QueryStarted, QueryFinished, Sums, Answer, Effect, ParseStatement, GivesUp;
      ghost var before := DbOf(db.table);
      var e := db.Execute(query, wait);
      status := if e.timedOut then 503 else StatusCode(e.result.status);
      StatusMeans(before, query);
      NoteResponseComplete();
    }

    /** Turns away a connection for which the queue has no room; it is counted like any other. */
    method RefuseClient() returns (status: int)
      requires db.Valid()
      modifies this`completed, this`stopRequested, db`metrics
      ensures db.Valid() && DbOf(db.table) == old(DbOf(db.table)) && status == 503
      ensures completed == old(completed) + 1
      ensures stopRequested <==> old(stopRequested) || (maxRequests > 0 && completed >= maxRequests)
      ensures db.metrics.requests == old(db.metrics.requests) + 1 && db.metrics.errors == old(db.metrics.errors) + 1
    {
      db.RecordQueueFull();
      status := SendErrorAndCount(503);
    }

    /** Handles one connection: on every route the response is counted exactly once. */
    method HandleClient(request: Request, wait: Wait) returns (status: int)
      requires db.Valid() && (Route(request) == QueryEndpoint ==> Ends(Classify(request.query), wait, db.lockTimeoutMs))
      modifies this, db, db.table, db.table.rows, db.table.pkIndex
      ensures db.Valid() && (db.table.rows == old(db.table.rows) || fresh(db.table.rows))
      ensures completed == old(completed) + 1
      ensures stopRequested <==> old(stopRequested) || (maxRequests > 0 && completed >= maxRequests)
      ensures db.metrics.requests == old(db.metrics.requests) +
                if Route(request) in {HealthEndpoint, MetricsEndpoint, QueryEndpoint} then 1 else 0
      ensures Route(request) != QueryEndpoint ==>
                DbOf(db.table) == old(DbOf(db.table)) && status == FixedStatus(Route(request))
      ensures Route(request) == QueryEndpoint ==>
                && (status == 503 <==> GivesUp(Classify(request.query), wait, db.lockTimeoutMs))
                && (status == 200 <==> status != 503 && (ParseStatement(request.query).InsertStatement?
                                                         || ParseStatement(request.query).SelectStatement?))
                && (status == 200 || status == 400 || status == 503)
                && DbOf(db.table) ==
                   if status == 503 then old(DbOf(db.table))
                   else Effect(old(DbOf(db.table)), ParseStatement(request.query))
    {
      if !request.Parsed? {
        status := SendErrorAndCount(400);
        return;
      }
      if request.verb == Get && request.path == "/health" {
        db.RecordHealth();
        NoteResponseComplete();
        return 200;
      }
      if request.verb == Get && request.path == "/metrics" {
        db.RecordMetricsRequest();
        NoteResponseComplete();
        return 200;
      }
      if request.verb == Post && request.path == "/query" {
        status := HandleQuery(request.query, wait);
        return;
      }
      if (request.path == "/health" || request.path == "/metrics") && request.verb != Get {
        status := SendErrorAndCount(405);
        return;
      }
      if request.path == "/query" && request.verb != Post {
        status := SendErrorAndCount(405);
        return;
      }
      if request.verb == Other {
        status := SendErrorAndCount(405);
        return;
      }
      status := SendErrorAndCount(404);
    }
  }
}
