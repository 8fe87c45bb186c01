/**
 Nothing gets stuck: in every reachable state every worker that has a query has
 a step to take unless the lock is in use, and from every reachable state the
 server can go on, without new queries, until every query in progress has been
 answered and every worker is idle.
 */
module Progress {
  import opened Records
  import opened SqlText
  import opened Sql
  import opened Classifier
  import opened IndexRead
  import opened TreeGrowth
  import opened ServerModel
  import opened Serial
  import opened Counters

  // ------------------------------------------------------- the executor's next step

  /** An INSERT that is not done has a next stage, closer to the end. */
  function InsertLeft(e: Exec): nat {
    match e
    case Begin => 7
    case Grown => 6
    case Taken(_, _) => 5
    case Filled(_, _) => 4
    case Stored(_, _) => 3
    case Indexing(_, _, _) => 2
    case Indexed(_, _, _) => 1
    case _ => 0
  }

  lemma IndexingNext(sh: Shared, rows: seq<Ref>, ref: Ref, id: int, saved: Index) returns (index: Index, inserted: bool)
    requires IndexesRows(saved, rows)
    ensures InsertOutcome(saved, id, ref, index, inserted)
  {
    var m :| Holding(saved, m) && Users.Indexes(m, rows);
    index, inserted := InsertionHasOutcome(saved, m, id, ref);
  }

  lemma InsertNext(sh: Shared, db: Db, st: Statement, e: Exec) returns (sh': Shared, e': Exec)
    requires DbOk(db) && st.InsertStatement? && WriterAt(sh, db, st, e) && !e.Done?
    ensures InsertStep(sh, st.name, st.age, e, sh', e') && InsertLeft(e') < InsertLeft(e)
  {
    hide IndexesRows, InsertOutcome;
    match e {
      case Begin =>
        e' := Grown;
        if sh.size < |sh.rows| {
          sh' := sh;
        } else {
          var extra := if |sh.rows| == 0 then 8 else |sh.rows|;
          sh' := sh.(rows := sh.rows + seq(extra, _ => 0));
          assert sh'.rows[..|sh.rows|] == sh.rows;
        }
      case Grown =>
        e' := Taken(|sh.heap|, sh.nextId);
        sh' := sh.(heap := sh.heap + [Record(sh.nextId, "", 0)], nextId := sh.nextId + 1);
      case Taken(ref, id) =>
        e' := Filled(ref, id);
        sh' := sh.(heap := sh.heap[ref := Record(id, StoredName(st.name), st.age)]);
      case Filled(ref, id) =>
        e' := Stored(ref, id);
        sh' := sh.(rows := sh.rows[sh.size := ref]);
      case Stored(ref, id) =>
        e', sh' := Indexing(ref, id, sh.index), sh;
      case Indexing(ref, id, saved) =>
        var index, inserted := IndexingNext(sh, db.rows, ref, id, saved);
        e', sh' := Indexed(ref, id, inserted), sh.(index := index);
      case Indexed(ref, id, inserted) =>
        e', sh' := Done(SqlResult(StatusOk, Inserted, [], id, 1)), sh.(size := sh.size + 1);
    }
  }

  /** A SELECT that is not done has a next step, which leaves the table alone. */
  lemma SelectNext(sh: Shared, db: Db, st: Statement, e: Exec) returns (e': Exec)
    requires DbOk(db) && st.SelectStatement? && Holds(sh, db) && ReaderAt(sh.index, db, st, e) && !e.Done?
    ensures SelectStep(sh, st.condition, e, sh, e')
  {
    var c := st.condition;
    match e {
      case Begin => e' := if c.IdIs? then Walk(Start) else Scan(0, []);
      case Scan(i, found) =>
        if i >= sh.size {
          e' := Done(RowsResult(found, c));
        } else {
          assert sh.rows[..sh.size][i] == db.rows[i];
          e' := Scan(i + 1, if Matches(sh.heap[sh.rows[i]], c) then found + [sh.rows[i]] else found);
        }
      case Walk(stage) =>
        if stage.Finished? {
          e' := Done(RowsResult(stage.found, c));
        } else {
          e' := Walk(Next(sh.index, c.idOp, c.id, stage));
          WalkStaysIn(sh, db, c, stage);
        }
    }
  }

  lemma WalkStaysIn(sh: Shared, db: Db, c: Condition, stage: Stage)
    requires c.IdIs? && ReadOk(sh.index, db.rows, c.idOp, c.id, stage)
    ensures Next(sh.index, c.idOp, c.id, stage) != Crash
  {
    hide ReadOk;
    ReadAdvances(sh.index, db.rows, c.idOp, c.id, stage);
    ReadIsSafe(sh.index, db.rows, c.idOp, c.id);
  }

  // ------------------------------------------------------ the executor runs to its end

  /** n steps of executing st lead from (sh, e) to (sh', e'). */
  ghost predicate Executes(st: Statement, sh: Shared, e: Exec, sh': Shared, e': Exec, n: nat)
    decreases n
  {
    if n == 0 then sh' == sh && e' == e
    else exists sh1, e1 :: ExecStep(sh, st, e, sh1, e1) && Executes(st, sh1, e1, sh', e', n - 1)
  }

  lemma StepFirst(st: Statement, sh: Shared, e: Exec, sh1: Shared, e1: Exec, sh': Shared, e': Exec, n: nat)
    requires ExecStep(sh, st, e, sh1, e1) && Executes(st, sh1, e1, sh', e', n)
    ensures Executes(st, sh, e, sh', e', n + 1)
  {
  }

  lemma NoSteps(st: Statement, sh: Shared, e: Exec)
    ensures Executes(st, sh, e, sh, e, 0)
  {
  }

  lemma {:induction false} InsertEnds(sh: Shared, db: Db, st: Statement, e: Exec)
    returns (sh': Shared, e': Exec, n: nat)
    requires DbOk(db) && st.InsertStatement? && WriterAt(sh, db, st, e) && !sh.fault
    ensures Executes(st, sh, e, sh', e', n) && e'.Done?
    decreases InsertLeft(e)
  {
    hide WriterAt, InsertStep, Executes;
    if e.Done? {
      sh', e', n := sh, e, 0;
      NoSteps(st, sh, e);
    } else {
      var sh1, e1 := InsertNext(sh, db, st, e);
      InsertAdvances(sh, db, st, e, sh1, e1);
      sh', e', n := InsertEnds(sh1, db, st, e1);
      StepFirst(st, sh, e, sh1, e1, sh', e', n);
      n := n + 1;
    }
  }

  /** Rows still to be scanned, one step to finish. */
  function ScanLeft(sh: Shared, e: Exec): nat {
    if e.Done? then 0 else if e.Scan? && e.row <= sh.size then sh.size - e.row + 1 else sh.size + 2
  }

  lemma ScanNext(sh: Shared, db: Db, st: Statement, e: Exec) returns (e': Exec)
    requires DbOk(db) && st.SelectStatement? && !st.condition.IdIs? && Holds(sh, db) &&
             ReaderAt(sh.index, db, st, e) && !e.Done?
    ensures ExecStep(sh, st, e, sh, e') && ReaderAt(sh.index, db, st, e') && ScanLeft(sh, e') < ScanLeft(sh, e)
  {
    e' := SelectNext(sh, db, st, e);
    SelectAdvances(sh, db, st, e, sh, e');
  }

  lemma {:induction false} ScanEnds(sh: Shared, db: Db, st: Statement, e: Exec) returns (e': Exec, n: nat)
    requires DbOk(db) && st.SelectStatement? && !st.condition.IdIs? && Holds(sh, db) && ReaderAt(sh.index, db, st, e)
    ensures Executes(st, sh, e, sh, e', n) && e'.Done?
    decreases ScanLeft(sh, e)
  {
    hide ReaderAt, Holds, ExecStep, Executes;
    if e.Done? {
      e', n := e, 0;
      NoSteps(st, sh, e);
    } else {
      var e1 := ScanNext(sh, db, st, e);
      e', n := ScanEnds(sh, db, st, e1);
      StepFirst(st, sh, e, sh, e1, sh, e', n);
      n := n + 1;
    }
  }

  lemma WalkNext(sh: Shared, db: Db, st: Statement, stage: Stage)
    requires st.SelectStatement? && st.condition.IdIs? && !stage.Finished?
    requires ReadOk(sh.index, db.rows, st.condition.idOp, st.condition.id, stage)
    ensures var next := Next(sh.index, st.condition.idOp, st.condition.id, stage);
            && ExecStep(sh, st, Walk(stage), sh, Walk(next))
            && ReadOk(sh.index, db.rows, st.condition.idOp, st.condition.id, next)
  {
    hide ReadOk, Next;
    WalkStaysIn(sh, db, st.condition, stage);
    ReadAdvances(sh.index, db.rows, st.condition.idOp, st.condition.id, stage);
  }

  lemma WalkStops(sh: Shared, st: Statement, found: seq<Ref>)
    requires st.SelectStatement? && st.condition.IdIs?
    ensures ExecStep(sh, st, Walk(Finished(found)), sh, Done(RowsResult(found, st.condition)))
  {
  }

  lemma StagesLeft(ix: Index, op: Comparison, id: int, stage: Stage, k: nat)
    requires StageAfter(ix, op, id, stage, k).Finished? && !stage.Finished?
    ensures k > 0 && StageAfter(ix, op, id, Next(ix, op, id, stage), k - 1).Finished?
  {
  }

  lemma {:induction false} WalkEnds(sh: Shared, db: Db, st: Statement, stage: Stage, k: nat) returns (e': Exec, n: nat)
    requires st.SelectStatement? && st.condition.IdIs?
    requires ReadOk(sh.index, db.rows, st.condition.idOp, st.condition.id, stage)
    requires StageAfter(sh.index, st.condition.idOp, st.condition.id, stage, k).Finished?
    ensures Executes(st, sh, Walk(stage), sh, e', n) && e'.Done?
    decreases k
  {
    hide ReadOk, Next, Executes, ExecStep, StageAfter;
    var c := st.condition;
    var e1;
    if stage.Finished? {
      e1 := Done(RowsResult(stage.found, c));
      e', n := e1, 0;
      WalkStops(sh, st, stage.found);
      NoSteps(st, sh, e');
    } else {
      var next := Next(sh.index, c.idOp, c.id, stage);
      e1 := Walk(next);
      WalkNext(sh, db, st, stage);
      StagesLeft(sh.index, c.idOp, c.id, stage, k);
      e', n := WalkEnds(sh, db, st, next, k - 1);
    }
    StepFirst(st, sh, Walk(stage), sh, e1, sh, e', n);
    n := n + 1;
  }

  lemma IdQueryEnds(sh: Shared, db: Db, st: Statement, e: Exec) returns (e': Exec, n: nat)
    requires DbOk(db) && st.SelectStatement? && st.condition.IdIs? && Holds(sh, db) && ReaderAt(sh.index, db, st, e)
    ensures Executes(st, sh, e, sh, e', n) && e'.Done?
  {
    var c := st.condition;
    if e.Done? {
      e', n := e, 0;
    } else if e.Begin? {
      ReadBegins(sh, db, st);
      var k := ReadTerminates(sh.index, db.rows, c.idOp, c.id, Start);
      e', n := WalkEnds(sh, db, st, Start, k);
      assert ExecStep(sh, st, e, sh, Walk(Start));
      n := n + 1;
    } else {
      var k := ReadTerminates(sh.index, db.rows, c.idOp, c.id, e.stage);
      e', n := WalkEnds(sh, db, st, e.stage, k);
    }
  }

  lemma ReaderEnds(sh: Shared, db: Db, st: Statement, e: Exec) returns (e': Exec, n: nat)
    requires DbOk(db) && !st.InsertStatement? && Holds(sh, db) && ReaderAt(sh.index, db, st, e)
    ensures Executes(st, sh, e, sh, e', n) && e'.Done?
  {
    if !st.SelectStatement? {
      if e.Done? {
        e', n := e, 0;
      } else {
        e', n := RefusalEnds(sh, st);
      }
    } else if st.condition.IdIs? {
      e', n := IdQueryEnds(sh, db, st, e);
    } else {
      e', n := ScanEnds(sh, db, st, e);
    }
  }

  lemma RefusalEnds(sh: Shared, st: Statement) returns (e': Exec, n: nat)
    requires !st.InsertStatement? && !st.SelectStatement?
    ensures Executes(st, sh, Begin, sh, e', n) && e'.Done?
  {
    e', n := Done(Failed(if st.ExitStatement? then Exit else st.why)), 1;
    assert ExecStep(sh, st, Begin, sh, e') && Executes(st, sh, e', sh, e', 0);
  }

  /** A running executor can run to its end by its own steps. */
  lemma ExecEnds(s: Server, w: Wid) returns (sh': Shared, e': Exec, n: nat)
    requires Inv(s) && w in s.workers && s.workers[w].Running?
    ensures Executes(s.workers[w].job.st, s.shared, s.workers[w].exec, sh', e', n) && e'.Done?
  {
    var x := s.workers[w];
    var st := x.job.st;
    assert WorkerOk(s, w);
    hide Executes, Holds;
    match x.job.kind {
      case KindNone =>
        if x.exec.Done? {
          sh', e', n := s.shared, x.exec, 0;
          NoSteps(st, sh', e');
        } else {
          e', n := RefusalEnds(s.shared, st);
          sh' := s.shared;
        }
      case KindRead =>
        assert s.lock.writer.None?;
        e', n := ReaderEnds(s.shared, Replay(s.log), st, x.exec);
        sh' := s.shared;
      case KindWrite =>
        sh', e', n := WriterEnds(s.shared, Replay(s.log[..x.pos]), st, x.exec);
    }
  }

  lemma WriterEnds(sh: Shared, db: Db, st: Statement, e: Exec) returns (sh': Shared, e': Exec, n: nat)
    requires DbOk(db) && !st.SelectStatement? && WriterAt(sh, db, st, e) && !sh.fault
    ensures Executes(st, sh, e, sh', e', n) && e'.Done?
  {
    if st.InsertStatement? {
      sh', e', n := InsertEnds(sh, db, st, e);
    } else if e.Done? {
      sh', e', n := sh, e, 0;
    } else {
      e', n := RefusalEnds(sh, st);
      sh' := sh;
    }
  }

  // -------------------------------------------------------------- no worker is stuck

  ghost predicate CanMove(s: Server, a: Action) {
    exists s' :: Step(s, a, s')
  }

  lemma Enables(s: Server, a: Action, s': Server)
    requires Step(s, a, s')
    ensures CanMove(s, a)
  {
  }

  lemma FirstOf(st: Statement, sh: Shared, e: Exec, sh': Shared, e': Exec, n: nat) returns (sh1: Shared, e1: Exec)
    requires Executes(st, sh, e, sh', e', n) && !e.Done? && e'.Done?
    ensures ExecStep(sh, st, e, sh1, e1)
  {
    sh1, e1 :| ExecStep(sh, st, e, sh1, e1) && Executes(st, sh1, e1, sh', e', n - 1);
  }

  /** The server after worker w has made a step of the executor. */
  function Advanced(s: Server, w: Wid, sh: Shared, e: Exec): Server
    requires w in s.workers && s.workers[w].Running?
  {
    With(s, w, s.workers[w].(exec := e)).(shared := sh)
  }

  lemma AdvancedIsStep(s: Server, w: Wid, sh: Shared, e: Exec)
    requires w in s.workers && s.workers[w].Running? &&
             ExecStep(s.shared, s.workers[w].job.st, s.workers[w].exec, sh, e)
    ensures Step(s, Advance(w), Advanced(s, w, sh, e))
  {
    hide ExecStep;
  }

  lemma RunningCanMove(s: Server, w: Wid)
    requires Inv(s) && w in s.workers && s.workers[w].Running?
    ensures CanMove(s, if s.workers[w].exec.Done? then Release(w) else Advance(w))
  {
    hide Inv;
    var x := s.workers[w];
    if x.exec.Done? {
      Enables(s, Release(w), Released(s, w));
    } else {
      var sh', e', n := ExecEnds(s, w);
      var sh1, e1 := FirstOf(x.job.st, s.shared, x.exec, sh', e', n);
      AdvancedIsStep(s, w, sh1, e1);
      Enables(s, Advance(w), Advanced(s, w, sh1, e1));
    }
  }

  /** The server after worker w has given its lock back. */
  function Released(s: Server, w: Wid): Server
    requires w in s.workers && s.workers[w].Running? && s.workers[w].exec.Done?
  {
    var x := s.workers[w];
    With(s, w, Executed(x.job, x.pos, x.exec.result))
      .(lock := Unlocked(s.lock, w, x.job.kind),
        answers := if x.job.kind == KindNone then s.answers else s.answers[x.pos := x.exec.result])
  }

  function Acquired(s: Server, w: Wid): Server
    requires w in s.workers && s.workers[w].Polling?
  {
    var j := s.workers[w].job;
    With(s, w, Running(j, if j.kind == KindNone then -1 else |s.log|, Begin))
      .(lock := Locked(s.lock, w, j.kind), log := if j.kind == KindNone then s.log else s.log + [j])
  }

  function Counted(s: Server, w: Wid): Server
    requires w in s.workers && s.workers[w].Executed?
  {
    var x := s.workers[w];
    With(s, w, Rendering(x.job, x.pos, x.result, [])).(metrics := QueryFinished(s.metrics, false, x.result.status))
  }

  function GivenUp(s: Server, w: Wid): Server {
    With(s, w, Idle).(metrics := QueryFinished(s.metrics, true, Error))
  }

  function Responded(s: Server, w: Wid): Server
    requires w in s.workers && s.workers[w].Rendering?
  {
    var x := s.workers[w];
    With(s, w, Idle).(responses := s.responses + [Response(x.job, x.pos, x.result, x.sent)])
  }

  /** Nobody who wants this kind of lock has to wait. */
  predicate MayEnter(l: Lock, kind: QueryKind) {
    kind == KindNone || (l.writer.None? && (kind == KindRead || l.readers == {}))
  }

  lemma AcquiredIsStep(s: Server, w: Wid)
    requires w in s.workers && s.workers[w].Polling? && MayEnter(s.lock, s.workers[w].job.kind)
    ensures Step(s, Acquire(w), Acquired(s, w))
  {
  }

  lemma ReceiveIsStep(s: Server, w: Wid, job: Job)
    requires w in s.workers && s.workers[w].Idle?
    ensures CanMove(s, Receive(w, job))
  {
    Enables(s, Receive(w, job), With(s, w, Polling(job)).(metrics := QueryStarted(s.metrics, job.kind)));
  }

  /** The next record can be rendered, with all of memory left alone. */
  lemma RenderNext(s: Server, w: Wid) returns (s': Server)
    requires Inv(s) && w in s.workers && s.workers[w].Rendering?
    requires |s.workers[w].sent| < |s.workers[w].result.records|
    ensures Step(s, RenderRow(w), s') && w in s'.workers && s'.responses == s.responses
    ensures s'.workers == s.workers[w := s'.workers[w]] && s'.workers[w].Rendering?
    ensures var x, x' := s.workers[w], s'.workers[w];
            x'.job == x.job && x'.result == x.result && |x'.sent| == |x.sent| + 1
  {
    hide Inv, Renders;
    NextRecord(s, w);
    var x := s.workers[w];
    s' := With(s, w, x.(sent := x.sent + [s.shared.heap[x.result.records[|x.sent|]]]));
  }

  lemma SentFits(s: Server, w: Wid)
    requires Inv(s) && w in s.workers && s.workers[w].Rendering?
    ensures |s.workers[w].sent| <= |s.workers[w].result.records|
  {
    hide Replay, Answer;
    assert WorkerOk(s, w);
  }

  /**
   In every reachable state an idle worker can take any query,
       and a worker with a query has a step to take: the executor's next step or the release of its
   lock, the count, the next row or the response.  A waiting one gets its lock whenever nobody is in the way, and may
   give up exactly when there is a timeout and a lock to wait for.
   */
  lemma NoWorkerStuck(states: seq<Server>, actions: seq<Action>, i: nat, w: Wid)
    requires IsRun(states, actions) && i < |states| && w in states[i].workers
    ensures var s := states[i];
            match s.workers[w]
            case Idle => forall text :: CanMove(s, Receive(w, JobOf(text)))
            case Polling(q) =>
              && (q.kind == KindNone || (s.lock.writer.None? && (q.kind == KindRead || s.lock.readers == {}))
                  ==> CanMove(s, Acquire(w)))
              && (CanMove(s, GiveUp(w)) <==> s.timeoutMs > 0 && q.kind != KindNone)
            case Running(_, _, e) => CanMove(s, if e.Done? then Release(w) else Advance(w))
            case Executed(_, _, _) => CanMove(s, Finish(w))
            case TimedOut(_) => CanMove(s, FinishTimedOut(w))
            case Rendering(_, _, r, sent) => CanMove(s, if |sent| < |r.records| then RenderRow(w) else Respond(w))
  {
    hide Arrivals, JobOf, Inv;
    var s := states[i];
    RunKeepsInv(states, actions, i);
    match s.workers[w] {
      case Idle =>
        forall text | true ensures CanMove(s, Receive(w, JobOf(text))) {
          ReceiveIsStep(s, w, JobOf(text));
        }
      case Polling(q) =>
        if MayEnter(s.lock, q.kind) {
          AcquiredIsStep(s, w);
          Enables(s, Acquire(w), Acquired(s, w));
        }
        if s.timeoutMs > 0 && q.kind != KindNone {
          Enables(s, GiveUp(w), With(s, w, TimedOut(q)));
        }
      case Running(_, _, _) => RunningCanMove(s, w);
      case Executed(_, _, _) => Enables(s, Finish(w), Counted(s, w));
      case TimedOut(_) => Enables(s, FinishTimedOut(w), GivenUp(s, w));
      case Rendering(_, _, r, sent) =>
        SentFits(s, w);
        if |sent| < |r.records| {
          var s' := RenderNext(s, w);
          Enables(s, RenderRow(w), s');
        } else {
          Enables(s, Respond(w), Responded(s, w));
        }
    }
  }

  // --------------------------------------------------------- every query can be answered

  /** A step that brings queries in progress forward: no new query, no giving up. */
  predicate Forward(a: Action) {
    a.Acquire? || a.Advance? || a.Release? || a.Finish? || a.FinishTimedOut? || a.RenderRow? || a.Respond?
  }

  /** n such steps lead from s to s'. */
  ghost predicate Leads(s: Server, s': Server, n: nat)
    decreases n
  {
    if n == 0 then s' == s
    else exists a, mid :: Forward(a) && Step(s, a, mid) && Leads(mid, s', n - 1)
  }

  lemma LeadsFirst(s: Server, a: Action, mid: Server, s': Server, n: nat)
    requires Forward(a) && Step(s, a, mid) && Leads(mid, s', n)
    ensures Leads(s, s', n + 1)
  {
  }

  lemma LeadsNowhere(s: Server)
    ensures Leads(s, s, 0)
  {
  }

  lemma {:induction false} LeadsOn(s: Server, mid: Server, s': Server, m: nat, n: nat)
    requires Leads(s, mid, m) && Leads(mid, s', n)
    ensures Leads(s, s', m + n)
    decreases m
  {
    hide Step;
    if m > 0 {
      var a, next :| Forward(a) && Step(s, a, next) && Leads(next, mid, m - 1);
      LeadsOn(next, mid, s', m - 1, n);
      LeadsFirst(s, a, next, s', m - 1 + n);
    }
  }

  /** Worker w has been served: it is idle, its query answered, and nobody else has moved. */
  ghost predicate Served(s: Server, w: Wid, s': Server, n: nat)
    requires w in s.workers && !s.workers[w].Idle?
  {
    && Leads(s, s', n) && Inv(s')
    && s'.workers == s.workers[w := Idle]
    && if s.workers[w].TimedOut? then s'.responses == s.responses
       else exists r :: s'.responses == s.responses + [r] && r.job == s.workers[w].job
  }

  /** If one step leaves w with the same query and everything else alone, being served after it is being served. */
  lemma ServedFirst(s: Server, a: Action, mid: Server, w: Wid, s': Server, n: nat)
    requires w in s.workers && !s.workers[w].Idle? && w in mid.workers && !mid.workers[w].Idle?
    requires Forward(a) && Step(s, a, mid) && Served(mid, w, s', n)
    requires mid.workers == s.workers[w := mid.workers[w]] && mid.responses == s.responses
    requires mid.workers[w].job == s.workers[w].job && (mid.workers[w].TimedOut? <==> s.workers[w].TimedOut?)
    ensures Served(s, w, s', n + 1)
  {
    hide Step, Inv, Leads;
    LeadsFirst(s, a, mid, s', n);
    assert s'.workers == s.workers[w := Idle];
  }

  lemma {:induction false} ServeRendering(s: Server, w: Wid) returns (s': Server, n: nat)
    requires Inv(s) && w in s.workers && s.workers[w].Rendering?
    ensures Served(s, w, s', n)
    decreases |s.workers[w].result.records| - |s.workers[w].sent|
  {
    hide Inv, Step, Served, Leads;
    SentFits(s, w);
    if |s.workers[w].sent| < |s.workers[w].result.records| {
      var mid := RenderNext(s, w);
      StepKeepsInv(s, RenderRow(w), mid);
      s', n := ServeRendering(mid, w);
      ServedFirst(s, RenderRow(w), mid, w, s', n);
      n := n + 1;
    } else {
      s', n := ServeRendered(s, w);
    }
  }

  lemma ServeRendered(s: Server, w: Wid) returns (s': Server, n: nat)
    requires Inv(s) && w in s.workers && s.workers[w].Rendering?
    requires |s.workers[w].sent| == |s.workers[w].result.records|
    ensures Served(s, w, s', n)
  {
    hide Inv, Leads;
    s', n := Responded(s, w), 1;
    assert Step(s, Respond(w), s');
    StepKeepsInv(s, Respond(w), s');
    LeadsNowhere(s');
    LeadsFirst(s, Respond(w), s', s', 0);
    var x := s.workers[w];
    var r := Response(x.job, x.pos, x.result, x.sent);
    assert s'.responses == s.responses + [r] && r.job == x.job;
  }

  lemma ServeExecuted(s: Server, w: Wid) returns (s': Server, n: nat)
    requires Inv(s) && w in s.workers && s.workers[w].Executed?
    ensures Served(s, w, s', n)
  {
    hide Inv, Served;
    var mid := Counted(s, w);
    assert Step(s, Finish(w), mid);
    StepKeepsInv(s, Finish(w), mid);
    s', n := ServeRendering(mid, w);
    ServedFirst(s, Finish(w), mid, w, s', n);
    n := n + 1;
  }

  lemma ServeDone(s: Server, w: Wid) returns (s': Server, n: nat)
    requires Inv(s) && w in s.workers && s.workers[w].Running? && s.workers[w].exec.Done?
    ensures Served(s, w, s', n)
  {
    hide Inv, Served;
    var mid := Released(s, w);
    assert Step(s, Release(w), mid);
    StepKeepsInv(s, Release(w), mid);
    s', n := ServeExecuted(mid, w);
    ServedFirst(s, Release(w), mid, w, s', n);
    n := n + 1;
  }

  /** The executor's own run, followed by the rest of the call. */
  lemma {:induction false} ServeExec(s: Server, w: Wid, sh: Shared, e: Exec, k: nat) returns (s': Server, n: nat)
    requires Inv(s) && w in s.workers && s.workers[w].Running?
    requires Executes(s.workers[w].job.st, s.shared, s.workers[w].exec, sh, e, k) && e.Done?
    ensures Served(s, w, s', n)
    decreases k
  {
    hide Inv, Served, ExecStep, Step;
    var x := s.workers[w];
    if x.exec.Done? {
      s', n := ServeDone(s, w);
    } else {
      var sh1, e1 :| ExecStep(s.shared, x.job.st, x.exec, sh1, e1) && Executes(x.job.st, sh1, e1, sh, e, k - 1);
      var mid := Advanced(s, w, sh1, e1);
      AdvancedIsStep(s, w, sh1, e1);
      StepKeepsInv(s, Advance(w), mid);
      s', n := ServeExec(mid, w, sh, e, k - 1);
      ServedFirst(s, Advance(w), mid, w, s', n);
      n := n + 1;
    }
  }

  lemma ServeRunning(s: Server, w: Wid) returns (s': Server, n: nat)
    requires Inv(s) && w in s.workers && s.workers[w].Running?
    ensures Served(s, w, s', n)
  {
    hide Inv, Served, Executes;
    var sh, e, k := ExecEnds(s, w);
    s', n := ServeExec(s, w, sh, e, k);
  }

  predicate NobodyRuns(s: Server) {
    forall v :: v in s.workers ==> !s.workers[v].Running?
  }

  /** The lock is held by running workers only. */
  lemma LockIsFree(s: Server)
    requires Inv(s) && NobodyRuns(s)
    ensures s.lock.readers == {} && s.lock.writer.None?
  {
    hide WorkerOk, AnswerOk, ResponseOk, Holds, Replay;
    assert forall v :: v !in s.lock.readers;
  }

  lemma ServePolling(s: Server, w: Wid) returns (s': Server, n: nat)
    requires Inv(s) && w in s.workers && s.workers[w].Polling? && NobodyRuns(s)
    ensures Served(s, w, s', n)
  {
    LockIsFree(s);
    hide Inv, Served, Step;
    var mid := Acquired(s, w);
    AcquiredIsStep(s, w);
    StepKeepsInv(s, Acquire(w), mid);
    s', n := ServeRunning(mid, w);
    ServedFirst(s, Acquire(w), mid, w, s', n);
    n := n + 1;
  }

  lemma ServeTimedOut(s: Server, w: Wid) returns (s': Server, n: nat)
    requires Inv(s) && w in s.workers && s.workers[w].TimedOut?
    ensures Served(s, w, s', n)
  {
    hide Inv, Leads;
    s', n := GivenUp(s, w), 1;
    assert Step(s, FinishTimedOut(w), s');
    StepKeepsInv(s, FinishTimedOut(w), s');
    LeadsNowhere(s');
    LeadsFirst(s, FinishTimedOut(w), s', s', 0);
  }

  lemma ServeOne(s: Server, w: Wid) returns (s': Server, n: nat)
    requires Inv(s) && w in s.workers && !s.workers[w].Idle? && (s.workers[w].Running? || NobodyRuns(s))
    ensures Served(s, w, s', n)
  {
    hide Inv, Served;
    match s.workers[w] {
      case Polling(_) => s', n := ServePolling(s, w);
      case Running(_, _, _) => s', n := ServeRunning(s, w);
      case Executed(_, _, _) => s', n := ServeExecuted(s, w);
      case TimedOut(_) => s', n := ServeTimedOut(s, w);
      case Rendering(_, _, _, _) => s', n := ServeRendering(s, w);
    }
  }

  /** The workers whose query is still to be answered. */
  ghost function Owing(workers: map<Wid, Worker>): set<Wid> {
    set w | w in workers && !workers[w].Idle? && !workers[w].TimedOut?
  }

  /** The query that worker w has in s is answered between s and s'. */
  ghost predicate Answered(s: Server, s': Server, w: Wid)
    requires w in s.workers && !s.workers[w].Idle?
  {
    exists k :: |s.responses| <= k < |s'.responses| && s'.responses[k].job == s.workers[w].job
  }

  /** Everyone has been served, each query answered once. */
  ghost predicate AllServed(s: Server, s': Server) {
    && s'.workers.Keys == s.workers.Keys
    && (forall w :: w in s'.workers ==> s'.workers[w].Idle?)
    && s.responses <= s'.responses
    && |s'.responses| == |s.responses| + |Owing(s.workers)|
    && forall w :: w in Owing(s.workers) ==> Answered(s, s', w)
  }

  lemma NextToServe(s: Server) returns (w: Wid)
    requires Engaged(s.workers) != {}
    ensures w in s.workers && !s.workers[w].Idle? && (s.workers[w].Running? || NobodyRuns(s))
  {
    if NobodyRuns(s) {
      w :| w in Engaged(s.workers);
    } else {
      w :| w in s.workers && s.workers[w].Running?;
    }
  }

  /** Serving w takes it, and only it, out of the workers engaged. */
  lemma OneLess(s: Server, w: Wid, s1: Server)
    requires w in s.workers && !s.workers[w].Idle? && s1.workers == s.workers[w := Idle]
    ensures s1.workers.Keys == s.workers.Keys
    ensures Engaged(s1.workers) == Engaged(s.workers) - {w} && |Engaged(s1.workers)| < |Engaged(s.workers)|
    ensures Owing(s1.workers) == Owing(s.workers) - {w}
    ensures |Owing(s.workers)| == |Owing(s1.workers)| + if s.workers[w].TimedOut? then 0 else 1
  {
    assert Engaged(s1.workers) == Engaged(s.workers) - {w};
    assert Owing(s1.workers) == Owing(s.workers) - {w};
  }

  lemma ServedThenAll(s: Server, w: Wid, s1: Server, n: nat, s': Server)
    requires w in s.workers && !s.workers[w].Idle? && Served(s, w, s1, n) && AllServed(s1, s')
    ensures AllServed(s, s')
  {
    hide Inv, Leads;
    OneLess(s, w, s1);
    forall v | v in Owing(s.workers) ensures Answered(s, s', v) {
      if v == w {
        assert s1.responses[|s.responses|].job == s.workers[w].job;
        assert s'.responses[|s.responses|] == s1.responses[|s.responses|];
      } else {
        assert Answered(s1, s', v);
      }
    }
  }

  /** From every state that keeps the invariant all queries in progress can be brought to their end. */
  lemma {:induction false} ServeAll(s: Server) returns (s': Server, n: nat)
    requires Inv(s)
    ensures Leads(s, s', n) && AllServed(s, s')
    decreases |Engaged(s.workers)|
  {
    hide Inv, Served, Leads;
    if Engaged(s.workers) == {} {
      s', n := s, 0;
      LeadsNowhere(s);
      NothingOwed(s);
    } else {
      var w := NextToServe(s);
      var s1, m := ServeOne(s, w);
      ServedMeans(s, w, s1, m);
      OneLess(s, w, s1);
      s', n := ServeAll(s1);
      ServedThenAll(s, w, s1, m, s');
      LeadsOn(s, s1, s', m, n);
      n := m + n;
    }
  }

  lemma ServedMeans(s: Server, w: Wid, s1: Server, n: nat)
    requires w in s.workers && !s.workers[w].Idle? && Served(s, w, s1, n)
    ensures Leads(s, s1, n) && Inv(s1) && s1.workers == s.workers[w := Idle]
  {
  }

  lemma NothingOwed(s: Server)
    requires Engaged(s.workers) == {}
    ensures AllServed(s, s)
  {
    assert Owing(s.workers) <= Engaged(s.workers);
    forall w | w in s.workers ensures s.workers[w].Idle? {
      assert w !in Engaged(s.workers);
    }
  }

  /**
   From every reachable state some continuation, without new queries and without anyone giving up, makes all workers
   idle, with one response for every query that was in progress and had not timed out.
   */
  lemma EveryQueryCanBeAnswered(states: seq<Server>, actions: seq<Action>, i: nat) returns (s': Server, n: nat)
    requires IsRun(states, actions) && i < |states|
    ensures Leads(states[i], s', n) && AllServed(states[i], s')
  {
    hide Arrivals, JobOf, Inv, Leads, AllServed;
    RunKeepsInv(states, actions, i);
    s', n := ServeAll(states[i]);
  }

  // ----------------------------------------------------- nothing is taken for granted

  /** A server can start with any workers and any timeout. */
  lemma AnyServerCanStart(workers: set<Wid>, timeoutMs: nat) returns (s: Server)
    ensures Init(s) && s.workers.Keys == workers && s.timeoutMs == timeoutMs
  {
    s := Server(Shared(1, [], 0, [], Index([], -1), false), Lock({}, None), map w | w in workers :: Idle,
      Metrics(0, 0, 0, 0, 0, 0, 0, 0, 0, 0, 0, 0, 0, 0), timeoutMs, [], map[], []);
  }

  /** While an INSERT updates the tree, the arena may hold anything at all, again and again. */
  lemma ArenaMayBeAnything(sh: Shared, name: string, age: int, ref: Ref, id: int, saved: Index, torn: Index)
    ensures InsertStep(sh, name, age, Stored(ref, id), sh.(index := torn), Indexing(ref, id, sh.index))
    ensures InsertStep(sh, name, age, Indexing(ref, id, saved), sh.(index := torn), Indexing(ref, id, saved))
  {
  }

  /** Health, metrics and overflow requests may come at any time. */
  lemma RequestsMayCome(s: Server)
    ensures CanMove(s, Health) && CanMove(s, MetricsRequest) && CanMove(s, QueueFull)
  {
    var m := s.metrics;
    Enables(s, Health, s.(metrics := m.(requests := m.requests + 1, health := m.health + 1)));
    Enables(s, MetricsRequest, s.(metrics := m.(requests := m.requests + 1, metrics := m.metrics + 1)));
    Enables(s, QueueFull,
        s.(metrics := m.(requests := m.requests + 1, errors := m.errors + 1, queueFull := m.queueFull + 1)));
  }
}
