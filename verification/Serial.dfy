/**
 Serialisability: in every state of every run, what the workers have seen and
 left behind is what running the completed queries one at a time, in the order
 in which they obtained the lock, would have given.
 */
module Serial {
  import opened Records
  import opened SqlText
  import opened Sql
  import opened Classifier
  import opened ServerModel
  import opened IndexRead

  // ------------------------------------------------------------- sequential runs

  /** The table after running the queries one at a time on an empty table. */
  ghost function Replay(log: seq<Job>): (r: Db)
    ensures DbOk(r)
  {
    if log == [] then Db([], []) else Effect(Replay(log[..|log| - 1]), log[|log| - 1].st)
  }

  lemma ReplayAppend(log: seq<Job>, q: Job)
    ensures Replay(log + [q]) == Effect(Replay(log), q.st)
  {
    assert (log + [q])[..|log + [q]| - 1] == log;
  }

  lemma EffectGrows(db: Db, st: Statement)
    requires DbOk(db)
    ensures db.heap <= Effect(db, st).heap && db.rows <= Effect(db, st).rows
  {
  }

  lemma ReplayTake(log: seq<Job>, i: nat)
    requires i < |log|
    ensures Replay(log[..i + 1]) == Effect(Replay(log[..i]), log[i].st)
  {
    assert log[..i + 1] == log[..i] + [log[i]];
    ReplayAppend(log[..i], log[i]);
  }

  /** Earlier tables are prefixes of later ones: records are only ever added. */
  lemma {:induction false} ReplayGrows(log: seq<Job>, i: nat, j: nat)
    requires i <= j <= |log|
    ensures Replay(log[..i]).heap <= Replay(log[..j]).heap && Replay(log[..i]).rows <= Replay(log[..j]).rows
    decreases j
  {
    if i < j {
      ReplayGrows(log, i, j - 1);
      ReplayTake(log, j - 1);
      EffectGrows(Replay(log[..j - 1]), log[j - 1].st);
    }
  }

  predicate Inserts(j: Job) {
    j.st.InsertStatement?
  }

  /** The lock chosen for a job covers what its statement does. */
  predicate Covered(j: Job) {
    && (j.st.InsertStatement? ==> j.kind == KindWrite)
    && (j.st.SelectStatement? ==> j.kind == KindRead)
  }

  lemma ReplayRead(log: seq<Job>)
    requires log != [] && !Inserts(log[|log| - 1])
    ensures Replay(log) == Replay(log[..|log| - 1])
  {
  }

  /** Queries that insert nothing leave the table as it was. */
  lemma {:induction false} ReplayReadsOnly(log: seq<Job>, i: nat)
    requires i <= |log| && forall j :: i <= j < |log| ==> !Inserts(log[j])
    ensures Replay(log) == Replay(log[..i])
    decreases |log|
  {
    hide Replay;
    if i < |log| {
      var front := log[..|log| - 1];
      ReplayReadsOnly(front, i);
      assert front[..i] == log[..i];
      ReplayRead(log);
    } else {
      assert log[..i] == log;
    }
  }

  /** The queries among the first n that have been answered, in order. */
  ghost function Completed(log: seq<Job>, answers: map<int, SqlResult>, n: nat): (r: seq<Job>)
    requires n <= |log|
  {
    if n == 0 then [] else
    Completed(log, answers, n - 1) + if n - 1 in answers then [log[n - 1]] else []
  }

  /** Query j is either answered or leaves the table alone. */
  predicate Settles(log: seq<Job>, answers: map<int, SqlResult>, j: int) {
    0 <= j < |log| && j !in answers ==> !Inserts(log[j])
  }

  lemma CompletedAnswered(log: seq<Job>, answers: map<int, SqlResult>, n: nat)
    requires n < |log| && n in answers
    ensures Replay(Completed(log, answers, n + 1)) == Effect(Replay(Completed(log, answers, n)), log[n].st)
  {
    ReplayAppend(Completed(log, answers, n), log[n]);
  }

  lemma CompletedUnanswered(log: seq<Job>, answers: map<int, SqlResult>, n: nat)
    requires n < |log| && n !in answers
    ensures Completed(log, answers, n + 1) == Completed(log, answers, n)
  {
  }

  /** Query n does to the completed queries' table what it does to the table of all queries before it. */
  lemma CompletedStep(log: seq<Job>, answers: map<int, SqlResult>, n: nat)
    requires n < |log| && Settles(log, answers, n)
    ensures Replay(Completed(log, answers, n + 1)) == Effect(Replay(Completed(log, answers, n)), log[n].st)
  {
    if n in answers {
      CompletedAnswered(log, answers, n);
    } else {
      CompletedUnanswered(log, answers, n);
    }
  }

  lemma {:induction false} CompletedReplay(log: seq<Job>, answers: map<int, SqlResult>, n: nat)
    requires n <= |log| && forall j {:trigger Settles(log, answers, j)} :: 0 <= j < n ==> Settles(log, answers, j)
    ensures Replay(Completed(log, answers, n)) == Replay(log[..n])
  {
    if n > 0 {
      hide *;
      CompletedReplay(log, answers, n - 1);
      ReplayTake(log, n - 1);
      CompletedStep(log, answers, n - 1);
    } else {
      assert log[..0] == [];
    }
  }

  // ----------------------------------------------------------------- invariant

  /** The table in memory, at rest, is db. */
  ghost predicate Holds(sh: Shared, db: Db) {
    && sh.nextId == |db.rows| + 1
    && sh.size == |db.rows| <= |sh.rows|
    && sh.rows[..sh.size] == db.rows
    && sh.heap == db.heap
    && IndexesRows(sh.index, db.rows)
  }

  /** The table in memory while a writer is at stage e of its statement, having started from db. */
  ghost predicate WriterAt(sh: Shared, db: Db, st: Statement, e: Exec)
    requires DbOk(db)
  {
    if e == Begin then Holds(sh, db)
    else if !st.InsertStatement? then
      e == Done(Answer(db, st)) && Holds(sh, db) && !st.SelectStatement?
    else
      var id := |db.rows| + 1;
      var ref := |db.heap|;
      var blank := db.heap + [Record(id, "", 0)];
      var filled := db.heap + [Record(id, StoredName(st.name), st.age)];
      var below := sh.size == |db.rows| < |sh.rows| && sh.rows[..sh.size] == db.rows;
      match e
      case Grown => Holds(sh, db) && sh.size < |sh.rows|
      case Taken(r, i) => r == ref && i == id && below && sh.nextId == id + 1 && sh.heap == blank &&
          IndexesRows(sh.index, db.rows)
      case Filled(r, i) => r == ref && i == id && below && sh.nextId == id + 1 && sh.heap == filled &&
          IndexesRows(sh.index, db.rows)
      case Stored(r, i) =>
        r == ref && i == id && below && sh.nextId == id + 1 && sh.heap == filled && sh.rows[sh.size] == ref &&
            IndexesRows(sh.index, db.rows)
      case Indexing(r, i, saved) =>
        r == ref && i == id && below && sh.nextId == id + 1 && sh.heap == filled && sh.rows[sh.size] == ref &&
            IndexesRows(saved, db.rows)
      case Indexed(r, i, inserted) =>
        && r == ref && i == id && below && sh.nextId == id + 1 && sh.heap == filled && sh.rows[sh.size] == ref
        && inserted && IndexesRows(sh.index, db.rows + [ref])
      case Done(result) => result == Answer(db, st) && Holds(sh, Effect(db, st))
      case _ => false
  }

  /** What a reader at stage e has collected from db, reading the index as it stands in memory. */
  ghost predicate ReaderAt(index: Index, db: Db, st: Statement, e: Exec)
    requires DbOk(db)
  {
    match e
    case Begin => true
    case Scan(i, found) =>
      st.SelectStatement? && !st.condition.IdIs? && i <= |db.rows| &&
          found == SelectTo(db.rows, db.heap, st.condition, i)
    case Walk(stage) =>
      st.SelectStatement? && st.condition.IdIs? && ReadOk(index, db.rows, st.condition.idOp, st.condition.id, stage)
    case Done(result) => result == Answer(db, st)
    case _ => false
  }

  /** The result of a query that took no lock: it touches nothing, so every table gives it. */
  ghost predicate Unlogged(q: Job, result: SqlResult) {
    && !q.st.InsertStatement? && !q.st.SelectStatement?
    && result == Answer(Db([], []), q.st)
  }

  /** The result of the query at a position of the log. */
  ghost predicate Logged(s: Server, q: Job, pos: int, result: SqlResult) {
    0 <= pos < |s.log| && s.log[pos] == q && pos in s.answers && s.answers[pos] == result
  }

  ghost predicate WorkerOk(s: Server, w: Wid)
    requires w in s.workers
  {
    match s.workers[w]
    case Polling(q) => Covered(q)
    case Running(q, pos, e) =>
      Covered(q) &&
      (match q.kind
       case KindNone => e == Begin || e == Done(Answer(Db([], []), q.st))
       case KindRead =>
         && w in s.lock.readers
         && 0 <= pos < |s.log| && s.log[pos] == q
         && (forall j :: pos <= j < |s.log| ==> !Inserts(s.log[j]))
         && ReaderAt(s.shared.index, Replay(s.log), q.st, e)
       case KindWrite =>
         && s.lock.writer == Some(w)
         && 0 <= pos == |s.log| - 1 && s.log[pos] == q
         && WriterAt(s.shared, Replay(s.log[..pos]), q.st, e))
    case Executed(q, pos, result) =>
      if q.kind == KindNone then Unlogged(q, result) else Logged(s, q, pos, result)
    case Rendering(q, pos, result, sent) =>
      if q.kind == KindNone then Unlogged(q, result) && sent == []
      else Logged(s, q, pos, result) && Renders(Replay(s.log[..pos]), result, sent)
    case _ => true
  }

  /** The rows sent so far are the records as they stood under the lock. */
  ghost predicate Renders(db: Db, result: SqlResult, sent: seq<Record>) {
    && |sent| <= |result.records|
    && Resolved(result.records, db.heap)
    && forall j :: 0 <= j < |sent| ==> sent[j] == db.heap[result.records[j]]
  }

  ghost predicate LockOk(s: Server) {
    && (forall w :: w in s.lock.readers ==>
       w in s.workers && s.workers[w].Running? && s.workers[w].job.kind == KindRead)
    && (s.lock.writer.Some? ==>
          && s.lock.readers == {}
          && s.lock.writer.value in s.workers
          && s.workers[s.lock.writer.value].Running?
          && s.workers[s.lock.writer.value].job.kind == KindWrite)
  }

  ghost predicate AnswerOk(s: Server, p: int) {
    && p in s.answers && 0 <= p < |s.log|
    && s.answers[p] == Answer(Replay(s.log[..p]), s.log[p].st)
  }

  ghost predicate Inv(s: Server) {
    && !s.shared.fault
    && LockOk(s)
    && (s.lock.writer.None? ==> Holds(s.shared, Replay(s.log)))
    && (forall w :: w in s.workers ==> WorkerOk(s, w))
    && (forall p :: p in s.answers ==> AnswerOk(s, p))
    && (forall p :: 0 <= p < |s.log| && p !in s.answers && Inserts(s.log[p]) ==>
       p == |s.log| - 1 && s.lock.writer.Some?)
    && (forall r :: r in s.responses ==> ResponseOk(s, r))
  }

  /** A response carries exactly the records its query selected, as they were under its lock. */
  ghost predicate ResponseOk(s: Server, r: Response) {
    && |r.rows| == |r.result.records|
    && if r.job.kind == KindNone then Unlogged(r.job, r.result)
       else Logged(s, r.job, r.pos, r.result) && Renders(Replay(s.log[..r.pos]), r.result, r.rows)
  }

  // ------------------------------------------------------------ executor stages

  /** Each stage of an INSERT leads to the next, and the last one to the new table. */
  lemma InsertAdvances(sh: Shared, db: Db, st: Statement, e: Exec, sh': Shared, e': Exec)
    requires DbOk(db) && st.InsertStatement? && WriterAt(sh, db, st, e) && !sh.fault
    requires InsertStep(sh, st.name, st.age, e, sh', e')
    ensures WriterAt(sh', db, st, e') && !sh'.fault
  {
    hide IndexesRows, InsertOutcome;
    if e.Indexing? && e'.Indexed? {
      OutcomeIndexes(e.saved, db.rows, e.ref, sh'.index, e'.inserted);
    }
  }

  /** The table a writer started from is never damaged: its records stay in place at every stage. */
  lemma WriterKeepsRecords(sh: Shared, db: Db, st: Statement, e: Exec)
    requires DbOk(db) && WriterAt(sh, db, st, e)
    ensures db.heap <= sh.heap
  {
  }

  /** Each stage of a SELECT on a table at rest sees that table and nothing else. */
  lemma SelectAdvances(sh: Shared, db: Db, st: Statement, e: Exec, sh': Shared, e': Exec)
    requires DbOk(db) && st.SelectStatement? && Holds(sh, db) && ReaderAt(sh.index, db, st, e)
    requires SelectStep(sh, st.condition, e, sh', e')
    ensures sh' == sh && ReaderAt(sh.index, db, st, e')
  {
    match e {
      case Scan(i, found) =>
        ScanAdvances(sh, db, st, i, found, sh', e');
      case Walk(stage) =>
        WalkAdvances(sh, db, st, stage, sh', e');
      case Begin =>
        ReadBegins(sh, db, st);
      case _ =>
    }
  }

  lemma ReadBegins(sh: Shared, db: Db, st: Statement)
    requires DbOk(db) && st.SelectStatement? && Holds(sh, db)
    ensures st.condition.IdIs? ==> ReadOk(sh.index, db.rows, st.condition.idOp, st.condition.id, Start)
  {
    if st.condition.IdIs? {
      ReadStarts(sh.index, db.rows, st.condition.idOp, st.condition.id);
    }
  }

  lemma ScanAdvances(sh: Shared, db: Db, st: Statement, i: nat, found: seq<Ref>, sh': Shared, e': Exec)
    requires DbOk(db) && st.SelectStatement? && Holds(sh, db) && ReaderAt(sh.index, db, st, Scan(i, found))
    requires SelectStep(sh, st.condition, Scan(i, found), sh', e')
    ensures sh' == sh && ReaderAt(sh.index, db, st, e')
  {
  }

  lemma WalkAdvances(sh: Shared, db: Db, st: Statement, stage: Stage, sh': Shared, e': Exec)
    requires DbOk(db) && st.SelectStatement? && ReaderAt(sh.index, db, st, Walk(stage))
    requires SelectStep(sh, st.condition, Walk(stage), sh', e')
    ensures sh' == sh && ReaderAt(sh.index, db, st, e')
  {
    var op, id := st.condition.idOp, st.condition.id;
    if stage.Finished? {
      ReadEnds(sh.index, db.rows, db.heap, op, id, stage.found);
    } else {
      ReadAdvances(sh.index, db.rows, op, id, stage);
      ReadIsSafe(sh.index, db.rows, op, id);
    }
  }

  // ----------------------------------------------------------- every step keeps it

  /** A step that only moves one worker between states outside the executor. */
  lemma QuietStep(s: Server, s': Server, w: Wid)
    requires Inv(s) && w in s.workers && !s.workers[w].Running?
    requires s'.shared == s.shared && s'.lock == s.lock && s'.log == s.log && s'.answers == s.answers
    requires w in s'.workers && s'.workers == s.workers[w := s'.workers[w]] && !s'.workers[w].Running?
    requires WorkerOk(s', w)
    requires forall r :: r in s'.responses ==> ResponseOk(s', r)
    ensures Inv(s')
  {
    hide Replay, Effect, Answer, WriterAt, ReaderAt, Holds;
    forall v | v in s'.workers ensures WorkerOk(s', v) {
      if v != w {
        assert WorkerOk(s, v);
      }
    }
    forall p | p in s'.answers ensures AnswerOk(s', p) {
      assert AnswerOk(s, p);
    }
  }

  /** Responses already sent stay right when the log and the answers only grow. */
  lemma ResponsesKept(s: Server, s': Server)
    requires Inv(s) && s.log <= s'.log && s'.responses == s.responses
    requires forall p :: p in s.answers ==> p in s'.answers && s'.answers[p] == s.answers[p]
    ensures forall r :: r in s'.responses ==> ResponseOk(s', r)
  {
    hide Replay, Effect, Answer, WriterAt, ReaderAt, Holds;
    forall r | r in s'.responses ensures ResponseOk(s', r) {
      assert ResponseOk(s, r);
      if r.job.kind != KindNone {
        assert s'.log[..r.pos] == s.log[..r.pos];
      }
    }
  }

  /** Taking the lock: the log grows by one, and nobody else is disturbed. */
  lemma AcquireStep(s: Server, w: Wid, s': Server)
    requires Inv(s) && Step(s, Acquire(w), s')
    ensures Inv(s')
  {
    var q := s.workers[w].job;
    if q.kind == KindNone {
      AcquireNothing(s, w, q, s');
    } else {
      AcquireLock(s, w, q, s');
    }
  }

  lemma AcquireNothing(s: Server, w: Wid, q: Job, s': Server)
    requires Inv(s) && w in s.workers && s.workers[w] == Polling(q) && q.kind == KindNone
    requires s' == s.(workers := s.workers[w := Running(q, -1, Begin)])
    ensures Inv(s')
  {
    hide Replay, Effect, WriterAt, ReaderAt, Holds;
    forall v | v in s'.workers ensures WorkerOk(s', v) {
      if v != w {
        assert WorkerOk(s, v);
      }
    }
    forall p | p in s'.answers ensures AnswerOk(s', p) {
      assert AnswerOk(s, p);
    }
    ResponsesKept(s, s');
  }

  /** What taking the lock changes. */
  ghost predicate Acquires(s: Server, w: Wid, q: Job, s': Server) {
    && w in s.workers && s.workers[w] == Polling(q) && q.kind != KindNone && LockFree(s.lock, q.kind)
    && s'.shared == s.shared && s'.answers == s.answers && s'.responses == s.responses
    && s'.workers == s.workers[w := Running(q, |s.log|, Begin)]
    && s'.lock == Locked(s.lock, w, q.kind)
    && s'.log == s.log + [q]
  }

  lemma AcquireLock(s: Server, w: Wid, q: Job, s': Server)
    requires Inv(s) && Acquires(s, w, q, s')
    ensures Inv(s')
  {
    hide Replay, Effect, WriterAt, ReaderAt, Holds;
    forall v | v in s'.workers ensures WorkerOk(s', v) {
      if v == w {
        AcquireSelf(s, w, q, s');
      } else {
        AcquireOther(s, w, q, s', v);
      }
    }
    AcquireTable(s, w, q, s');
    forall p | p in s'.answers ensures AnswerOk(s', p) {
      assert AnswerOk(s, p);
      assert s'.log[..p] == s.log[..p];
    }
    ResponsesKept(s, s');
  }

  lemma AcquireTable(s: Server, w: Wid, q: Job, s': Server)
    requires Inv(s) && Acquires(s, w, q, s')
    ensures s'.lock.writer.None? ==> Holds(s'.shared, Replay(s'.log))
    ensures forall p :: 0 <= p < |s'.log| && p !in s'.answers && Inserts(s'.log[p]) ==>
            p == |s'.log| - 1 && s'.lock.writer.Some?
  {
  }

  lemma AcquireSelf(s: Server, w: Wid, q: Job, s': Server)
    requires Inv(s) && Acquires(s, w, q, s')
    ensures WorkerOk(s', w)
  {
  }

  lemma AcquireOther(s: Server, w: Wid, q: Job, s': Server, v: Wid)
    requires Inv(s) && Acquires(s, w, q, s') && v != w && v in s.workers
    ensures WorkerOk(s', v)
  {
    hide WriterAt, ReaderAt, Holds, Answer;
    assert WorkerOk(s, v);
    match s.workers[v] {
      case Running(q', pos, e) =>
        if q'.kind == KindRead {
          ReplayAppend(s.log, q);
        }
      case Rendering(q', pos, result, sent) =>
        if q'.kind != KindNone {
          assert s'.log[..pos] == s.log[..pos];
        }
      case _ =>
    }
  }

  /** What releasing the lock changes. */
  ghost predicate Releases(s: Server, w: Wid, s': Server) {
    && w in s.workers && s.workers[w].Running? && s.workers[w].exec.Done?
    && var x := s.workers[w];
       && s'.shared == s.shared && s'.log == s.log && s'.responses == s.responses
       && s'.workers == s.workers[w := Executed(x.job, x.pos, x.exec.result)]
       && s'.lock == Unlocked(s.lock, w, x.job.kind)
       && s'.answers == if x.job.kind == KindNone then s.answers else s.answers[x.pos := x.exec.result]
  }

  /** Releasing the lock publishes an answer that the sequential run gives too. */
  lemma ReleaseStep(s: Server, w: Wid, s': Server)
    requires Inv(s) && Step(s, Release(w), s')
    ensures Inv(s')
  {
    ReleaseLock(s, w, s');
  }

  lemma ReleaseLock(s: Server, w: Wid, s': Server)
    requires Inv(s) && Releases(s, w, s')
    ensures Inv(s')
  {
    ReleaseKeepsAnswers(s, w, s');
    forall v | v in s'.workers ensures WorkerOk(s', v) {
      if v == w {
        ReleaseAnswer(s, w);
      } else {
        ReleaseOther(s, w, s', v);
      }
    }
    ReleaseTable(s, w, s');
    ResponsesKept(s, s');
  }

  lemma ReleaseTable(s: Server, w: Wid, s': Server)
    requires Inv(s) && Releases(s, w, s')
    ensures LockOk(s')
    ensures s'.lock.writer.None? ==> Holds(s'.shared, Replay(s'.log))
    ensures forall p :: 0 <= p < |s'.log| && p !in s'.answers && Inserts(s'.log[p]) ==>
            p == |s'.log| - 1 && s'.lock.writer.Some?
  {
    assert WorkerOk(s, w);
    ReleaseAnswer(s, w);
  }

  lemma ReleaseKeepsAnswers(s: Server, w: Wid, s': Server)
    requires Inv(s) && Releases(s, w, s')
    ensures forall p :: p in s.answers ==> p in s'.answers && s'.answers[p] == s.answers[p]
    ensures forall p :: p in s'.answers ==> AnswerOk(s', p)
  {
    ReleaseAnswer(s, w);
    forall p | p in s'.answers ensures AnswerOk(s', p) && (p in s.answers ==> s'.answers[p] == s.answers[p]) {
      if p in s.answers {
        assert AnswerOk(s, p);
      }
    }
  }

  /** What a worker that is done would publish is the sequential answer at its position. */
  lemma ReleaseAnswer(s: Server, w: Wid)
    requires Inv(s) && w in s.workers && s.workers[w].Running? && s.workers[w].exec.Done?
    ensures var x := s.workers[w];
            if x.job.kind == KindNone then Unlogged(x.job, x.exec.result)
            else
              && 0 <= x.pos < |s.log| && s.log[x.pos] == x.job
              && x.exec.result == Answer(Replay(s.log[..x.pos]), x.job.st)
              && (x.job.kind == KindWrite ==> Holds(s.shared, Replay(s.log)) && x.pos == |s.log| - 1)
  {
    var x := s.workers[w];
    assert WorkerOk(s, w);
    if x.job.kind == KindRead {
      ReplayReadsOnly(s.log, x.pos);
    } else if x.job.kind == KindWrite {
      assert s.log == s.log[..x.pos] + [x.job];
      ReplayAppend(s.log[..x.pos], x.job);
    }
  }

  lemma ReleaseOther(s: Server, w: Wid, s': Server, v: Wid)
    requires Inv(s) && Releases(s, w, s') && v != w && v in s.workers
    requires forall p :: p in s.answers ==> p in s'.answers && s'.answers[p] == s.answers[p]
    requires forall p :: p in s'.answers ==> AnswerOk(s', p)
    ensures WorkerOk(s', v)
  {
    hide Effect, Answer, WriterAt, ReaderAt, Holds;
    assert WorkerOk(s, v) && WorkerOk(s, w);
  }

  /** What a step of the executor changes. */
  ghost predicate Advances(s: Server, w: Wid, s': Server) {
    && w in s.workers && s.workers[w].Running? && w in s'.workers && s'.workers[w].Running?
    && s'.lock == s.lock && s'.log == s.log && s'.answers == s.answers && s'.responses == s.responses
    && s'.workers == s.workers[w := s'.workers[w]]
    && s'.workers[w] == s.workers[w].(exec := s'.workers[w].exec)
    && ExecStep(s.shared, s.workers[w].job.st, s.workers[w].exec, s'.shared, s'.workers[w].exec)
  }

  /** A step of the executor. */
  lemma AdvanceStep(s: Server, w: Wid, s': Server)
    requires Inv(s) && Step(s, Advance(w), s')
    ensures Inv(s')
  {
    AdvanceOne(s, w, s');
  }

  lemma AdvanceOne(s: Server, w: Wid, s': Server)
    requires Inv(s) && Advances(s, w, s')
    ensures Inv(s')
  {
    hide Replay, Effect, Answer, WriterAt, ReaderAt, Holds;
    AdvanceSelf(s, w, s');
    forall v | v in s'.workers ensures WorkerOk(s', v) {
      if v != w {
        AdvanceOther(s, w, s', v);
      }
    }
    forall p | p in s'.answers ensures AnswerOk(s', p) {
      assert AnswerOk(s, p);
    }
    ResponsesKept(s, s');
  }

  /** Nobody else is looking while the table changes. */
  lemma AdvanceOther(s: Server, w: Wid, s': Server, v: Wid)
    requires Inv(s) && v in s.workers && v != w && v in s'.workers && s'.workers[v] == s.workers[v]
    requires s'.lock == s.lock && s'.log == s.log && s'.answers == s.answers
    requires s'.shared == s.shared || s.lock.writer == Some(w)
    ensures WorkerOk(s', v)
  {
  }

  /** The worker that moves stays in order, and touches the table only under the write lock. */
  lemma AdvanceSelf(s: Server, w: Wid, s': Server)
    requires Inv(s) && Advances(s, w, s')
    ensures WorkerOk(s', w) && !s'.shared.fault
    ensures s'.shared == s.shared || s.lock.writer == Some(w)
  {
    var x := s.workers[w];
    assert WorkerOk(s, w);
    match x.job.kind {
      case KindNone =>
      case KindRead =>
        assert s.lock.writer.None?;
        ReaderMoves(s.shared, Replay(s.log), x.job.st, x.exec, s'.shared, s'.workers[w].exec);
      case KindWrite =>
        WriterMoves(s.shared, Replay(s.log[..x.pos]), x.job.st, x.exec, s'.shared, s'.workers[w].exec);
    }
  }

  lemma ReaderMoves(sh: Shared, db: Db, st: Statement, e: Exec, sh': Shared, e': Exec)
    requires DbOk(db) && Holds(sh, db) && !st.InsertStatement? && ReaderAt(sh.index, db, st, e) &&
             ExecStep(sh, st, e, sh', e')
    ensures sh' == sh && ReaderAt(sh.index, db, st, e')
  {
    if st.SelectStatement? {
      SelectAdvances(sh, db, st, e, sh', e');
    }
  }

  lemma WriterMoves(sh: Shared, db: Db, st: Statement, e: Exec, sh': Shared, e': Exec)
    requires DbOk(db) && !sh.fault && !st.SelectStatement? && WriterAt(sh, db, st, e) && ExecStep(sh, st, e, sh', e')
    ensures WriterAt(sh', db, st, e') && !sh'.fault
  {
    if st.InsertStatement? {
      InsertAdvances(sh, db, st, e, sh', e');
    }
  }

  /** Records of an answered query are still in memory, unchanged, whatever has happened since. */
  lemma RecordsStay(s: Server, pos: int)
    requires Inv(s) && pos in s.answers
    ensures 0 <= pos < |s.log| && Replay(s.log[..pos]).heap <= s.shared.heap
  {
    assert AnswerOk(s, pos);
    if s.lock.writer.None? {
      ReplayGrows(s.log, pos, |s.log|);
      assert s.log[..|s.log|] == s.log;
    } else {
      var w := s.lock.writer.value;
      assert WorkerOk(s, w);
      var x := s.workers[w];
      ReplayGrows(s.log, pos, x.pos);
      WriterKeepsRecords(s.shared, Replay(s.log[..x.pos]), x.job.st, x.exec);
    }
  }

  /** The next record to render is in memory, as it stood under the lock. */
  lemma NextRecord(s: Server, w: Wid)
    requires Inv(s) && w in s.workers && s.workers[w].Rendering?
    requires |s.workers[w].sent| < |s.workers[w].result.records|
    ensures var x := s.workers[w];
            var ref := x.result.records[|x.sent|];
            && x.job.kind != KindNone && Logged(s, x.job, x.pos, x.result) && 0 <= ref < |s.shared.heap|
            && Renders(Replay(s.log[..x.pos]), x.result, x.sent + [s.shared.heap[ref]])
  {
    hide Replay, Effect, WriterAt, ReaderAt, Holds;
    var x := s.workers[w];
    assert WorkerOk(s, w);
    RecordsStay(s, x.pos);
    RenderMore(Replay(s.log[..x.pos]), s.shared.heap, x.result, x.sent);
  }

  lemma RenderStep(s: Server, w: Wid, s': Server)
    requires Inv(s) && Step(s, RenderRow(w), s')
    ensures Inv(s')
  {
    hide Replay, Effect, Answer, WriterAt, ReaderAt, Holds, Renders;
    NextRecord(s, w);
    ResponsesKept(s, s');
    QuietStep(s, s', w);
  }

  lemma RenderMore(db: Db, heap: seq<Record>, result: SqlResult, sent: seq<Record>)
    requires Renders(db, result, sent) && db.heap <= heap && |sent| < |result.records|
    ensures var ref := result.records[|sent|];
            0 <= ref < |heap| && Renders(db, result, sent + [heap[ref]])
  {
  }

  lemma AnswerResolved(db: Db, st: Statement)
    requires DbOk(db)
    ensures Resolved(Answer(db, st).records, db.heap)
  {
    if st.SelectStatement? {
      SelectResolved(db.rows, db.heap, st.condition, |db.rows|);
    }
  }

  lemma FinishStep(s: Server, w: Wid, s': Server)
    requires Inv(s) && Step(s, Finish(w), s')
    ensures Inv(s')
  {
    hide Replay, Effect, Answer, WriterAt, ReaderAt, Holds;
    var x := s.workers[w];
    assert WorkerOk(s, w);
    if x.job.kind != KindNone {
      assert AnswerOk(s, x.pos);
      AnswerResolved(Replay(s.log[..x.pos]), s.log[x.pos].st);
    }
    ResponsesKept(s, s');
    QuietStep(s, s', w);
  }

  lemma RespondStep(s: Server, w: Wid, s': Server)
    requires Inv(s) && Step(s, Respond(w), s')
    ensures Inv(s')
  {
    hide Replay, Effect, Answer, WriterAt, ReaderAt, Holds;
    var x := s.workers[w];
    assert WorkerOk(s, w);
    forall r | r in s'.responses ensures ResponseOk(s', r) {
      if r in s.responses {
        assert ResponseOk(s, r);
      } else if r.job.kind != KindNone {
        assert AnswerOk(s, x.pos);
      }
    }
    QuietStep(s, s', w);
  }

  lemma StepKeepsInv(s: Server, a: Action, s': Server)
    requires Inv(s) && Step(s, a, s') && (a.Receive? ==> Covered(a.job))
    ensures Inv(s')
  {
    hide *;
    match a {
      case Acquire(w) => AcquireStep(s, w, s');
      case Advance(w) => AdvanceStep(s, w, s');
      case Release(w) => ReleaseStep(s, w, s');
      case Finish(w) => FinishStep(s, w, s');
      case RenderRow(w) => RenderStep(s, w, s');
      case Respond(w) => RespondStep(s, w, s');
      case Receive(w, job) => WaitStep(s, a, s');
      case KeepPolling(w) => WaitStep(s, a, s');
      case GiveUp(w) => WaitStep(s, a, s');
      case FinishTimedOut(w) => WaitStep(s, a, s');
      case _ => CountStep(s, a, s');
    }
  }

  /** Arriving, waiting and giving up. */
  lemma WaitStep(s: Server, a: Action, s': Server)
    requires Inv(s) && Step(s, a, s') && (a.Receive? ==> Covered(a.job))
    requires a.Receive? || a.KeepPolling? || a.GiveUp? || a.FinishTimedOut?
    ensures Inv(s')
  {
    hide IndexesRows, ReadOk, Replay, Effect, Answer, WriterAt, ReaderAt, Holds;
    if !a.KeepPolling? {
      ResponsesKept(s, s');
      QuietStep(s, s', a.w);
    }
  }

  lemma CountStep(s: Server, a: Action, s': Server)
    requires Inv(s) && Step(s, a, s') && (a.Health? || a.MetricsRequest? || a.QueueFull?)
    ensures Inv(s')
  {
    hide Inv;
    OutsideStep(s, s');
  }

  /** Requests that only touch the counters. */
  lemma OutsideStep(s: Server, s': Server)
    requires Inv(s) && s' == s.(metrics := s'.metrics)
    ensures Inv(s')
  {
    hide Replay, Effect, Answer, WriterAt, ReaderAt, Holds;
    forall v | v in s'.workers ensures WorkerOk(s', v) {
      assert WorkerOk(s, v);
    }
    forall p | p in s'.answers ensures AnswerOk(s', p) {
      assert AnswerOk(s, p);
    }
    ResponsesKept(s, s');
  }

  // ------------------------------------------------------------------ whole runs

  ghost predicate AllCovered(actions: seq<Action>) {
    forall i :: 0 <= i < |actions| && actions[i].Receive? ==> Covered(actions[i].job)
  }

  /** The lock chosen from the text suffices for every query that arrives. */
  lemma ArrivalsCovered(actions: seq<Action>)
    requires Arrivals(actions)
    ensures AllCovered(actions)
  {
    forall i | 0 <= i < |actions| && actions[i].Receive? ensures Covered(actions[i].job) {
      LockSuffices(actions[i].job.text);
    }
  }

  lemma InitInv(s: Server)
    requires Init(s)
    ensures Inv(s)
  {
    EmptyIndexesRows();
  }

  lemma {:induction false} MovesKeepInv(states: seq<Server>, actions: seq<Action>, i: nat)
    requires Moves(states, actions) && AllCovered(actions) && i < |states|
    ensures Inv(states[i])
  {
    hide Inv, Step, Init;
    if i > 0 {
      MovesKeepInv(states, actions, i - 1);
      assert Step(states[i - 1], actions[i - 1], states[i - 1 + 1]);
      StepKeepsInv(states[i - 1], actions[i - 1], states[i]);
    } else {
      InitInv(states[0]);
    }
  }

  lemma RunKeepsInv(states: seq<Server>, actions: seq<Action>, i: nat)
    requires IsRun(states, actions) && i < |states|
    ensures Inv(states[i])
  {
    ArrivalsCovered(actions);
    MovesKeepInv(states, actions, i);
  }

  /** All jobs around come from a given set. */
  ghost predicate JobsFrom(s: Server, jobs: iset<Job>) {
    && (forall j :: j in s.log ==> j in jobs)
    && (forall w :: w in s.workers && !s.workers[w].Idle? ==> s.workers[w].job in jobs)
    && (forall r :: r in s.responses ==> r.job in jobs)
  }

  lemma {:induction false} MovesJobs(states: seq<Server>, actions: seq<Action>, jobs: iset<Job>, i: nat)
    requires Moves(states, actions) && i < |states|
    requires forall k :: 0 <= k < |actions| && actions[k].Receive? ==> actions[k].job in jobs
    ensures JobsFrom(states[i], jobs)
  {
    if i > 0 {
      MovesJobs(states, actions, jobs, i - 1);
      assert Step(states[i - 1], actions[i - 1], states[i - 1 + 1]);
      StepJobs(states[i - 1], actions[i - 1], states[i], jobs);
    }
  }

  lemma StepJobs(s: Server, a: Action, s': Server, jobs: iset<Job>)
    requires JobsFrom(s, jobs) && Step(s, a, s') && (a.Receive? ==> a.job in jobs)
    ensures JobsFrom(s', jobs)
  {
    hide ExecStep;
  }

  /** The lock kind and the meaning of the job are those of its text. */
  predicate IsJob(j: Job) {
    j.kind == Classify(j.text) && j.st == ParseStatement(j.text)
  }

  /** Every logged or answered job is a query text with its own lock kind and its own meaning. */
  lemma RunFromText(states: seq<Server>, actions: seq<Action>, i: nat)
    requires IsRun(states, actions) && i < |states|
    ensures forall j :: j in states[i].log ==> IsJob(j)
    ensures forall r :: r in states[i].responses ==> IsJob(r.job)
  {
    var jobs := iset j: Job | j == JobOf(j.text);
    MovesJobs(states, actions, jobs, i);
  }

  /**
   Serialisability.  In every state of every run there was no read outside the table; each query
   that has given its lock back got the answer that running only such queries, one at a time in lock
   order, gives it; whenever no writer holds the lock the table is what that run leaves; and every
   response, that of a query without a lock included, is the sequential answer.
   */
  lemma Serialisable(states: seq<Server>, actions: seq<Action>, i: nat)
    requires IsRun(states, actions) && i < |states|
    ensures var s := states[i];
            && !s.shared.fault
            && (forall p :: p in s.answers ==>
                  0 <= p < |s.log| && IsJob(s.log[p])
                  && s.answers[p] == Answer(Replay(Completed(s.log, s.answers, p)), s.log[p].st))
            && (s.lock.writer.None? ==> Holds(s.shared, Replay(Completed(s.log, s.answers, |s.log|))))
            && (forall r :: r in s.responses ==> Sequential(s, r))
  {
    hide Arrivals, JobOf;
    var s := states[i];
    RunKeepsInv(states, actions, i);
    RunFromText(states, actions, i);
    forall p | p in s.answers
      ensures 0 <= p < |s.log| && s.answers[p] == Answer(Replay(Completed(s.log, s.answers, p)), s.log[p].st)
    {
      assert AnswerOk(s, p);
      CompletedReplay(s.log, s.answers, p);
    }
    if s.lock.writer.None? {
      assert forall j :: Settles(s.log, s.answers, j);
      CompletedReplay(s.log, s.answers, |s.log|);
      assert s.log[..|s.log|] == s.log;
    }
    forall r | r in s.responses ensures Sequential(s, r) {
      ResponsesAreSnapshots(states, actions, i, r);
    }
  }

  /** Only the holder of the write lock ever changes the table; readers and lock-free queries never do. */
  lemma TableChangesUnderWriteLock(states: seq<Server>, actions: seq<Action>, i: nat)
    requires IsRun(states, actions) && i < |actions|
    ensures states[i + 1].shared != states[i].shared ==>
              actions[i].Advance? && states[i].lock.writer == Some(actions[i].w)
  {
    hide Inv, ExecStep, Renders, Arrivals, JobOf;
    var s, a, s' := states[i], actions[i], states[i + 1];
    RunKeepsInv(states, actions, i);
    assert Step(s, a, s');
    if a.Advance? {
      AdvanceSelf(s, a.w, s');
    } else if a.RenderRow? {
      NextRecord(s, a.w);
    }
  }

  /** A client receives what its query, run in its turn, would have given, with the records as they stood then. */
  ghost predicate Sequential(s: Server, r: Response) {
    && |r.rows| == |r.result.records|
    && if r.job.kind == KindNone then
         && !r.job.st.InsertStatement? && !r.job.st.SelectStatement?
         && forall db :: DbOk(db) ==> r.result == Answer(db, r.job.st)
       else
         && 0 <= r.pos < |s.log| && s.log[r.pos] == r.job
         && var db := Replay(Completed(s.log, s.answers, r.pos));
            && r.result == Answer(db, r.job.st)
            && Renders(db, r.result, r.rows)
  }

  /**
   Every response, of whatever statement and outcome, carries the sequential answer of its query and the
   records as they stood under its lock; a query without a lock is answered the same on every table.
   */
  lemma ResponsesAreSnapshots(states: seq<Server>, actions: seq<Action>, i: nat, r: Response)
    requires IsRun(states, actions) && i < |states| && r in states[i].responses
    ensures IsJob(r.job) && Sequential(states[i], r)
  {
    hide Arrivals, JobOf;
    var s := states[i];
    RunKeepsInv(states, actions, i);
    RunFromText(states, actions, i);
    assert ResponseOk(s, r);
    if r.job.kind != KindNone {
      assert AnswerOk(s, r.pos);
      CompletedReplay(s.log, s.answers, r.pos);
    }
  }

  // -------------------------------------------------- one answer for each query

  /** Where a query that took a lock is: with a worker, or in a response. */
  datatype Place = InWork(w: Wid) | Sent(k: int)

  /** The query at position p of the log is at this place. */
  predicate IsAt(s: Server, place: Place, p: int) {
    match place
    case InWork(w) =>
      && w in s.workers
      && (s.workers[w].Running? || s.workers[w].Executed? || s.workers[w].Rendering?)
      && s.workers[w].job.kind != KindNone && s.workers[w].pos == p
    case Sent(k) =>
      0 <= k < |s.responses| && s.responses[k].job.kind != KindNone && s.responses[k].pos == p
  }

  ghost predicate Somewhere(s: Server, p: int) {
    exists place :: IsAt(s, place, p)
  }

  /** Every position of the log is at exactly one place. */
  ghost predicate Placed(s: Server) {
    && (forall place, p :: IsAt(s, place, p) ==> 0 <= p < |s.log|)
    && (forall x, y, p :: IsAt(s, x, p) && IsAt(s, y, p) ==> x == y)
    && (forall p :: 0 <= p < |s.log| ==> Somewhere(s, p))
  }

  /** Where the query was before the step that brought it to this place. */
  function Before(s: Server, a: Action, place: Place): Place {
    if a.Respond? && place == Sent(|s.responses|) then InWork(a.w) else place
  }

  function After(s: Server, a: Action, place: Place): Place {
    if a.Respond? && place == InWork(a.w) then Sent(|s.responses|) else place
  }

  lemma CameFrom(s: Server, a: Action, s': Server, place: Place, p: int)
    requires Step(s, a, s') && IsAt(s', place, p)
    ensures IsAt(s, Before(s, a, place), p) || (a.Acquire? && place == InWork(a.w) && p == |s.log| == |s'.log| - 1)
    ensures a.Respond? ==> place != InWork(a.w)
  {
    hide ExecStep;
  }

  lemma GoesTo(s: Server, a: Action, s': Server, place: Place, p: int)
    requires Step(s, a, s') && IsAt(s, place, p)
    ensures IsAt(s', After(s, a, place), p)
  {
    hide ExecStep;
  }

  /** A step moves queries between places but neither loses nor doubles one. */
  lemma StepPlaces(s: Server, a: Action, s': Server)
    requires Placed(s) && Step(s, a, s')
    ensures Placed(s')
  {
    forall place, p | IsAt(s', place, p) ensures 0 <= p < |s'.log| {
      CameFrom(s, a, s', place, p);
    }
    forall x, y, p | IsAt(s', x, p) && IsAt(s', y, p) ensures x == y {
      CameFrom(s, a, s', x, p);
      CameFrom(s, a, s', y, p);
    }
    forall p | 0 <= p < |s'.log| ensures Somewhere(s', p) {
      if p < |s.log| {
        assert Somewhere(s, p);
        var place :| IsAt(s, place, p);
        GoesTo(s, a, s', place, p);
      } else {
        assert IsAt(s', InWork(a.w), p);
      }
    }
  }

  lemma {:induction false} MovesPlace(states: seq<Server>, actions: seq<Action>, i: nat)
    requires Moves(states, actions) && i < |states|
    ensures Placed(states[i])
  {
    if i > 0 {
      MovesPlace(states, actions, i - 1);
      assert Step(states[i - 1], actions[i - 1], states[i - 1 + 1]);
      StepPlaces(states[i - 1], actions[i - 1], states[i]);
    }
  }

  /**
   In every state of every run a query that took a lock has at most one response, and exactly one once all
   workers are idle.
   */
  lemma AnsweredOnce(states: seq<Server>, actions: seq<Action>, i: nat, p: nat)
    requires IsRun(states, actions) && i < |states| && p < |states[i].log|
    ensures forall k, m :: IsAt(states[i], Sent(k), p) && IsAt(states[i], Sent(m), p) ==> k == m
    ensures (forall w :: w in states[i].workers ==> states[i].workers[w].Idle?) ==>
            exists k :: IsAt(states[i], Sent(k), p)
  {
    hide Arrivals, JobOf;
    MovesPlace(states, actions, i);
    var s := states[i];
    forall k, m | IsAt(s, Sent(k), p) && IsAt(s, Sent(m), p) ensures k == m {
      assert Sent(k) == Sent(m);
    }
    if forall w :: w in s.workers ==> s.workers[w].Idle? {
      assert Somewhere(s, p);
      var place :| IsAt(s, place, p);
      assert IsAt(s, Sent(place.k), p);
    }
  }

  lemma {:induction false} LogGrows(states: seq<Server>, actions: seq<Action>, i: nat, j: nat)
    requires Moves(states, actions) && i <= j < |states|
    ensures states[i].log <= states[j].log
  {
    hide ExecStep;
    if i < j {
      LogGrows(states, actions, i, j - 1);
      assert Step(states[j - 1], actions[j - 1], states[j - 1 + 1]);
    }
  }

  /** The order respects real time: a query that was answered before another took its lock comes first. */
  lemma OrderIsRealTime(states: seq<Server>, actions: seq<Action>, i: nat, j: nat, r: Response)
    requires IsRun(states, actions) && i <= j < |actions| && actions[j].Acquire?
    requires r in states[i].responses && r.job.kind != KindNone
    ensures 0 <= r.pos < |states[j].log| && states[j].log[r.pos] == r.job
    ensures var x := states[j + 1].workers[actions[j].w];
            x.Running? && (x.job.kind != KindNone ==> r.pos < x.pos && states[j + 1].log[x.pos] == x.job)
  {
    hide ExecStep, Arrivals, JobOf;
    RunKeepsInv(states, actions, i);
    assert ResponseOk(states[i], r);
    LogGrows(states, actions, i, j);
    assert Step(states[j], actions[j], states[j + 1]);
  }

  /** Between the arrival of a query and the end of its call, if the lock never came. */
  predicate Waiting(x: Worker, q: Job) {
    x == Polling(q) || x == TimedOut(q)
  }

  /** Whatever this step does to table, lock, order or answers is done by a worker other than w. */
  ghost predicate DoneByOthers(s: Server, a: Action, s': Server, w: Wid) {
    && (s'.shared != s.shared ==> a.Advance? && a.w != w && s.lock.writer == Some(a.w))
    && (s'.lock != s.lock ==> (a.Acquire? || a.Release?) && a.w != w)
    && (s'.log != s.log ==> a.Acquire? && a.w != w)
    && (s'.answers != s.answers ==> a.Release? && a.w != w)
  }

  lemma WaitedBefore(s: Server, a: Action, s': Server, w: Wid, q: Job)
    requires Step(s, a, s') && w in s'.workers && Waiting(s'.workers[w], q) && !(a.Receive? && a.w == w)
    ensures w in s.workers && Waiting(s.workers[w], q)
  {
    hide ExecStep;
  }

  /** A worker that gives up in the end has been waiting ever since its query arrived. */
  lemma {:induction false} WaitedSince(states: seq<Server>, actions: seq<Action>, k: nat, j: nat, w: Wid)
    requires Moves(states, actions) && k <= j < |actions| && actions[j] == FinishTimedOut(w)
    requires forall m :: k <= m < j ==> !(actions[m].Receive? && actions[m].w == w)
    ensures w in states[j].workers && states[j].workers[w].TimedOut?
    ensures w in states[k].workers && Waiting(states[k].workers[w], states[j].workers[w].job)
    decreases j - k
  {
    assert Step(states[j], actions[j], states[j + 1]);
    if k < j {
      WaitedSince(states, actions, k + 1, j, w);
      assert Step(states[k], actions[k], states[k + 1]);
      WaitedBefore(states[k], actions[k], states[k + 1], w, states[j].workers[w].job);
    }
  }

  lemma NoLockHeld(s: Server, w: Wid)
    requires Inv(s) && w in s.workers && !s.workers[w].Running?
    ensures w !in s.lock.readers && s.lock.writer != Some(w)
  {
    hide WorkerOk, AnswerOk, ResponseOk, Holds, Replay;
  }

  lemma NotAcquired(s: Server, a: Action, s': Server, w: Wid, q: Job)
    requires Step(s, a, s') && w in s'.workers && Waiting(s'.workers[w], q)
    ensures a != Acquire(w)
  {
  }

  lemma ArrivalTouchesNothing(s: Server, a: Action, s': Server, w: Wid)
    requires a.Receive? && Step(s, a, s') && a.w == w
    ensures w in s'.workers && s'.workers[w] == Polling(a.job) && DoneByOthers(s, a, s', w)
  {
  }

  /** A waiting worker holds no lock, and its own step touches nothing. */
  lemma WaitingTouchesNothing(states: seq<Server>, actions: seq<Action>, k: nat, w: Wid, q: Job)
    requires IsRun(states, actions) && k < |actions| && w in states[k].workers && Waiting(states[k].workers[w], q)
    requires actions[k] != Acquire(w)
    ensures w !in states[k].lock.readers && states[k].lock.writer != Some(w)
    ensures DoneByOthers(states[k], actions[k], states[k + 1], w)
  {
    hide ExecStep, Arrivals, JobOf, Inv;
    RunKeepsInv(states, actions, k);
    TableChangesUnderWriteLock(states, actions, k);
    NoLockHeld(states[k], w);
    assert Step(states[k], actions[k], states[k + 1]);
  }

  /**
   A call that times out touches nothing.  From the arrival of the query to the end of the call its worker only
   waits and holds no lock, and every change to table, lock, order and answers is another worker's.
   */
  lemma TimeoutTouchesNothing(states: seq<Server>, actions: seq<Action>, i: nat, j: nat, w: Wid)
    requires IsRun(states, actions) && i < j < |actions|
    requires actions[i].Receive? && actions[i].w == w && actions[j] == FinishTimedOut(w)
    requires forall m :: i < m < j ==> !(actions[m].Receive? && actions[m].w == w)
    ensures forall k :: i < k <= j ==> w in states[k].workers && Waiting(states[k].workers[w], actions[i].job)
    ensures forall k :: i < k <= j ==> w !in states[k].lock.readers && states[k].lock.writer != Some(w)
    ensures forall k {:trigger actions[k]} :: i <= k <= j ==> DoneByOthers(states[k], actions[k], states[k + 1], w)
  {
    hide Step, DoneByOthers, Arrivals, JobOf;
    assert Step(states[i], actions[i], states[i + 1]);
    var q := actions[i].job;
    ArrivalTouchesNothing(states[i], actions[i], states[i + 1], w);
    WaitedSince(states, actions, i + 1, j, w);
    forall k | i < k <= j
      ensures w in states[k].workers && Waiting(states[k].workers[w], q)
      ensures w !in states[k].lock.readers && states[k].lock.writer != Some(w)
      ensures DoneByOthers(states[k], actions[k], states[k + 1], w)
    {
      WaitedSince(states, actions, k, j, w);
      if k < j {
        WaitedSince(states, actions, k + 1, j, w);
        assert Step(states[k], actions[k], states[k + 1]);
        NotAcquired(states[k], actions[k], states[k + 1], w, states[j].workers[w].job);
      }
      WaitingTouchesNothing(states, actions, k, w, q);
    }
  }
}
