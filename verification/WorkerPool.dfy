/**
 The accept loop, the request queue with its condition variable, and the worker
 threads, as a transition system.  Critical sections under the queue mutex are
 single steps; waiting releases the mutex and falls asleep in one step; a signal
 wakes at least one sleeper if there is any; a sleeper may also wake by itself.
 */
module WorkerPool {

  /** A connection, numbered in the order of acceptance. */
  type Conn = nat

  /** Where a connection is; `Counted` once its response has been counted as complete. */
  datatype Stage = InHand | Queued | Handled(worker: nat) | Counted

  datatype Worker =
    | Ready            // about to take the queue mutex
    | Asleep           // waiting on the condition variable, not signalled
    | Woken            // signalled or woken spuriously, about to retake the mutex
    | Handling(conn: Conn)
    | Closing(conn: Conn)
    | Exited

  datatype MainLoop =
    | Checking         // about to look at the stop flag
    | Listening        // waiting for a connection, the flag having been clear
    | Pushing(conn: Conn)
    | Refusing(conn: Conn)
    | Joining
    | Finished

  datatype Pool = Pool(
    conns: seq<Stage>,
    queue: seq<Conn>,
    capacity: nat,
    shuttingDown: bool,
    stop: bool,
    maxRequests: nat,
    completed: nat,
    workers: seq<Worker>,
    main: MainLoop,
    pushed: seq<Conn>,
    popped: seq<Conn>)

  datatype Action =
    | Listen
    | NoConnection
    | Accept
    | Push
    | Refuse
    | Signal
    | Shutdown
    | WaitFails
    | Join
    | Pop(w: nat)
    | WakeSpuriously(w: nat)
    | Complete(w: nat)
    | Close(w: nat)

  /** Some sleepers are woken, at least one if there is any. */
  ghost predicate Signalled(ws: seq<Worker>, ws': seq<Worker>) {
    && |ws'| == |ws|
    && (forall i :: 0 <= i < |ws| ==> ws'[i] == ws[i] || (ws[i] == Asleep && ws'[i] == Woken))
    && ((exists i :: 0 <= i < |ws| && ws[i] == Asleep) ==>
       exists i :: 0 <= i < |ws| && ws[i] == Asleep && ws'[i] == Woken)
  }

  ghost predicate AllWoken(ws: seq<Worker>, ws': seq<Worker>) {
    && |ws'| == |ws|
    && forall i :: 0 <= i < |ws| ==> ws'[i] == if ws[i] == Asleep then Woken else ws[i]
  }

  predicate StopAfter(p: Pool, completed: nat) {
    p.stop || (p.maxRequests > 0 && completed >= p.maxRequests)
  }

  /** The body of the worker's pop, under the mutex. */
  ghost predicate PopStep(p: Pool, w: nat, p': Pool)
    requires w < |p.workers|
  {
    && (p.workers[w] == Ready || p.workers[w] == Woken)
    && (if p.queue != [] then
          && p.queue[0] < |p.conns|
          && p' == p.(queue := p.queue[1..],
                      popped := p.popped + [p.queue[0]],
                      conns := p.conns[p.queue[0] := Handled(w)],
                      workers := p.workers[w := Handling(p.queue[0])])
        else if !p.shuttingDown then
          p' == p.(workers := p.workers[w := Asleep])
        else
          p' == p.(workers := p.workers[w := Exited]))
  }

  ghost predicate PushStep(p: Pool, p': Pool) {
    && p.main.Pushing? && p.main.conn < |p.conns|
    && var c := p.main.conn;
       if !p.shuttingDown && |p.queue| < p.capacity then
         && Signalled(p.workers, p'.workers)
         && p' == p.(queue := p.queue + [c], pushed := p.pushed + [c], conns := p.conns[c := Queued],
                     main := Checking, workers := p'.workers)
       else
         p' == p.(main := Refusing(c))
  }

  /** The loop is left: the queue is closed and every sleeper woken. */
  ghost predicate CloseQueue(p: Pool, p': Pool) {
    && AllWoken(p.workers, p'.workers)
    && p' == p.(shuttingDown := true, main := Joining, workers := p'.workers)
  }

  ghost predicate Step(p: Pool, a: Action, p': Pool) {
    match a
    case Listen =>
      p.main == Checking && !p.stop && p' == p.(main := Listening)
    case NoConnection =>
      p.main == Listening && p' == p.(main := Checking)
    case Accept =>
      && p.main == Listening
      && p' == p.(conns := p.conns + [InHand], main := Pushing(|p.conns|))
    case Push =>
      PushStep(p, p')
    case Refuse =>
      && p.main.Refusing? && p.main.conn < |p.conns|
      && p' == p.(conns := p.conns[p.main.conn := Counted], completed := p.completed + 1,
                  stop := StopAfter(p, p.completed + 1), main := Checking)
    case Signal =>
      p' == p.(stop := true)
    case Shutdown =>
      p.main == Checking && p.stop && CloseQueue(p, p')
    case WaitFails =>
      p.main == Listening && CloseQueue(p, p')
    case Join =>
      && p.main.Joining? && (forall i :: 0 <= i < |p.workers| ==> p.workers[i] == Exited)
      && p' == p.(main := Finished)
    case Pop(w) =>
      w < |p.workers| && PopStep(p, w, p')
    case WakeSpuriously(w) =>
      w < |p.workers| && p.workers[w] == Asleep && p' == p.(workers := p.workers[w := Woken])
    case Complete(w) =>
      && w < |p.workers| && p.workers[w].Handling? && p.workers[w].conn < |p.conns|
      && p' == p.(conns := p.conns[p.workers[w].conn := Counted], completed := p.completed + 1,
                  stop := StopAfter(p, p.completed + 1), workers := p.workers[w := Closing(p.workers[w].conn)])
    case Close(w) =>
      w < |p.workers| && p.workers[w].Closing? && p' == p.(workers := p.workers[w := Ready])
  }

  ghost predicate Init(p: Pool) {
    && p.conns == [] && p.queue == [] && p.pushed == [] && p.popped == []
    && p.capacity > 0 && |p.workers| > 0
    && !p.shuttingDown && !p.stop && p.completed == 0 && p.main == Checking
    && forall i :: 0 <= i < |p.workers| ==> p.workers[i] == Ready
  }

  ghost predicate IsRun(states: seq<Pool>, actions: seq<Action>) {
    && |states| == |actions| + 1
    && Init(states[0])
    && forall i :: 0 <= i < |actions| ==> Step(states[i], actions[i], states[i + 1])
  }

  // -------------------------------------------------------------------- tallies

  ghost function Tally(ws: seq<Worker>, f: Worker -> nat): nat {
    if ws == [] then 0 else Tally(ws[..|ws| - 1], f) + f(ws[|ws| - 1])
  }

  lemma {:induction false} TallyUpdate(ws: seq<Worker>, i: nat, x: Worker, f: Worker -> nat)
    requires i < |ws|
    ensures Tally(ws[i := x], f) == Tally(ws, f) - f(ws[i]) + f(x)
  {
    var n := |ws| - 1;
    if i == n {
      assert ws[i := x][..n] == ws[..n];
    } else {
      TallyUpdate(ws[..n], i, x, f);
      assert ws[i := x][..n] == ws[..n][i := x];
    }
  }

  lemma {:induction false} TallyMonotone(ws: seq<Worker>, ws': seq<Worker>, f: Worker -> nat)
    requires |ws| == |ws'| && forall i :: 0 <= i < |ws| ==> f(ws[i]) <= f(ws'[i])
    ensures Tally(ws, f) <= Tally(ws', f)
  {
    if ws != [] {
      TallyMonotone(ws[..|ws| - 1], ws'[..|ws| - 1], f);
    }
  }

  function Awake(x: Worker): nat {
    if x == Ready || x == Woken then 1 else 0
  }

  ghost function Counts(conns: seq<Stage>): nat {
    if conns == [] then 0 else Counts(conns[..|conns| - 1]) + if conns[|conns| - 1] == Counted then 1 else 0
  }

  lemma {:induction false} CountsUpdate(conns: seq<Stage>, c: nat, x: Stage)
    requires c < |conns|
    ensures Counts(conns[c := x]) == Counts(conns) - (if conns[c] == Counted then 1 else 0) +
            (if x == Counted then 1 else 0)
  {
    var n := |conns| - 1;
    if c == n {
      assert conns[c := x][..n] == conns[..n];
    } else {
      CountsUpdate(conns[..n], c, x);
      assert conns[c := x][..n] == conns[..n][c := x];
    }
  }

  lemma {:induction false} CountsAll(conns: seq<Stage>)
    requires forall c :: 0 <= c < |conns| ==> conns[c] == Counted
    ensures Counts(conns) == |conns|
  {
    if conns != [] {
      CountsAll(conns[..|conns| - 1]);
    }
  }

  // ------------------------------------------------------------------ invariant

  ghost predicate SomeoneAsleep(p: Pool) {
    exists i :: 0 <= i < |p.workers| && p.workers[i] == Asleep
  }

  /** If anyone sleeps unsignalled, every queued connection has a worker of its own on the way to it. */
  ghost predicate NoLostWakeup(p: Pool) {
    SomeoneAsleep(p) ==> |p.queue| <= Tally(p.workers, Awake)
  }

  /** Each connection is in exactly one place. */
  ghost predicate StageOk(p: Pool, c: Conn)
    requires c < |p.conns|
  {
    match p.conns[c]
    case InHand => p.main == Pushing(c) || p.main == Refusing(c)
    case Queued => c in p.queue
    case Handled(w) => w < |p.workers| && p.workers[w] == Handling(c)
    case Counted => true
  }

  ghost predicate WorkerOk(p: Pool, w: nat)
    requires w < |p.workers|
  {
    match p.workers[w]
    case Asleep => !p.shuttingDown
    case Exited => p.shuttingDown && p.queue == []
    case Handling(c) => c < |p.conns| && p.conns[c] == Handled(w)
    case _ => true
  }

  ghost predicate MainOk(p: Pool) {
    && (p.shuttingDown <==> p.main == Joining || p.main == Finished)
    && (p.main.Pushing? || p.main.Refusing? ==> p.main.conn < |p.conns| && p.conns[p.main.conn] == InHand)
    && (p.main == Finished ==> forall w :: 0 <= w < |p.workers| ==> p.workers[w] == Exited)
  }

  ghost predicate QueueOk(p: Pool) {
    && |p.queue| <= p.capacity
    && p.pushed == p.popped + p.queue
    && (forall i :: 0 <= i < |p.queue| ==> p.queue[i] < |p.conns| && p.conns[p.queue[i]] == Queued)
    && (forall i, j :: 0 <= i < j < |p.pushed| ==> p.pushed[i] < p.pushed[j])
    && (forall i :: 0 <= i < |p.pushed| ==> p.pushed[i] < |p.conns|)
    && (p.main.Pushing? ==> forall i :: 0 <= i < |p.pushed| ==> p.pushed[i] < p.main.conn)
  }

  ghost predicate Inv(p: Pool) {
    && p.capacity > 0 && |p.workers| > 0
    && QueueOk(p)
    && MainOk(p)
    && (forall c :: 0 <= c < |p.conns| ==> StageOk(p, c))
    && (forall w :: 0 <= w < |p.workers| ==> WorkerOk(p, w))
    && p.completed == Counts(p.conns)
    && NoLostWakeup(p)
  }

  // --------------------------------------------------------- every step keeps it

  /** A queued connection is queued once. */
  lemma QueueDistinct(p: Pool, i: nat, j: nat)
    requires QueueOk(p) && i < j < |p.queue|
    ensures p.queue[i] != p.queue[j]
  {
    assert p.pushed[|p.popped| + i] == p.queue[i] && p.pushed[|p.popped| + j] == p.queue[j];
  }

  lemma AcceptKeeps(p: Pool, p': Pool)
    requires Inv(p) && Step(p, Accept, p')
    ensures Inv(p')
  {
    assert p'.conns[..|p.conns|] == p.conns;
    forall c | 0 <= c < |p'.conns| ensures StageOk(p', c) {
      if c < |p.conns| {
        assert StageOk(p, c);
      }
    }
    forall w | 0 <= w < |p'.workers| ensures WorkerOk(p', w) {
      assert WorkerOk(p, w);
    }
  }

  lemma PushKeeps(p: Pool, p': Pool)
    requires Inv(p) && Step(p, Push, p')
    ensures Inv(p')
  {
    var c := p.main.conn;
    if !p.shuttingDown && |p.queue| < p.capacity {
      PushedQueue(p, p');
      PushedStages(p, p');
      CountsUpdate(p.conns, c, Queued);
      SignalWakes(p.workers, p'.workers);
    } else {
      forall c | 0 <= c < |p'.conns| ensures StageOk(p', c) {
        assert StageOk(p, c);
      }
      forall w | 0 <= w < |p'.workers| ensures WorkerOk(p', w) {
        assert WorkerOk(p, w);
      }
    }
  }

  /** A signal leaves more workers awake than before, unless nobody was asleep. */
  lemma SignalWakes(ws: seq<Worker>, ws': seq<Worker>)
    requires Signalled(ws, ws')
    ensures (exists i :: 0 <= i < |ws| && ws[i] == Asleep) ==> Tally(ws', Awake) >= Tally(ws, Awake) + 1
  {
    if i :| 0 <= i < |ws| && ws[i] == Asleep && ws'[i] == Woken {
      TallyUpdate(ws, i, Woken, Awake);
      TallyMonotone(ws[i := Woken], ws', Awake);
    }
  }

  lemma PushedQueue(p: Pool, p': Pool)
    requires Inv(p) && Step(p, Push, p') && !p.shuttingDown && |p.queue| < p.capacity
    ensures QueueOk(p')
  {
  }

  lemma PushedStages(p: Pool, p': Pool)
    requires Inv(p) && Step(p, Push, p') && !p.shuttingDown && |p.queue| < p.capacity
    ensures forall c :: 0 <= c < |p'.conns| ==> StageOk(p', c)
    ensures forall w :: 0 <= w < |p'.workers| ==> WorkerOk(p', w)
  {
    forall c | 0 <= c < |p'.conns| ensures StageOk(p', c) {
      assert StageOk(p, c);
      if c == p.main.conn {
        assert p'.queue[|p.queue|] == c;
      }
    }
    forall w | 0 <= w < |p'.workers| ensures WorkerOk(p', w) {
      assert WorkerOk(p, w);
    }
  }

  lemma RefuseKeeps(p: Pool, p': Pool)
    requires Inv(p) && Step(p, Refuse, p')
    ensures Inv(p')
  {
    CountsUpdate(p.conns, p.main.conn, Counted);
    forall c | 0 <= c < |p'.conns| ensures StageOk(p', c) {
      assert StageOk(p, c);
    }
    forall w | 0 <= w < |p'.workers| ensures WorkerOk(p', w) {
      assert WorkerOk(p, w);
    }
  }

  lemma ShutdownKeeps(p: Pool, p': Pool)
    requires Inv(p) && (Step(p, Shutdown, p') || Step(p, WaitFails, p'))
    ensures Inv(p') && !SomeoneAsleep(p')
  {
    forall c | 0 <= c < |p'.conns| ensures StageOk(p', c) {
      assert StageOk(p, c);
    }
    forall w | 0 <= w < |p'.workers| ensures WorkerOk(p', w) {
      assert WorkerOk(p, w);
    }
  }

  lemma PopKeeps(p: Pool, w: nat, p': Pool)
    requires Inv(p) && Step(p, Pop(w), p')
    ensures Inv(p')
  {
    hide Tally;
    TallyUpdate(p.workers, w, p'.workers[w], Awake);
    if p.queue != [] {
      CountsUpdate(p.conns, p.queue[0], Handled(w));
      PoppedQueue(p, w, p');
      PoppedStages(p, w, p');
    } else {
      forall c | 0 <= c < |p'.conns| ensures StageOk(p', c) {
        assert StageOk(p, c);
      }
      forall v | 0 <= v < |p'.workers| ensures WorkerOk(p', v) {
        assert WorkerOk(p, v);
      }
    }
  }

  lemma PoppedQueue(p: Pool, w: nat, p': Pool)
    requires Inv(p) && Step(p, Pop(w), p') && p.queue != []
    ensures QueueOk(p')
  {
    assert p.queue == [p.queue[0]] + p.queue[1..];
    assert p'.popped + p'.queue == p.popped + p.queue;
    forall i | 0 <= i < |p'.queue| ensures p'.queue[i] < |p'.conns| && p'.conns[p'.queue[i]] == Queued {
      assert p'.queue[i] == p.queue[i + 1];
      QueueDistinct(p, 0, i + 1);
    }
  }

  lemma PoppedStages(p: Pool, w: nat, p': Pool)
    requires Inv(p) && Step(p, Pop(w), p') && p.queue != []
    ensures forall c :: 0 <= c < |p'.conns| ==> StageOk(p', c)
    ensures forall v :: 0 <= v < |p'.workers| ==> WorkerOk(p', v)
  {
    forall c | 0 <= c < |p'.conns| ensures StageOk(p', c) {
      assert StageOk(p, c);
      if p.conns[c] == Queued && c != p.queue[0] {
        var i :| 0 <= i < |p.queue| && p.queue[i] == c;
        assert p'.queue[i - 1] == c;
      }
    }
    forall v | 0 <= v < |p'.workers| ensures WorkerOk(p', v) {
      assert WorkerOk(p, v);
    }
  }

  lemma WakeKeeps(p: Pool, w: nat, p': Pool)
    requires Inv(p) && Step(p, WakeSpuriously(w), p')
    ensures Inv(p')
  {
    hide Tally;
    TallyUpdate(p.workers, w, Woken, Awake);
    OneWorkerMoves(p, w, p');
  }

  lemma CloseKeeps(p: Pool, w: nat, p': Pool)
    requires Inv(p) && Step(p, Close(w), p')
    ensures Inv(p')
  {
    hide Tally;
    TallyUpdate(p.workers, w, Ready, Awake);
    OneWorkerMoves(p, w, p');
  }

  /** A worker that holds no connection moves; connections stay where they are. */
  lemma OneWorkerMoves(p: Pool, w: nat, p': Pool)
    requires Inv(p) && w < |p.workers| && w < |p'.workers| && p' == p.(workers := p.workers[w := p'.workers[w]])
    requires !p.workers[w].Handling? && !p.workers[w].Exited? && (p'.workers[w] == Ready || p'.workers[w] == Woken)
    requires Tally(p'.workers, Awake) >= Tally(p.workers, Awake)
    ensures Inv(p')
  {
    forall c | 0 <= c < |p'.conns| ensures StageOk(p', c) {
      assert StageOk(p, c);
    }
    forall v | 0 <= v < |p'.workers| ensures WorkerOk(p', v) {
      assert WorkerOk(p, v);
    }
    assert WorkerOk(p, w);
  }

  lemma CompleteKeeps(p: Pool, w: nat, p': Pool)
    requires Inv(p) && Step(p, Complete(w), p')
    ensures Inv(p') && p.conns[p.workers[w].conn] == Handled(w)
  {
    hide Tally;
    var c := p.workers[w].conn;
    assert WorkerOk(p, w);
    CountsUpdate(p.conns, c, Counted);
    TallyUpdate(p.workers, w, Closing(c), Awake);
    CompletedStages(p, w, p');
  }

  lemma CompletedStages(p: Pool, w: nat, p': Pool)
    requires Inv(p) && Step(p, Complete(w), p')
    ensures forall d :: 0 <= d < |p'.conns| ==> StageOk(p', d)
    ensures forall v :: 0 <= v < |p'.workers| ==> WorkerOk(p', v)
  {
    assert WorkerOk(p, w);
    forall d | 0 <= d < |p'.conns| ensures StageOk(p', d) {
      assert StageOk(p, d);
    }
    forall v | 0 <= v < |p'.workers| ensures WorkerOk(p', v) {
      assert WorkerOk(p, v);
    }
  }

  lemma StepKeepsInv(p: Pool, a: Action, p': Pool)
    requires Inv(p) && Step(p, a, p')
    ensures Inv(p')
  {
    match a {
      case Accept => AcceptKeeps(p, p');
      case Push => PushKeeps(p, p');
      case Refuse => RefuseKeeps(p, p');
      case Shutdown => ShutdownKeeps(p, p');
      case WaitFails => ShutdownKeeps(p, p');
      case Pop(w) => PopKeeps(p, w, p');
      case WakeSpuriously(w) => WakeKeeps(p, w, p');
      case Complete(w) => CompleteKeeps(p, w, p');
      case Close(w) => CloseKeeps(p, w, p');
      case Signal => SameStages(p, a, p');
      case Join => SameStages(p, a, p');
      case Listen => SameStages(p, a, p');
      case NoConnection => SameStages(p, a, p');
    }
  }

  lemma SameStages(p: Pool, a: Action, p': Pool)
    requires Inv(p) && Step(p, a, p') && (a.Signal? || a.Join? || a.Listen? || a.NoConnection?)
    ensures Inv(p')
  {
    forall c | 0 <= c < |p'.conns| ensures StageOk(p', c) {
      assert StageOk(p, c);
    }
    forall w | 0 <= w < |p'.workers| ensures WorkerOk(p', w) {
      assert WorkerOk(p, w);
    }
  }

  lemma {:induction false} RunKeepsInv(states: seq<Pool>, actions: seq<Action>, i: nat)
    requires IsRun(states, actions) && i < |states|
    ensures Inv(states[i])
  {
    if i > 0 {
      hide Inv, Step;
      RunKeepsInv(states, actions, i - 1);
      assert Step(states[i - 1], actions[i - 1], states[i - 1 + 1]);
      StepKeepsInv(states[i - 1], actions[i - 1], states[i]);
    }
  }

  // ------------------------------------------------------------------ whole runs

  /** A worker's own steps, which nobody else has to bring about. */
  predicate OwnStep(a: Action, w: nat) {
    a == Pop(w) || a == Complete(w) || a == Close(w)
  }

  /** Worker w has a step of its own to take. */
  ghost predicate CanAct(p: Pool, w: nat) {
    exists a, p' :: OwnStep(a, w) && Step(p, a, p')
  }

  /** A worker that is neither asleep nor gone can take its next step by itself. */
  lemma AwakeCanAct(p: Pool, w: nat) returns (a: Action, p': Pool)
    requires Inv(p) && w < |p.workers| && p.workers[w] != Asleep && p.workers[w] != Exited
    ensures OwnStep(a, w) && Step(p, a, p')
  {
    assert WorkerOk(p, w);
    if p.workers[w].Handling? {
      var c := p.workers[w].conn;
      a := Complete(w);
      p' := p.(conns := p.conns[c := Counted], completed := p.completed + 1,
        stop := StopAfter(p, p.completed + 1), workers := p.workers[w := Closing(c)]);
    } else if p.workers[w].Closing? {
      a := Close(w);
      p' := p.(workers := p.workers[w := Ready]);
    } else {
      a := Pop(w);
      if p.queue != [] {
        var c := p.queue[0];
        p' := p.(queue := p.queue[1..], popped := p.popped + [c], conns := p.conns[c := Handled(w)],
          workers := p.workers[w := Handling(c)]);
      } else {
        p' := p.(workers := p.workers[w := if p.shuttingDown then Exited else Asleep]);
      }
    }
  }

  /**
   No lost wakeup.  In every reachable state, if any worker sleeps unsignalled then at least as many
   workers as there are queued connections are awake on their way to the queue; a non-empty queue
   always has some worker with a step to take; and once shutdown has been announced nobody sleeps.
   */
  lemma NoWakeupLost(states: seq<Pool>, actions: seq<Action>, i: nat)
    requires IsRun(states, actions) && i < |states|
    ensures var p := states[i];
            && (SomeoneAsleep(p) ==> |p.queue| <= Tally(p.workers, Awake))
            && (p.queue != [] ==> exists w :: 0 <= w < |p.workers| && CanAct(p, w))
            && (p.shuttingDown ==> !SomeoneAsleep(p))
  {
    RunKeepsInv(states, actions, i);
    var p := states[i];
    if p.queue != [] {
      var w := if SomeoneAsleep(p) then AwakeWorker(p.workers) else 0;
      assert WorkerOk(p, w);
      var a, p' := AwakeCanAct(p, w);
      assert CanAct(p, w);
    }
    if p.shuttingDown {
      forall w | 0 <= w < |p.workers| ensures p.workers[w] != Asleep {
        assert WorkerOk(p, w);
      }
    }
  }

  ghost function AwakeWorker(ws: seq<Worker>): (w: nat)
    requires Tally(ws, Awake) > 0
    ensures w < |ws| && Awake(ws[w]) == 1
  {
    var n := |ws| - 1;
    if Awake(ws[n]) > 0 then n else AwakeWorker(ws[..n])
  }

  /** First in, first out: what has been popped, then what is queued, is what was pushed, each connection once. */
  lemma PoppedInOrder(states: seq<Pool>, actions: seq<Action>, i: nat)
    requires IsRun(states, actions) && i < |states|
    ensures var p := states[i];
            && p.pushed == p.popped + p.queue
            && |p.queue| <= p.capacity
            && forall j, k :: 0 <= j < k < |p.pushed| ==> p.pushed[j] < p.pushed[k]
  {
    RunKeepsInv(states, actions, i);
  }

  function Busy(x: Worker): nat {
    if x.Handling? then 1 else 0
  }

  function HandCount(m: MainLoop): nat {
    if m.Pushing? || m.Refusing? then 1 else 0
  }

  ghost predicate Conserved(p: Pool) {
    |p.conns| == p.completed + |p.queue| + Tally(p.workers, Busy) + HandCount(p.main)
  }

  lemma SameTally(ws: seq<Worker>, ws': seq<Worker>, f: Worker -> nat)
    requires |ws| == |ws'| && forall i :: 0 <= i < |ws| ==> f(ws[i]) == f(ws'[i])
    ensures Tally(ws, f) == Tally(ws', f)
  {
  }

  lemma StepConserves(p: Pool, a: Action, p': Pool)
    requires Conserved(p) && Step(p, a, p')
    ensures Conserved(p')
  {
    hide Tally;
    match a {
      case Push => SameTally(p.workers, p'.workers, Busy);
      case Shutdown => SameTally(p.workers, p'.workers, Busy);
      case WaitFails => SameTally(p.workers, p'.workers, Busy);
      case Pop(w) => TallyUpdate(p.workers, w, p'.workers[w], Busy);
      case WakeSpuriously(w) => TallyUpdate(p.workers, w, Woken, Busy);
      case Complete(w) => TallyUpdate(p.workers, w, p'.workers[w], Busy);
      case Close(w) => TallyUpdate(p.workers, w, Ready, Busy);
      case _ =>
    }
  }

  lemma {:induction false} TallyZero(ws: seq<Worker>, f: Worker -> nat)
    requires forall i :: 0 <= i < |ws| ==> f(ws[i]) == 0
    ensures Tally(ws, f) == 0
  {
    if ws != [] {
      TallyZero(ws[..|ws| - 1], f);
    }
  }

  /** In every reachable state: accepted = completed + queued + being handled + in the accept loop's hand. */
  lemma {:induction false} ConnectionsConserved(states: seq<Pool>, actions: seq<Action>, i: nat)
    requires IsRun(states, actions) && i < |states|
    ensures Conserved(states[i])
  {
    if i > 0 {
      ConnectionsConserved(states, actions, i - 1);
      assert Step(states[i - 1], actions[i - 1], states[i - 1 + 1]);
      StepConserves(states[i - 1], actions[i - 1], states[i]);
    } else {
      TallyZero(states[0].workers, Busy);
    }
  }

  /** A connection is counted complete at most once: the step that counts it finds it uncounted. */
  lemma CountedOnce(states: seq<Pool>, actions: seq<Action>, i: nat, c: Conn)
    requires IsRun(states, actions) && i < |actions| && c < |states[i].conns|
    ensures c < |states[i + 1].conns|
    ensures states[i].conns[c] == Counted ==> states[i + 1].conns[c] == Counted
    ensures states[i + 1].completed ==
            states[i].completed + if actions[i].Complete? || actions[i].Refuse? then 1 else 0
    ensures states[i + 1].completed == Counts(states[i + 1].conns)
  {
    hide Counts, Tally;
    RunKeepsInv(states, actions, i);
    RunKeepsInv(states, actions, i + 1);
    var p, a, p' := states[i], actions[i], states[i + 1];
    assert Step(p, a, p');
    if a.Complete? {
      assert WorkerOk(p, a.w);
    }
  }

  /** After a normal shutdown nothing is left over: the queue is drained and every accepted connection was counted. */
  lemma ShutdownDrains(states: seq<Pool>, actions: seq<Action>, i: nat)
    requires IsRun(states, actions) && i < |states| && states[i].main == Finished
    ensures var p := states[i];
            && p.queue == [] && p.popped == p.pushed
            && (forall c :: 0 <= c < |p.conns| ==> p.conns[c] == Counted)
            && p.completed == |p.conns|
  {
    RunKeepsInv(states, actions, i);
    var p := states[i];
    assert WorkerOk(p, 0);
    forall c | 0 <= c < |p.conns| ensures p.conns[c] == Counted {
      assert StageOk(p, c);
    }
    CountsAll(p.conns);
  }

  /** Work left for a worker once the queue is closing. */
  function Left(x: Worker): nat {
    match x
    case Exited => 0
    case Ready => 1
    case Woken => 1
    case Asleep => 2
    case Closing(_) => 2
    case Handling(_) => 3
  }

  ghost function WorkLeft(p: Pool): nat {
    3 * |p.queue| + Tally(p.workers, Left)
  }

  lemma DrainStep(p: Pool, a: Action, p': Pool)
    requires Step(p, a, p') && (p.main == Joining || p.main == Finished) && p.shuttingDown
    ensures p'.main == Joining || p'.main == Finished
    ensures WorkLeft(p') + (if IsWorkerStep(a) then 1 else 0) <= WorkLeft(p)
  {
    hide Tally;
    match a {
      case Pop(w) => TallyUpdate(p.workers, w, p'.workers[w], Left);
      case WakeSpuriously(w) => TallyUpdate(p.workers, w, p'.workers[w], Left);
      case Complete(w) => TallyUpdate(p.workers, w, p'.workers[w], Left);
      case Close(w) => TallyUpdate(p.workers, w, p'.workers[w], Left);
      case _ =>
    }
  }

  ghost predicate IsContinuation(p: Pool, states: seq<Pool>, actions: seq<Action>) {
    && |states| == |actions| + 1 && states[0] == p
    && forall i :: 0 <= i < |actions| ==> Step(states[i], actions[i], states[i + 1])
  }

  predicate IsWorkerStep(a: Action) {
    a.Pop? || a.WakeSpuriously? || a.Complete? || a.Close?
  }

  /** How many of the first n actions are steps of workers. */
  function WorkerSteps(actions: seq<Action>, n: nat): nat
    requires n <= |actions|
  {
    if n == 0 then 0 else WorkerSteps(actions, n - 1) + if IsWorkerStep(actions[n - 1]) then 1 else 0
  }

  /** While the accept loop joins, a worker that is left always has a step to take. */
  lemma LeftCanAct(p: Pool, w: nat) returns (a: Action, p': Pool)
    requires Inv(p) && p.main == Joining && w < |p.workers| && p.workers[w] != Exited
    ensures OwnStep(a, w) && Step(p, a, p') && p'.main == Joining
  {
    assert WorkerOk(p, w);
    a, p' := AwakeCanAct(p, w);
  }

  ghost predicate Draining(p: Pool) {
    Inv(p) && (p.main == Joining || p.main == Finished)
  }

  lemma DrainMoves(p: Pool, a: Action, p': Pool)
    requires Draining(p) && Step(p, a, p')
    ensures Draining(p') && WorkLeft(p') + (if IsWorkerStep(a) then 1 else 0) <= WorkLeft(p)
  {
    StepKeepsInv(p, a, p');
    DrainStep(p, a, p');
  }

  /** Closing down takes boundedly many worker steps, whatever the order. */
  lemma {:induction false} DrainIsBounded(p: Pool, states: seq<Pool>, actions: seq<Action>, n: nat)
    requires Draining(p) && IsContinuation(p, states, actions) && n <= |actions|
    ensures Draining(states[n]) && WorkerSteps(actions, n) + WorkLeft(states[n]) <= WorkLeft(p)
  {
    hide Draining, Step, WorkLeft;
    if n > 0 {
      DrainIsBounded(p, states, actions, n - 1);
      assert Step(states[n - 1], actions[n - 1], states[n - 1 + 1]);
      DrainMoves(states[n - 1], actions[n - 1], states[n]);
    }
  }

  /** From every state in which the accept loop joins, the pool can be brought to its end by the workers' own steps. */
  lemma {:induction false} DrainCanEnd(p: Pool) returns (states: seq<Pool>, actions: seq<Action>)
    requires Inv(p) && p.main == Joining
    ensures IsContinuation(p, states, actions) && states[|actions|].main == Finished
    decreases WorkLeft(p)
  {
    if w :| 0 <= w < |p.workers| && p.workers[w] != Exited {
      var a, p' := LeftCanAct(p, w);
      StepKeepsInv(p, a, p');
      DrainStep(p, a, p');
      var later, steps := DrainCanEnd(p');
      states, actions := [p] + later, [a] + steps;
    } else {
      var end := p.(main := Finished);
      states, actions := [p, end], [Join];
    }
  }

  /** Some continuation brings the pool to its end. */
  ghost predicate CanEnd(p: Pool) {
    exists states: seq<Pool>, actions: seq<Action> :: IsContinuation(p, states, actions) &&
        states[|actions|].main == Finished
  }

  /**
   Closing down ends.  Once the accept loop is joining, no continuation has more worker steps than there was work
   left; wherever it has got to, each worker that has not exited has a step to take, and the end can be reached.
   */
  lemma DrainTerminates(states: seq<Pool>, actions: seq<Action>, i: nat, later: seq<Pool>, steps: seq<Action>)
    requires IsRun(states, actions) && i < |states| && states[i].main == Joining
    requires IsContinuation(states[i], later, steps)
    ensures WorkerSteps(steps, |steps|) <= WorkLeft(states[i])
    ensures var p := later[|steps|];
            && (forall w :: 0 <= w < |p.workers| && p.workers[w] != Exited ==> CanAct(p, w))
            && (p.main == Finished || CanEnd(p))
  {
    RunKeepsInv(states, actions, i);
    DrainIsBounded(states[i], later, steps, |steps|);
    var p := later[|steps|];
    if p.main == Joining {
      forall w | 0 <= w < |p.workers| && p.workers[w] != Exited ensures CanAct(p, w) {
        var a, p' := LeftCanAct(p, w);
      }
      var rest, moves := DrainCanEnd(p);
    }
  }
}
