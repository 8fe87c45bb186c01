/**
 What becomes of each connection, and of a request to stop, over whole runs of
 the worker pool; and that the ring buffer is the queue the pool speaks of.
 */
module PoolRuns {
  import opened WorkerPool
  import opened RequestQueue

  // --------------------------------------------------------- queued or refused

  /**
   A connection that arrives while the queue has room is appended to it, one that finds it full is refused,
   and nothing else changes the tail of the queue.
   */
  lemma PushDecides(states: seq<Pool>, actions: seq<Action>, i: nat)
    requires IsRun(states, actions) && i < |actions|
    ensures var p, p' := states[i], states[i + 1];
            && (actions[i] == Push ==>
                  && p.main.Pushing? && p.main.conn == |p.conns| - 1
                  && if |p.queue| < p.capacity
                     then p'.queue == p.queue + [p.main.conn] && p'.pushed == p.pushed + [p.main.conn] &&
                         p'.main == Checking
                     else p'.queue == p.queue && p'.pushed == p.pushed && p'.main == Refusing(p.main.conn))
            && (actions[i] != Push ==>
               p'.pushed == p.pushed && (p'.queue == p.queue || p.queue[..1] + p'.queue == p.queue))
            && (actions[i] == Refuse ==> p.main.Refusing? && p'.completed == p.completed + 1 && p'.main == Checking)
  {
    RunKeepsInv(states, actions, i);
    LatestInHand(states, actions, i);
    assert Step(states[i], actions[i], states[i + 1]);
  }

  /** The accept loop holds no connection but the one it accepted last. */
  predicate Latest(p: Pool) {
    (p.main.Pushing? || p.main.Refusing?) ==> p.main.conn == |p.conns| - 1
  }

  lemma StepLatest(p: Pool, a: Action, p': Pool)
    requires Latest(p) && Step(p, a, p')
    ensures Latest(p')
  {
  }

  lemma {:induction false} LatestInHand(states: seq<Pool>, actions: seq<Action>, i: nat)
    requires IsRun(states, actions) && i < |states|
    ensures Latest(states[i])
  {
    if i > 0 {
      hide Step, Latest;
      LatestInHand(states, actions, i - 1);
      assert Step(states[i - 1], actions[i - 1], states[i - 1 + 1]);
      StepLatest(states[i - 1], actions[i - 1], states[i]);
    }
  }

  /** Step k is the push of connection c, and it finds the queue full. */
  predicate TurnedAway(states: seq<Pool>, actions: seq<Action>, k: int, c: Conn) {
    && 0 <= k < |actions| < |states| && actions[k] == Push
    && states[k].main == Pushing(c) && |states[k].queue| == states[k].capacity
  }

  /** Where connection c has got to by state i. */
  ghost predicate Fate(states: seq<Pool>, actions: seq<Action>, i: nat, c: Conn)
    requires i < |states|
  {
    || c in states[i].pushed
    || states[i].main == Pushing(c)
    || exists k :: k < i && TurnedAway(states, actions, k, c)
  }

  lemma PushedStays(p: Pool, a: Action, p': Pool, c: Conn)
    requires Step(p, a, p') && c in p.pushed
    ensures c in p'.pushed
  {
  }

  lemma NewInHand(p: Pool, a: Action, p': Pool, c: Conn)
    requires Step(p, a, p') && |p.conns| <= c < |p'.conns|
    ensures p'.main == Pushing(c)
  {
  }

  lemma {:induction false} EveryFate(states: seq<Pool>, actions: seq<Action>, i: nat, c: Conn)
    requires IsRun(states, actions) && i < |states| && c < |states[i].conns|
    ensures Fate(states, actions, i, c)
  {
    if i > 0 {
      hide Step, Inv;
      var p, a, p' := states[i - 1], actions[i - 1], states[i];
      assert Step(p, a, states[i - 1 + 1]);
      RunKeepsInv(states, actions, i - 1);
      if c >= |p.conns| {
        NewInHand(p, a, p', c);
      } else {
        EveryFate(states, actions, i - 1, c);
        if c in p.pushed {
          PushedStays(p, a, p', c);
        } else if p.main == Pushing(c) {
          PushSettles(p, a, p', c);
          assert p'.main == Refusing(c) ==> TurnedAway(states, actions, i - 1, c);
        }
      }
    }
  }

  lemma PushSettles(p: Pool, a: Action, p': Pool, c: Conn)
    requires Inv(p) && Step(p, a, p') && p.main == Pushing(c)
    ensures c in p'.pushed || p'.main == Pushing(c) || (p'.main == Refusing(c) && a == Push && |p.queue| == p.capacity)
  {
    if a == Push && |p.queue| < p.capacity {
      assert p'.pushed[|p.pushed|] == c;
    }
  }

  /**
   In every reachable state each accepted connection was queued, is about to be pushed, or found the queue full;
   one that was queued did not find it full.
   */
  lemma RefusedOnlyWhenFull(states: seq<Pool>, actions: seq<Action>, i: nat, c: Conn)
    requires IsRun(states, actions) && i < |states| && c < |states[i].conns| && states[i].main != Pushing(c)
    ensures c !in states[i].pushed <==> exists k :: k < i && TurnedAway(states, actions, k, c)
  {
    EveryFate(states, actions, i, c);
    if k :| k < i && TurnedAway(states, actions, k, c) {
      NeverPushed(states, actions, k, i, c);
    }
  }

  /** c is neither in the queue's history nor about to enter it. */
  predicate Gone(p: Pool, c: Conn) {
    c < |p.conns| && c !in p.pushed && p.main != Pushing(c)
  }

  lemma GoneStays(p: Pool, a: Action, p': Pool, c: Conn)
    requires Gone(p, c) && Step(p, a, p')
    ensures Gone(p', c)
  {
  }

  lemma TurnedAwayIsGone(p: Pool, p': Pool, c: Conn)
    requires Inv(p) && Step(p, Push, p') && p.main == Pushing(c) && |p.queue| == p.capacity
    ensures Gone(p', c)
  {
  }

  /** A connection turned away never gets into the queue later. */
  lemma {:induction false} NeverPushed(states: seq<Pool>, actions: seq<Action>, k: nat, i: nat, c: Conn)
    requires IsRun(states, actions) && k < i < |states| && TurnedAway(states, actions, k, c)
    ensures Gone(states[i], c)
  {
    hide Gone, Inv, Step;
    RunKeepsInv(states, actions, i - 1);
    assert Step(states[i - 1], actions[i - 1], states[i - 1 + 1]);
    if k < i - 1 {
      NeverPushed(states, actions, k, i - 1, c);
      GoneStays(states[i - 1], actions[i - 1], states[i], c);
    } else {
      TurnedAwayIsGone(states[k], states[i], c);
    }
  }

  // ------------------------------------------------------------------- stopping

  predicate SignalBefore(actions: seq<Action>, i: int) {
    exists k :: 0 <= k < i && k < |actions| && actions[k] == Signal
  }

  /** The stop flag is set exactly when enough responses were completed or a signal arrived. */
  lemma {:induction false} StopMeans(states: seq<Pool>, actions: seq<Action>, i: nat)
    requires IsRun(states, actions) && i < |states|
    ensures var p := states[i];
            p.stop <==> (p.maxRequests > 0 && p.completed >= p.maxRequests) || SignalBefore(actions, i)
  {
    if i > 0 {
      StopMeans(states, actions, i - 1);
      assert Step(states[i - 1], actions[i - 1], states[i - 1 + 1]);
      if actions[i - 1] == Signal {
        assert SignalBefore(actions, i);
      }
      if SignalBefore(actions, i) && !SignalBefore(actions, i - 1) {
        assert actions[i - 1] == Signal;
      }
    }
  }

  predicate LeftLoop(states: seq<Pool>, actions: seq<Action>, k: int) {
    0 <= k < |actions| < |states| && ((actions[k] == Shutdown && states[k].stop) || actions[k] == WaitFails)
  }

  /** The queue is closed only after the loop has seen the stop flag, or its wait failed. */
  lemma {:induction false} ClosedOnlyAfterStop(states: seq<Pool>, actions: seq<Action>, i: nat)
    requires IsRun(states, actions) && i < |states|
    ensures states[i].shuttingDown <==> exists k :: k < i && LeftLoop(states, actions, k)
  {
    if i > 0 {
      ClosedOnlyAfterStop(states, actions, i - 1);
      assert Step(states[i - 1], actions[i - 1], states[i - 1 + 1]);
      if states[i].shuttingDown && !states[i - 1].shuttingDown {
        assert LeftLoop(states, actions, i - 1);
      }
    }
  }

  /** Connections there can still be once the flag is set: one more if the loop is already listening. */
  function Ceiling(p: Pool): nat {
    |p.conns| + if p.main == Listening then 1 else 0
  }

  lemma {:induction false} CeilingFalls(states: seq<Pool>, actions: seq<Action>, i: nat, j: nat)
    requires IsRun(states, actions) && i <= j < |states| && states[i].stop
    ensures states[j].stop && Ceiling(states[j]) <= Ceiling(states[i])
  {
    if i < j {
      CeilingFalls(states, actions, i, j - 1);
      assert Step(states[j - 1], actions[j - 1], states[j - 1 + 1]);
    }
  }

  /** After a stop request at most one more connection is accepted. */
  lemma StopEndsAccepting(states: seq<Pool>, actions: seq<Action>, i: nat, j: nat)
    requires IsRun(states, actions) && i <= j < |states| && states[i].stop
    ensures |states[j].conns| <= |states[i].conns| + 1
  {
    CeilingFalls(states, actions, i, j);
  }

  // ------------------------------------------------------------------- progress

  predicate MainStep(a: Action) {
    a == Listen || a == Accept || a == Push || a == Refuse || a == Shutdown || a == Join
  }

  ghost function WokenUp(ws: seq<Worker>): (r: seq<Worker>)
    ensures AllWoken(ws, r) && Signalled(ws, r)
  {
    seq(|ws|, i requires 0 <= i < |ws| => if ws[i] == Asleep then Woken else ws[i])
  }

  /** The accept loop has a step to take unless it is waiting for workers to exit, or has ended. */
  lemma MainCanAct(p: Pool) returns (a: Action, p': Pool)
    requires Inv(p) && p.main != Finished
    requires p.main == Joining ==> forall w :: 0 <= w < |p.workers| ==> p.workers[w] == Exited
    ensures MainStep(a) && Step(p, a, p')
  {
    match p.main {
      case Checking =>
        if p.stop {
          a, p' := Shutdown, p.(shuttingDown := true, main := Joining, workers := WokenUp(p.workers));
        } else {
          a, p' := Listen, p.(main := Listening);
        }
      case Listening =>
        a, p' := Accept, p.(conns := p.conns + [InHand], main := Pushing(|p.conns|));
      case Pushing(c) =>
        a := Push;
        p' := if |p.queue| < p.capacity
              then p.(queue := p.queue + [c], pushed := p.pushed + [c], conns := p.conns[c := Queued],
                      main := Checking, workers := WokenUp(p.workers))
              else p.(main := Refusing(c));
      case Refusing(c) =>
        a := Refuse;
        p' := p.(conns := p.conns[c := Counted], completed := p.completed + 1,
          stop := StopAfter(p, p.completed + 1), main := Checking);
      case _ =>
        a, p' := Join, p.(main := Finished);
    }
  }

  lemma OneStepEarlier(p: Pool, a: Action, p': Pool)
    requires Step(p, a, p') && CanEnd(p')
    ensures CanEnd(p)
  {
    var states: seq<Pool>, actions: seq<Action> :|
      IsContinuation(p', states, actions) && states[|actions|].main == Finished;
    assert IsContinuation(p, [p] + states, [a] + actions);
    assert ([p] + states)[|[a] + actions|].main == Finished;
  }

  /** From every state that keeps the invariant the pool can be brought to its end. */
  lemma AlwaysCanEnd(p: Pool)
    requires Inv(p) && p.main != Finished
    ensures CanEnd(p)
    decreases match p.main case Pushing(_) => 4 case Refusing(_) => 3 case Listening => 2 case Checking => 1 case _ => 0
  {
    if p.main == Joining {
      var states, actions := DrainCanEnd(p);
    } else if p.main == Listening {
      var p' := p.(main := Checking);
      StepKeepsInv(p, NoConnection, p');
      AlwaysCanEnd(p');
      OneStepEarlier(p, NoConnection, p');
    } else if p.main == Checking && !p.stop {
      var p' := p.(stop := true);
      StepKeepsInv(p, Signal, p');
      StoppedCanEnd(p');
      OneStepEarlier(p, Signal, p');
    } else if p.main == Checking {
      StoppedCanEnd(p);
    } else {
      var a, p' := MainCanAct(p);
      StepKeepsInv(p, a, p');
      AlwaysCanEnd(p');
      OneStepEarlier(p, a, p');
    }
  }

  lemma StoppedCanEnd(p: Pool)
    requires Inv(p) && p.main == Checking && p.stop
    ensures CanEnd(p)
  {
    var p' := p.(shuttingDown := true, main := Joining, workers := WokenUp(p.workers));
    StepKeepsInv(p, Shutdown, p');
    var states, actions := DrainCanEnd(p');
    OneStepEarlier(p, Shutdown, p');
  }

  /**
   Nothing ever hangs: in every reachable state that is not the end, the accept loop or some worker has a step of
   its own to take, and the pool can still be brought to an orderly end.
   */
  lemma PoolNeverHangs(states: seq<Pool>, actions: seq<Action>, i: nat)
    requires IsRun(states, actions) && i < |states| && states[i].main != Finished
    ensures var p := states[i];
            || (exists a, p' :: MainStep(a) && Step(p, a, p'))
            || (exists w :: 0 <= w < |p.workers| && CanAct(p, w))
    ensures CanEnd(states[i])
  {
    var p := states[i];
    RunKeepsInv(states, actions, i);
    AlwaysCanEnd(p);
    if p.main != Joining || forall w :: 0 <= w < |p.workers| ==> p.workers[w] == Exited {
      var a, p' := MainCanAct(p);
    } else {
      var w :| 0 <= w < |p.workers| && p.workers[w] != Exited;
      var a, p' := LeftCanAct(p, w);
      assert CanAct(p, w);
    }
  }

  // ----------------------------------------------------- nothing is taken for granted

  /** A pool can start with any number of workers, any room in its queue and any limit. */
  lemma AnyPoolCanStart(workers: nat, capacity: nat, maxRequests: nat) returns (p: Pool)
    requires workers > 0 && capacity > 0
    ensures Init(p) && |p.workers| == workers && p.capacity == capacity && p.maxRequests == maxRequests
  {
    p := Pool([], [], capacity, false, false, maxRequests, 0, seq(workers, _ => Ready), Checking, [], []);
  }

  /** A sleeper may wake by itself, a stop request may come, and the wait for connections may end in any way. */
  lemma AnythingMayHappen(p: Pool, w: nat)
    ensures w < |p.workers| && p.workers[w] == Asleep ==>
              Step(p, WakeSpuriously(w), p.(workers := p.workers[w := Woken]))
    ensures Step(p, Signal, p.(stop := true))
    ensures p.main == Listening ==>
              && Step(p, NoConnection, p.(main := Checking))
              && Step(p, Accept, p.(conns := p.conns + [InHand], main := Pushing(|p.conns|)))
              && Step(p, WaitFails, p.(shuttingDown := true, main := Joining, workers := WokenUp(p.workers)))
  {
  }

  // ------------------------------------------------------- the ring buffer's part

  /** The ring buffer holds the pool's queue. */
  ghost predicate Represents(q: Queue, p: Pool)
    reads q, q.items
  {
    q.Valid() && q.Contents() == p.queue && q.items.Length == p.capacity && q.shuttingDown == p.shuttingDown
  }

  /** The accept loop's push: what the ring buffer does is the pool's next state, whichever worker wakes. */
  method PushClient(q: Queue, socket: nat, ghost p: Pool) returns (pushed: bool)
    requires Represents(q, p) && p.main == Pushing(socket)
    modifies q`tail, q`count, q.items
    ensures forall p' :: Step(p, Push, p') ==>
              Represents(q, p') && p'.main == if pushed then Checking else Refusing(socket)
    ensures pushed <==> !p.shuttingDown && |p.queue| < p.capacity
  {
    pushed := q.Push(socket);
  }

  /** A worker's pop once it need not sleep: it takes the oldest connection, or exits when the queue is closed
      and empty. */
  method PopClient(q: Queue, w: nat, ghost p: Pool) returns (socket: Socket)
    requires Represents(q, p) && w < |p.workers| && (p.queue != [] || p.shuttingDown)
    modifies q`head, q`count
    ensures forall p' :: Step(p, Pop(w), p') ==>
              && Represents(q, p')
              && p'.workers[w] == (if p.queue == [] then Exited else Handling(p.queue[0]))
              && socket == if p.queue == [] then INVALID_SOCKET else p.queue[0]
  {
    socket := q.Take();
  }

  /** Closing the ring buffer is leaving the accept loop. */
  method CloseToClients(q: Queue, ghost p: Pool)
    requires Represents(q, p)
    modifies q`shuttingDown
    ensures forall p' :: Step(p, Shutdown, p') || Step(p, WaitFails, p') ==> Represents(q, p')
  {
    q.Shutdown();
  }
}
