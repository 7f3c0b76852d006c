/**
 The audit worker pool: a bounded queue between any number of producers and five workers. Producers,
 workers and Shutdown interleave in atomic steps; an action that is not enabled leaves the state alone.
 */
module AuditQueue {
  const QUEUE_SIZE: nat := 1024
  const WORKER_COUNT: nat := 5

  datatype Event = Event(tenant: string, action: string, status: string)

  datatype Worker = Idle | Writing(event: Event) | Exited

  /** The histories: accepted by the queue, taken from it by some worker, and returned from the writer. */
  datatype State = State(
    queue: seq<Event>,
    closed: bool,
    workers: seq<Worker>,
    accepted: seq<Event>,
    dequeued: seq<Event>,
    written: seq<Event>)

  datatype Outcome = Accepted | Dropped | ContextEnded | Panicked

  /** When both the send and the ended context are ready, select takes either; first says it sends. */
  datatype Action =
    | Log(event: Event, ended: bool, first: bool)
    | Dequeue(w: nat)
    | Finish(w: nat)
    | Exit(w: nat)
    | Shutdown

  // ---- Steps ----

  /** A send is ready when there is room, and on a closed channel, where it panics. */
  function Offered(s: State, ended: bool, first: bool): Outcome {
    var ready := s.closed || |s.queue| < QUEUE_SIZE;
    if ready && (first || !ended) then if s.closed then Panicked else Accepted
    else if ended then ContextEnded
    else Dropped
  }

  predicate Enabled(s: State, a: Action) {
    match a
    case Log(_, _, _) => true
    case Dequeue(w) => w < |s.workers| && s.workers[w].Idle? && s.queue != []
    case Finish(w) => w < |s.workers| && s.workers[w].Writing?
    case Exit(w) => w < |s.workers| && s.workers[w].Idle? && s.closed && s.queue == []
    case Shutdown => !s.closed
  }

  function Apply(s: State, a: Action): State
    requires Enabled(s, a)
  {
    match a
    case Log(event, ended, first) =>
      if Offered(s, ended, first).Accepted? then
        s.(queue := s.queue + [event], accepted := s.accepted + [event])
      else s
    case Dequeue(w) =>
      s.(queue := s.queue[1..], dequeued := s.dequeued + [s.queue[0]],
         workers := s.workers[w := Writing(s.queue[0])])
    case Finish(w) => s.(workers := s.workers[w := Idle], written := s.written + [s.workers[w].event])
    case Exit(w) => s.(workers := s.workers[w := Exited])
    case Shutdown => s.(closed := true)
  }

  predicate IsWork(a: Action) { a.Dequeue? || a.Finish? || a.Exit? }

  // ---- Events in the workers' hands, and the work left ----

  function Holds(w: Worker, e: Event): nat { if w == Writing(e) then 1 else 0 }

  /** How many of the first n workers are writing the event. */
  function InHand(ws: seq<Worker>, n: nat, e: Event): nat
    requires n <= |ws|
  {
    if n == 0 then 0 else InHand(ws, n - 1, e) + Holds(ws[n - 1], e)
  }

  function Weight(w: Worker): nat { if w.Exited? then 0 else if w.Idle? then 1 else 2 }

  function Weights(ws: seq<Worker>, n: nat): nat
    requires n <= |ws|
  {
    if n == 0 then 0 else Weights(ws, n - 1) + Weight(ws[n - 1])
  }

  function Rank(s: State): nat { 2 * |s.queue| + Weights(s.workers, |s.workers|) }

  lemma {:induction false} WeightsAt(ws: seq<Worker>, n: nat, w: nat, x: Worker)
    requires n <= |ws| && w < |ws|
    ensures Weights(ws[w := x], n) == Weights(ws, n) + (if w < n then Weight(x) - Weight(ws[w]) else 0)
  {
    if n == 0 {
    } else {
      WeightsAt(ws, n - 1, w, x);
    }
  }

  lemma {:induction false} InHandAt(ws: seq<Worker>, n: nat, w: nat, x: Worker, e: Event)
    requires n <= |ws| && w < |ws|
    ensures InHand(ws[w := x], n, e) == InHand(ws, n, e) + (if w < n then Holds(x, e) - Holds(ws[w], e) else 0)
  {
    if n == 0 {
    } else {
      InHandAt(ws, n - 1, w, x, e);
    }
  }

  // ---- Invariant ----

  predicate Fifo(s: State) { s.dequeued + s.queue == s.accepted }

  ghost predicate HandedOnce(s: State) {
    forall e :: multiset(s.dequeued)[e] == multiset(s.written)[e] + InHand(s.workers, |s.workers|, e)
  }

  predicate ExitsLast(s: State) {
    forall w :: 0 <= w < |s.workers| && s.workers[w].Exited? ==> s.closed && s.queue == []
  }

  ghost predicate Inv(s: State) {
    && |s.workers| == WORKER_COUNT
    && |s.queue| <= QUEUE_SIZE
    && Fifo(s)
    && HandedOnce(s)
    && ExitsLast(s)
  }

  lemma FifoStep(s: State, a: Action)
    requires Fifo(s) && Enabled(s, a)
    ensures Fifo(Apply(s, a))
  {
    if a.Log? {
      assert s.dequeued + (s.queue + [a.event]) == (s.dequeued + s.queue) + [a.event];
    } else if a.Dequeue? {
      assert s.dequeued + [s.queue[0]] + s.queue[1..] == s.dequeued + s.queue;
    }
  }

  lemma HandedStep(s: State, a: Action, e: Event)
    requires Enabled(s, a)
    requires multiset(s.dequeued)[e] == multiset(s.written)[e] + InHand(s.workers, |s.workers|, e)
    ensures var s' := Apply(s, a);
            multiset(s'.dequeued)[e] == multiset(s'.written)[e] + InHand(s'.workers, |s'.workers|, e)
  {
    hide InHand;
    if IsWork(a) {
      InHandAt(s.workers, |s.workers|, a.w, Apply(s, a).workers[a.w], e);
    }
  }

  lemma HandedOnceStep(s: State, a: Action)
    requires HandedOnce(s) && Enabled(s, a)
    ensures HandedOnce(Apply(s, a))
  {
    hide InHand, Apply, Enabled;
    var s' := Apply(s, a);
    forall e ensures multiset(s'.dequeued)[e] == multiset(s'.written)[e] + InHand(s'.workers, |s'.workers|, e) {
      HandedStep(s, a, e);
    }
  }

  lemma InvStep(s: State, a: Action)
    requires Inv(s) && Enabled(s, a)
    ensures Inv(Apply(s, a))
  {
    FifoStep(s, a);
    HandedOnceStep(s, a);
    hide Fifo, HandedOnce;
  }

  /** Every step of a worker brings the pool one step nearer to its end; only an accepted event adds work. */
  lemma RankStep(s: State, a: Action)
    requires Enabled(s, a)
    ensures Rank(Apply(s, a)) + (if IsWork(a) then 1 else 0)
         == Rank(s) + 2 * (|Apply(s, a).accepted| - |s.accepted|)
  {
    if IsWork(a) {
      WeightsAt(s.workers, |s.workers|, a.w, Apply(s, a).workers[a.w]);
    }
  }

  // ---- Runs ----

  function Initial(): State { State([], false, [Idle, Idle, Idle, Idle, Idle], [], [], []) }

  lemma StartInv()
    ensures Inv(Initial())
  {
    var ws := Initial().workers;
    forall e ensures InHand(ws, 5, e) == 0 {
      assert InHand(ws, 1, e) == 0;
      assert InHand(ws, 3, e) == 0;
    }
  }

  ghost function After(acts: seq<Action>, n: nat): (s: State)
    requires n <= |acts|
    ensures Inv(s)
  {
    if n == 0 then
      StartInv();
      Initial()
    else
      var s := After(acts, n - 1);
      if Enabled(s, acts[n - 1]) then
        InvStep(s, acts[n - 1]);
        Apply(s, acts[n - 1])
      else s
  }

  /** The steps the workers have taken. */
  ghost function Worked(acts: seq<Action>, n: nat): nat
    requires n <= |acts|
  {
    if n == 0 then 0
    else Worked(acts, n - 1) + (if IsWork(acts[n - 1]) && Enabled(After(acts, n - 1), acts[n - 1]) then 1 else 0)
  }

  /**
   What was dequeued followed by the queue is what was accepted, in order; the queue keeps its bound;
   and what was dequeued was handed to the writer once, and is either written or in one worker's hands.
   */
  lemma NothingLostOrRepeated(acts: seq<Action>)
    ensures var s := After(acts, |acts|);
            && s.dequeued + s.queue == s.accepted
            && |s.queue| <= 1024
            && (forall e :: multiset(s.accepted)[e]
                         == multiset(s.written)[e] + InHand(s.workers, |s.workers|, e) + multiset(s.queue)[e])
  {
    var s := After(acts, |acts|);
    assert multiset(s.dequeued + s.queue) == multiset(s.dequeued) + multiset(s.queue);
  }

  lemma StartRank()
    ensures Rank(Initial()) == WORKER_COUNT
  {
    var ws := Initial().workers;
    assert Weights(ws, 1) == 1;
    assert Weights(ws, 3) == 3;
    assert Weights(ws, 5) == 5;
  }

  /** At any time, whatever the interleaving, the work done and the work left add up to the work there is. */
  lemma {:induction false} WorkIsConserved(acts: seq<Action>, n: nat)
    requires n <= |acts|
    ensures Rank(After(acts, n)) + Worked(acts, n) == 5 + 2 * |After(acts, n).accepted|
  {
    hide Inv, Apply, Rank;
    if n == 0 {
      StartRank();
    } else {
      WorkIsConserved(acts, n - 1);
      var s := After(acts, n - 1);
      if Enabled(s, acts[n - 1]) {
        RankStep(s, acts[n - 1]);
      }
    }
  }

  /** No event is accepted once Shutdown has closed the queue. */
  lemma {:induction false} ClosedForGood(acts: seq<Action>, m: nat, n: nat)
    requires m <= n <= |acts| && After(acts, m).closed
    ensures After(acts, n).closed && After(acts, n).accepted == After(acts, m).accepted
  {
    hide Inv;
    if n == m {
    } else {
      ClosedForGood(acts, m, n - 1);
    }
  }

  lemma {:induction false} Heaviest(ws: seq<Worker>, n: nat)
    requires n <= |ws| && Weights(ws, n) > 0
    ensures exists w :: 0 <= w < n && !ws[w].Exited?
  {
    if ws[n - 1].Exited? {
      Heaviest(ws, n - 1);
    }
  }

  /** Once the queue is closed no deadlock is possible: while work is left, some worker can step. */
  lemma SomeWorkerCanStep(s: State)
    requires Inv(s) && s.closed && Rank(s) > 0
    ensures exists w :: Enabled(s, Dequeue(w)) || Enabled(s, Finish(w)) || Enabled(s, Exit(w))
  {
    hide Fifo, HandedOnce;
    if s.queue != [] {
      assert !s.workers[0].Exited?;
      assert Enabled(s, Dequeue(0)) || Enabled(s, Finish(0));
    } else {
      Heaviest(s.workers, |s.workers|);
      var w :| 0 <= w < |s.workers| && !s.workers[w].Exited?;
      assert Enabled(s, Exit(w)) || Enabled(s, Finish(w));
    }
  }

  lemma {:induction false} AllExited(ws: seq<Worker>, n: nat)
    requires n <= |ws|
    ensures Weights(ws, n) == 0 <==> forall w :: 0 <= w < n ==> ws[w].Exited?
    ensures Weights(ws, n) == 0 ==> forall e :: InHand(ws, n, e) == 0
  {
    if n == 0 {
    } else {
      AllExited(ws, n - 1);
    }
  }

  lemma DrainedMeansWritten(s: State)
    requires Inv(s)
    ensures (forall w :: 0 <= w < |s.workers| ==> s.workers[w].Exited?) <==> Rank(s) == 0
    ensures Rank(s) == 0 ==> s.dequeued == s.accepted && multiset(s.written) == multiset(s.accepted)
  {
    AllExited(s.workers, |s.workers|);
    if forall w :: 0 <= w < |s.workers| ==> s.workers[w].Exited? {
      assert s.workers[0].Exited?;
      assert s.dequeued + [] == s.dequeued;
    }
  }

  /**
   After Shutdown the workers take exactly Rank more steps, in whatever order; when all of them have
   exited, which is when Shutdown returns, every accepted event has been written exactly once.
   */
  lemma ShutdownWritesEverything(acts: seq<Action>, m: nat)
    requires m <= |acts| && After(acts, m).closed
    ensures var s := After(acts, |acts|);
            var steps := Worked(acts, |acts|) - Worked(acts, m);
            && steps + Rank(s) == Rank(After(acts, m))
            && (Rank(s) == 0 <==> forall w :: 0 <= w < |s.workers| ==> s.workers[w].Exited?)
            && (Rank(s) == 0 ==> s.dequeued == s.accepted && multiset(s.written) == multiset(s.accepted))
  {
    WorkIsConserved(acts, m);
    WorkIsConserved(acts, |acts|);
    ClosedForGood(acts, m, |acts|);
    var s := After(acts, |acts|);
    hide After, Worked;
    AllExited(s.workers, |s.workers|);
    DrainedMeansWritten(s);
  }

  lemma {:induction false} ClosedIsShutdown(acts: seq<Action>, n: nat)
    requires n <= |acts|
    ensures After(acts, n).closed <==> Shutdown in acts[..n]
  {
    hide Inv;
    if n == 0 {
    } else {
      ClosedIsShutdown(acts, n - 1);
      assert acts[..n] == acts[..n - 1] + [acts[n - 1]];
    }
  }

  /** A call panics exactly when Shutdown came first and select takes the send. */
  lemma {:induction false} PanicsExactlyAfterShutdown(acts: seq<Action>, n: nat)
    requires n < |acts| && acts[n].Log?
    ensures Offered(After(acts, n), acts[n].ended, acts[n].first).Panicked?
       <==> Shutdown in acts[..n] && (acts[n].first || !acts[n].ended)
  {
    ClosedIsShutdown(acts, n);
  }

  /** The queue takes the event of a Log: no Shutdown came before, it has room, and select takes the send. */
  ghost predicate Takes(acts: seq<Action>, i: nat)
    requires i < |acts|
  {
    && acts[i].Log?
    && Shutdown !in acts[..i]
    && |After(acts, i).queue| < 1024
    && (acts[i].first || !acts[i].ended)
  }

  ghost function Taken(acts: seq<Action>, n: nat): seq<Event>
    requires n <= |acts|
  {
    if n == 0 then [] else Taken(acts, n - 1) + (if Takes(acts, n - 1) then [acts[n - 1].event] else [])
  }

  /** The accepted events are those of the calls that the queue takes, in order. */
  lemma {:induction false} AcceptedAreTaken(acts: seq<Action>, n: nat)
    requires n <= |acts|
    ensures After(acts, n).accepted == Taken(acts, n)
  {
    hide Inv;
    if n == 0 {
    } else {
      AcceptedAreTaken(acts, n - 1);
      ClosedIsShutdown(acts, n - 1);
    }
  }

  /** What the caller is told: accepted exactly when its event is taken, dropped exactly when an open queue is full. */
  lemma OutcomesAre(acts: seq<Action>, n: nat)
    requires n < |acts| && acts[n].Log?
    ensures var s, o := After(acts, n), Offered(After(acts, n), acts[n].ended, acts[n].first);
            && (o.Accepted? <==> Takes(acts, n))
            && (o.Dropped? <==> Shutdown !in acts[..n] && |s.queue| == 1024 && !acts[n].ended)
            && (o.ContextEnded? <==> acts[n].ended && ((Shutdown !in acts[..n] && |s.queue| == 1024) || !acts[n].first))
  {
    ClosedIsShutdown(acts, n);
  }

  // ---- The repository object ----

  class AuditRepo {
    var started: bool
    var state: State

    ghost predicate Valid()
      reads this
    {
      && (started ==> Inv(state))
      && (!started ==> state == Initial().(workers := []))
    }

    /** NewAuditRepo: starts the pool. */
    constructor ()
      ensures Valid() && started && state == Initial()
    {
      started := false;
      state := State([], false, [], [], [], []);
      new;
      Start();
    }

    /** Starts the five workers the first time and nothing afterwards. */
    method Start()
      requires Valid()
      modifies this
      ensures Valid() && started
      ensures state == if old(started) then old(state) else Initial()
    {
      StartInv();
      if !started {
        var i := 0;
        while i < WORKER_COUNT
          invariant i <= WORKER_COUNT
          invariant |state.workers| == i && forall w :: 0 <= w < i ==> state.workers[w] == Idle
          invariant state.(workers := []) == Initial().(workers := [])
        {
          state := state.(workers := state.workers + [Idle]);
          i := i + 1;
        }
        assert state.workers == Initial().workers;
        started := true;
      }
    }

    method LogSecurityEvent(event: Event, ended: bool, first: bool) returns (outcome: Outcome)
      requires Valid() && started
      modifies this`state
      ensures Valid()
      ensures outcome == Offered(old(state), ended, first)
      ensures state == Apply(old(state), Log(event, ended, first))
      ensures outcome.Accepted? <==> !old(state.closed) && |old(state.queue)| < 1024 && (first || !ended)
      ensures outcome.Accepted? ==> state.queue == old(state.queue) + [event] && state.accepted == old(state.accepted) + [event]
      ensures !outcome.Accepted? ==> state == old(state)
      ensures outcome.Dropped? <==> !old(state.closed) && |old(state.queue)| == 1024 && !ended
      ensures outcome.Panicked? <==> old(state.closed) && (first || !ended)
    {
      InvStep(state, Log(event, ended, first));
      if (state.closed || |state.queue| < QUEUE_SIZE) && (first || !ended) {
        if state.closed {
          return Panicked;
        }
        state := state.(queue := state.queue + [event], accepted := state.accepted + [event]);
        return Accepted;
      }
      return if ended then ContextEnded else Dropped;
    }

    /**
     Closes the queue once and waits for the workers, who step in any order while it does: when it
     returns, all have exited and every accepted event has been written exactly once. A second call
     changes nothing and does not wait.
     */
    method Shutdown()
      requires Valid() && started
      modifies this`state
      ensures Valid() && state.closed && state.accepted == old(state.accepted)
      ensures old(state.closed) ==> state == old(state)
      ensures !old(state.closed) ==>
          && (forall w :: 0 <= w < WORKER_COUNT ==> state.workers[w].Exited?)
          && state.queue == [] && state.dequeued == state.accepted
          && multiset(state.written) == multiset(state.accepted)
    {
      hide Fifo, HandedOnce;
      if state.closed {
        return;
      }
      ghost var accepted := state.accepted;
      InvStep(state, Action.Shutdown);
      state := state.(closed := true);
      while exists w :: 0 <= w < |state.workers| && !state.workers[w].Exited?
        invariant Inv(state) && state.closed && state.accepted == accepted
        decreases Rank(state)
      {
        var w :| 0 <= w < |state.workers| && !state.workers[w].Exited?;
        var a := if state.workers[w].Writing? then Finish(w) else if state.queue != [] then Dequeue(w) else Exit(w);
        InvStep(state, a);
        RankStep(state, a);
        state := Apply(state, a);
      }
      DrainedMeansWritten(state);
      assert state.workers[0].Exited?;
    }

    /**
     One worker's loop with no other in between: it writes what is queued, in order, and then exits if
     the queue is closed or waits for more if it is not.
     */
    method RunWorker(w: nat)
      requires Valid() && started
      requires w < WORKER_COUNT && state.workers[w].Idle?
      modifies this`state
      ensures Valid()
      ensures state.queue == [] && state.accepted == old(state.accepted) && state.closed == old(state.closed)
      ensures state.written == old(state.written) + old(state.queue)
      ensures state.workers == if state.closed then old(state.workers)[w := Exited] else old(state.workers)
    {
      ghost var before := state;
      while state.queue != []
        invariant Inv(state) && state.closed == before.closed && state.accepted == before.accepted
        invariant state.workers == before.workers && state.workers[w].Idle?
        invariant state.written + state.queue == before.written + before.queue
        decreases |state.queue|
      {
        ghost var s := state;
        InvStep(state, Dequeue(w));
        state := Apply(state, Dequeue(w));
        InvStep(state, Finish(w));
        state := Apply(state, Finish(w));
        assert state.workers == s.workers;
        assert (s.written + [s.queue[0]]) + s.queue[1..] == s.written + s.queue;
      }
      if state.closed {
        InvStep(state, Exit(w));
        state := Apply(state, Exit(w));
      }
    }
  }
}
