/**
 The SurrealDB connection pool as a concurrent protocol. Any number of Query and CreateRecord tasks
 interleave in atomic steps with each other and with Close. An action that is not enabled leaves the
 state alone, so every sequence of actions is a run.
 */
module PoolProtocol {
  import opened Prelude

  type TaskId = nat
  type Conn = nat

  /** The namespace and database a connection is switched to. */
  datatype Target = Target(ns: string, db: string)

  datatype Api = Query | CreateRecord

  datatype Job = Job(api: Api, target: Target)

  /** Where a task stands. A retry is the second round of a Query whose connection died. */
  datatype Phase =
    | Borrowing(job: Job, retry: bool)
    | Switching(job: Job, retry: bool, conn: Conn)
    | Executing(job: Job, retry: bool, conn: Conn)
    | Discarding(job: Job, conn: Conn)   // reconnect, before the dead connection is closed
    | Rebuilding(job: Job)               // reconnect, while a new connection is dialled
    | Offering(job: Job, conn: Conn)     // reconnect, before the send into the channel
    | Returning(conn: Conn)              // returnConn, before the closed flag is read
    | Sending(conn: Conn)                // returnConn, before the send into the channel
    | Finished
    | Panicked(conn: Conn)               // sent on the closed channel
  {
    predicate Holding() {
      Switching? || Executing? || Discarding? || Offering? || Returning? || Sending? || Panicked?
    }

    predicate Reconnecting() { Discarding? || Rebuilding? || Offering? }

    /** An upper bound on the steps the task has left. */
    function Rank(): nat {
      match this
      case Borrowing(_, retry) => if retry then 5 else 11
      case Switching(_, retry, _) => if retry then 4 else 10
      case Executing(_, retry, _) => if retry then 3 else 9
      case Discarding(_, _) => 8
      case Rebuilding(_) => 7
      case Offering(_, _) => 6
      case Returning(_) => 2
      case Sending(_) => 1
      case Finished => 0
      case Panicked(_) => 0
    }
  }

  /**
   Connections are numbered in the order they are opened; closes[c] counts how often c was closed
   and selected[c] is its current target. The channel is idle. Close raises closed, then drains; drained
   says that it has found the channel empty, and sealed that it has closed it.
   */
  datatype State = State(
    max: nat,
    idle: seq<Conn>,
    closed: bool,
    drained: bool,
    sealed: bool,
    closes: seq<nat>,
    selected: seq<Target>,
    tasks: map<TaskId, Phase>,
    lost: nat)

  datatype Made = Fresh | NoDial | NoSetup

  datatype Action =
    | Begin(t: TaskId, job: Job)
    | Borrow(t: TaskId)
    | Cancel(t: TaskId)                                // the context ends while waiting in borrow
    | Use(t: TaskId, ok: bool, left: Target)           // a failed Use leaves any target behind
    | Execute(t: TaskId, dead: bool)
    | Discard(t: TaskId)
    | Rebuild(t: TaskId, made: Made, default: Target)
    | Offer(t: TaskId)
    | Check(t: TaskId)
    | Send(t: TaskId)
    | CloseFlag
    | Drain
    | FindEmpty
    | Seal

  predicate Enabled(s: State, a: Action) {
    match a
    case Begin(t, _) => t !in s.tasks
    case Borrow(t) => t in s.tasks && s.tasks[t].Borrowing? && s.idle != []
    case Cancel(t) => t in s.tasks && s.tasks[t].Borrowing?
    case Use(t, _, _) => t in s.tasks && s.tasks[t].Switching?
    case Execute(t, _) => t in s.tasks && s.tasks[t].Executing?
    case Discard(t) => t in s.tasks && s.tasks[t].Discarding?
    case Rebuild(t, _, _) => t in s.tasks && s.tasks[t].Rebuilding?
    case Offer(t) => t in s.tasks && s.tasks[t].Offering? && (s.sealed || |s.idle| < s.max)
    case Check(t) => t in s.tasks && s.tasks[t].Returning?
    case Send(t) => t in s.tasks && s.tasks[t].Sending? && (s.sealed || |s.idle| < s.max)
    case CloseFlag => !s.closed
    case Drain => s.closed && !s.drained && s.idle != []
    case FindEmpty => s.closed && !s.drained && s.idle == []
    case Seal => s.drained && !s.sealed
  }

  /** The pool as NewPool leaves it: max open connections in the channel, no tasks. */
  function Initial(max: nat, default: Target): State {
    State(max, seq(max, i => i), false, false, false, seq(max, i => 0), seq(max, i => default), map[], 0)
  }

  // ---- Steps ----

  function Move(s: State, t: TaskId, ph: Phase): State { s.(tasks := s.tasks[t := ph]) }

  function CloseConn(s: State, c: Conn): State
    requires c < |s.closes|
  {
    s.(closes := s.closes[c := s.closes[c] + 1])
  }

  /** What a task does once reconnect returns: a Query borrows again, a CreateRecord gives up. */
  function AfterReconnect(job: Job): Phase {
    if job.api == Query then Borrowing(job, true) else Finished
  }

  /** Connections named anywhere exist. */
  predicate Sound(s: State) {
    && |s.selected| == |s.closes|
    && (forall i :: 0 <= i < |s.idle| ==> s.idle[i] < |s.closes|)
    && (forall t :: t in s.tasks && s.tasks[t].Holding() ==> s.tasks[t].conn < |s.closes|)
  }

  function Apply(s: State, a: Action): State
    requires Enabled(s, a) && Sound(s)
  {
    match a
    case Begin(t, job) => Move(s, t, Borrowing(job, false))
    case Borrow(t) =>
      var ph := s.tasks[t];
      Move(s.(idle := s.idle[1..]), t, Switching(ph.job, ph.retry, s.idle[0]))
    case Cancel(t) => Move(s, t, Finished)
    case Use(t, ok, left) =>
      var ph := s.tasks[t];
      var s' := s.(selected := s.selected[ph.conn := if ok then ph.job.target else left]);
      Move(s', t, if ok then Executing(ph.job, ph.retry, ph.conn) else Returning(ph.conn))
    case Execute(t, dead) =>
      var ph := s.tasks[t];
      Move(s, t, if dead && !ph.retry then Discarding(ph.job, ph.conn) else Returning(ph.conn))
    case Discard(t) =>
      var ph := s.tasks[t];
      Move(CloseConn(s, ph.conn), t, Rebuilding(ph.job))
    case Rebuild(t, made, default) =>
      var ph := s.tasks[t];
      var c := |s.closes|;
      (match made
       case Fresh =>
         Move(s.(closes := s.closes + [0], selected := s.selected + [default]), t, Offering(ph.job, c))
       case NoDial => Move(s.(lost := s.lost + 1), t, AfterReconnect(ph.job))
       case NoSetup =>
         Move(s.(closes := s.closes + [1], selected := s.selected + [default], lost := s.lost + 1), t,
              AfterReconnect(ph.job)))
    case Offer(t) =>
      var ph := s.tasks[t];
      if s.sealed then Move(s, t, Panicked(ph.conn))
      else Move(s.(idle := s.idle + [ph.conn]), t, AfterReconnect(ph.job))
    case Check(t) =>
      var c := s.tasks[t].conn;
      if s.closed then Move(CloseConn(s, c), t, Finished) else Move(s, t, Sending(c))
    case Send(t) =>
      var c := s.tasks[t].conn;
      if s.sealed then Move(s, t, Panicked(c)) else Move(s.(idle := s.idle + [c]), t, Finished)
    case CloseFlag => s.(closed := true)
    case Drain => CloseConn(s.(idle := s.idle[1..]), s.idle[0])
    case FindEmpty => s.(drained := true)
    case Seal => s.(sealed := true)
  }

  /** A step of a task, not of Close. */
  predicate ByTask(a: Action) { !(a.CloseFlag? || a.Drain? || a.FindEmpty? || a.Seal?) }

  // ---- Invariant ----

  /** Connection c is in the channel. */
  ghost predicate Idle(s: State, c: Conn) { exists i :: 0 <= i < |s.idle| && s.idle[i] == c }

  predicate Held(s: State, t: TaskId, c: Conn) {
    t in s.tasks && s.tasks[t].Holding() && s.tasks[t].conn == c
  }

  ghost predicate Owned(s: State, c: Conn) { exists t :: Held(s, t, c) }

  /** Every connection is in at most one place. */
  ghost predicate Exclusive(s: State) {
    && (forall i, j :: 0 <= i < j < |s.idle| ==> s.idle[i] != s.idle[j])
    && (forall t, i :: t in s.tasks && s.tasks[t].Holding() && 0 <= i < |s.idle| ==> s.idle[i] != s.tasks[t].conn)
    && (forall t, u :: t in s.tasks && u in s.tasks && t != u && s.tasks[t].Holding() && s.tasks[u].Holding()
          ==> s.tasks[t].conn != s.tasks[u].conn)
  }

  /** No connection is closed twice, and exactly the closed ones are in no place. */
  ghost predicate Accounted(s: State) {
    forall c :: 0 <= c < |s.closes| ==>
      s.closes[c] <= 1 && (s.closes[c] == 0 <==> Idle(s, c) || Owned(s, c))
  }

  /** A task about to execute has its connection switched to its own target. */
  ghost predicate Selected(s: State) {
    forall t :: t in s.tasks && s.tasks[t].Executing? && s.tasks[t].conn < |s.selected|
      ==> s.selected[s.tasks[t].conn] == s.tasks[t].job.target
  }

  ghost predicate Inv(s: State) {
    Sound(s) && Exclusive(s) && Accounted(s) && Selected(s)
  }

  lemma SoundStep(s: State, a: Action)
    requires Inv(s) && Enabled(s, a)
    ensures Sound(Apply(s, a))
  {
    hide Exclusive, Accounted, Selected;
  }

  lemma IdleExclusiveStep(s: State, a: Action)
    requires Inv(s) && Enabled(s, a)
    ensures var s' := Apply(s, a);
            forall i, j :: 0 <= i < j < |s'.idle| ==> s'.idle[i] != s'.idle[j]
  {
    hide Accounted, Selected;
  }

  // A task holds what it held before, or what it just took from the channel or dialled.
  lemma HoldsFrom(s: State, a: Action, t: TaskId)
    requires Sound(s) && Enabled(s, a)
    requires t in Apply(s, a).tasks && Apply(s, a).tasks[t].Holding()
    ensures var c := Apply(s, a).tasks[t].conn;
            || Held(s, t, c)
            || (a == Borrow(t) && s.idle != [] && c == s.idle[0])
            || (a.Rebuild? && a.t == t && c == |s.closes|)
  {
    hide Sound;
  }

  lemma HeldExclusiveStep(s: State, a: Action, t: TaskId, u: TaskId)
    requires Inv(s) && Enabled(s, a) && t != u
    requires var s' := Apply(s, a);
             t in s'.tasks && u in s'.tasks && s'.tasks[t].Holding() && s'.tasks[u].Holding()
    ensures Apply(s, a).tasks[t].conn != Apply(s, a).tasks[u].conn
  {
    hide Accounted, Selected, Apply, Enabled;
    HoldsFrom(s, a, t);
    HoldsFrom(s, a, u);
  }

  lemma IdleFrom(s: State, a: Action, i: nat)
    requires Sound(s) && Enabled(s, a) && i < |Apply(s, a).idle|
    ensures var e := Apply(s, a);
            || (i < |s.idle| && e.idle[i] == s.idle[i] && !a.Borrow?)
            || (i + 1 < |s.idle| && e.idle[i] == s.idle[i + 1] && (a.Borrow? || a.Drain?))
            || (ByTask(a) && !a.Borrow? && Held(s, a.t, e.idle[i]) && !Held(e, a.t, e.idle[i]))
  {
    hide Sound;
  }

  lemma IdleNotHeldStep(s: State, a: Action)
    requires Inv(s) && Enabled(s, a)
    ensures var s' := Apply(s, a);
            forall t, i :: t in s'.tasks && s'.tasks[t].Holding() && 0 <= i < |s'.idle| ==> s'.idle[i] != s'.tasks[t].conn
  {
    hide Accounted, Selected, Apply, Enabled;
    var s' := Apply(s, a);
    forall t, i | t in s'.tasks && s'.tasks[t].Holding() && 0 <= i < |s'.idle|
      ensures s'.idle[i] != s'.tasks[t].conn
    {
      HoldsFrom(s, a, t);
      IdleFrom(s, a, i);
    }
  }

  lemma SelectedStep(s: State, a: Action)
    requires Inv(s) && Enabled(s, a)
    ensures Selected(Apply(s, a))
  {
    hide Accounted;
  }

  // A connection in the channel stays there, is taken by the actor, or is drained.
  lemma IdleStays(s: State, a: Action, i: nat)
    requires Sound(s) && Enabled(s, a) && i < |s.idle| && s.idle[i] < |Apply(s, a).closes|
    requires Apply(s, a).closes[s.idle[i]] == 0
    ensures Idle(Apply(s, a), s.idle[i]) || Owned(Apply(s, a), s.idle[i])
  {
    var s', c := Apply(s, a), s.idle[i];
    if a.Borrow? || a.Drain? {
      if i > 0 {
        assert s'.idle[i - 1] == c;
      } else {
        assert a.Borrow? && Held(s', a.t, c);
      }
    } else {
      assert s'.idle[i] == c;
    }
  }

  // A held connection stays with its task, goes to the channel, or is closed.
  lemma HeldStays(s: State, a: Action, u: TaskId, c: Conn)
    requires Sound(s) && Enabled(s, a) && Held(s, u, c) && c < |Apply(s, a).closes|
    requires Apply(s, a).closes[c] == 0
    ensures Idle(Apply(s, a), c) || Owned(Apply(s, a), c)
  {
    var s' := Apply(s, a);
    if !Held(s', u, c) {
      assert s'.idle[|s.idle|] == c;
    }
  }

  // A connection still open after the step is in the channel or owned.
  lemma OpenFrom(s: State, a: Action, c: Conn)
    requires Sound(s) && Enabled(s, a) && c < |Apply(s, a).closes| && Apply(s, a).closes[c] == 0
    ensures c <= |s.closes|
    ensures if c == |s.closes| then ByTask(a) && Held(Apply(s, a), a.t, c) else s.closes[c] == 0
  {
  }

  lemma OpenIsPlaced(s: State, a: Action, c: Conn)
    requires Inv(s) && Enabled(s, a) && c < |Apply(s, a).closes|
    requires Apply(s, a).closes[c] == 0
    ensures Idle(Apply(s, a), c) || Owned(Apply(s, a), c)
  {
    hide Selected, Exclusive, Apply, Enabled, Held;
    OpenFrom(s, a, c);
    if c < |s.closes| {
      if Idle(s, c) {
        var i :| 0 <= i < |s.idle| && s.idle[i] == c;
        IdleStays(s, a, i);
      } else {
        var u :| Held(s, u, c);
        HeldStays(s, a, u, c);
      }
    }
  }

  lemma ClosedOnce(s: State, a: Action, c: Conn)
    requires Inv(s) && Enabled(s, a) && c < |Apply(s, a).closes|
    ensures Apply(s, a).closes[c] <= 1
  {
    hide Selected, Exclusive;
    if a.Discard? || a.Check? {
      assert Held(s, a.t, s.tasks[a.t].conn);
    } else if a.Drain? {
      assert Idle(s, s.idle[0]);
    }
  }

  lemma IdleIsOpen(s: State, a: Action, i: nat)
    requires Inv(s) && Enabled(s, a) && i < |Apply(s, a).idle|
    ensures Sound(Apply(s, a)) && Apply(s, a).closes[Apply(s, a).idle[i]] == 0
  {
    hide Selected;
    SoundStep(s, a);
    if a.Borrow? || a.Drain? {
      assert Idle(s, s.idle[i + 1]) && s.idle[0] != s.idle[i + 1];
    } else if i < |s.idle| {
      assert Idle(s, s.idle[i]);
    } else {
      assert Held(s, a.t, s.tasks[a.t].conn);
    }
  }

  lemma StaysOpen(s: State, a: Action, c: Conn)
    requires Sound(s) && Enabled(s, a) && c < |s.closes| && s.closes[c] == 0
    ensures var e := Apply(s, a);
            && c < |e.closes|
            && (|| e.closes[c] == 0
                || (a.Drain? && s.idle != [] && s.idle[0] == c)
                || (ByTask(a) && Held(s, a.t, c) && !Held(e, a.t, c)))
  {
  }

  lemma NewIsOpen(s: State, a: Action)
    requires Sound(s) && Enabled(s, a) && a.Rebuild?
    ensures var e := Apply(s, a);
            a.t in e.tasks && e.tasks[a.t].Holding() ==> |e.closes| == |s.closes| + 1 && e.closes[|s.closes|] == 0
  {
    hide Sound;
  }

  lemma HeldIsOpen(s: State, a: Action, u: TaskId)
    requires Inv(s) && Enabled(s, a) && u in Apply(s, a).tasks && Apply(s, a).tasks[u].Holding()
    ensures Sound(Apply(s, a)) && Apply(s, a).closes[Apply(s, a).tasks[u].conn] == 0
  {
    hide Selected, Apply, Enabled;
    SoundStep(s, a);
    HoldsFrom(s, a, u);
    var c := Apply(s, a).tasks[u].conn;
    if Held(s, u, c) {
      assert Owned(s, c) && (s.idle != [] ==> s.idle[0] != c);
      StaysOpen(s, a, c);
    } else if a.Borrow? {
      assert Idle(s, c);
      StaysOpen(s, a, c);
    } else {
      NewIsOpen(s, a);
    }
  }

  lemma OpenIffPlaced(s: State, a: Action, c: Conn)
    requires Inv(s) && Enabled(s, a) && c < |Apply(s, a).closes|
    ensures var s' := Apply(s, a);
            s'.closes[c] == 0 <==> Idle(s', c) || Owned(s', c)
  {
    var s' := Apply(s, a);
    hide Inv, Enabled, Apply;
    if s'.closes[c] == 0 {
      OpenIsPlaced(s, a, c);
    } else if Idle(s', c) {
      var i :| 0 <= i < |s'.idle| && s'.idle[i] == c;
      IdleIsOpen(s, a, i);
    } else if Owned(s', c) {
      var u :| Held(s', u, c);
      HeldIsOpen(s, a, u);
    }
  }

  /** Every enabled action keeps the invariant. */
  lemma InvStep(s: State, a: Action)
    requires Inv(s) && Enabled(s, a)
    ensures Inv(Apply(s, a))
  {
    var s' := Apply(s, a);
    SoundStep(s, a);
    hide Enabled, Apply, Idle, Owned, Sound, Selected;
    IdleExclusiveStep(s, a);
    IdleNotHeldStep(s, a);
    SelectedStep(s, a);
    forall t, u | t in s'.tasks && u in s'.tasks && t != u && s'.tasks[t].Holding() && s'.tasks[u].Holding()
      ensures s'.tasks[t].conn != s'.tasks[u].conn
    {
      HeldExclusiveStep(s, a, t, u);
    }
    forall c | 0 <= c < |s'.closes|
      ensures s'.closes[c] <= 1 && (s'.closes[c] == 0 <==> Idle(s', c) || Owned(s', c))
    {
      ClosedOnce(s, a, c);
      OpenIffPlaced(s, a, c);
    }
  }

  // ---- Conservation ----

  function Holders(tasks: map<TaskId, Phase>): set<TaskId> {
    set t | t in tasks && tasks[t].Holding()
  }

  function Rebuilders(tasks: map<TaskId, Phase>): set<TaskId> {
    set t | t in tasks && tasks[t].Rebuilding?
  }

  lemma MoveCounts(tasks: map<TaskId, Phase>, t: TaskId, ph: Phase)
    ensures |Holders(tasks[t := ph])|
            == |Holders(tasks)| - (if t in tasks && tasks[t].Holding() then 1 else 0) + (if ph.Holding() then 1 else 0)
    ensures |Rebuilders(tasks[t := ph])|
            == |Rebuilders(tasks)| - (if t in tasks && tasks[t].Rebuilding? then 1 else 0) + (if ph.Rebuilding? then 1 else 0)
  {
    CountsAtOne(Holders(tasks), Holders(tasks[t := ph]), t);
    CountsAtOne(Rebuilders(tasks), Rebuilders(tasks[t := ph]), t);
  }

  /** Slots in use: in the channel, with a task, being rebuilt, or given up. */
  function Slots(s: State): nat {
    |s.idle| + |Holders(s.tasks)| + |Rebuilders(s.tasks)| + s.lost
  }

  /** Every slot is accounted for until Close, and there are never more. */
  predicate Conserved(s: State) {
    && Slots(s) <= s.max
    && (!s.closed ==> Slots(s) == s.max)
    && (s.sealed ==> s.drained)
    && (s.drained ==> s.closed)
    && (forall t :: t in s.tasks && s.tasks[t].Panicked? ==> s.sealed)
  }

  function Slot(ph: Phase): nat { if ph.Holding() || ph.Rebuilding? then 1 else 0 }

  lemma LocalSlots(s: State, a: Action)
    requires Sound(s) && Enabled(s, a) && ByTask(a)
    ensures var e := Apply(s, a);
            && a.t in e.tasks && e.tasks == s.tasks[a.t := e.tasks[a.t]]
            && var before := |s.idle| + s.lost + (if a.t in s.tasks then Slot(s.tasks[a.t]) else 0);
               var after := |e.idle| + e.lost + Slot(e.tasks[a.t]);
               after <= before && (!s.closed ==> after == before)
  {
    hide Sound;
  }

  lemma SlotsStep(s: State, a: Action)
    requires Sound(s) && Enabled(s, a)
    ensures Slots(Apply(s, a)) <= Slots(s) && (!s.closed ==> Slots(Apply(s, a)) == Slots(s))
  {
    hide Sound;
    if ByTask(a) {
      LocalSlots(s, a);
      MoveCounts(s.tasks, a.t, Apply(s, a).tasks[a.t]);
      hide Holders, Rebuilders, Apply, Enabled;
    }
  }

  lemma ConservedStep(s: State, a: Action)
    requires Inv(s) && Conserved(s) && Enabled(s, a)
    ensures Conserved(Apply(s, a)) && Apply(s, a).max == s.max
    ensures Apply(s, a).lost == s.lost + (if a.Rebuild? && a.made != Fresh then 1 else 0)
  {
    SlotsStep(s, a);
    hide Exclusive, Accounted, Selected, Slots;
  }

  // ---- Runs ----

  ghost predicate Good(s: State) { Inv(s) && Conserved(s) }

  ghost function Next(s: State, a: Action): (s': State)
    requires Good(s)
    ensures Good(s') && s'.max == s.max
  {
    if Enabled(s, a) then
      InvStep(s, a);
      ConservedStep(s, a);
      Apply(s, a)
    else s
  }

  /** The state that the first n actions lead to from s. */
  ghost function Steps(s: State, acts: seq<Action>, n: nat): (s': State)
    requires Good(s) && n <= |acts|
    ensures Good(s') && s'.max == s.max
  {
    if n == 0 then s else Next(Steps(s, acts, n - 1), acts[n - 1])
  }

  lemma InitialIsGood(max: nat, default: Target)
    ensures Good(Initial(max, default))
  {
    var s := Initial(max, default);
    forall c | 0 <= c < |s.closes| ensures Idle(s, c) {
      assert s.idle[c] == c;
    }
  }

  /** The state after the first n actions of a run of a new pool. */
  ghost function After(max: nat, default: Target, acts: seq<Action>, n: nat): (s: State)
    requires n <= |acts|
    ensures Good(s) && s.max == max
  {
    InitialIsGood(max, default);
    Steps(Initial(max, default), acts, n)
  }

  lemma AfterNone(max: nat, default: Target, acts: seq<Action>)
    ensures After(max, default, acts, 0) == Initial(max, default)
  {
  }

  lemma AfterOneMore(max: nat, default: Target, acts: seq<Action>, n: nat)
    requires 0 < n <= |acts|
    ensures var s, s' := After(max, default, acts, n - 1), After(max, default, acts, n);
            && Sound(s)
            && s' == (if Enabled(s, acts[n - 1]) then Apply(s, acts[n - 1]) else s)
  {
  }

  /** Action i of the run takes place. */
  ghost predicate Happens(max: nat, default: Target, acts: seq<Action>, i: nat)
    requires i < |acts|
  {
    Enabled(After(max, default, acts, i), acts[i])
  }

  // ---- Namespace selection ----

  predicate HasJob(ph: Phase) {
    ph.Borrowing? || ph.Switching? || ph.Executing? || ph.Discarding? || ph.Rebuilding? || ph.Offering?
  }

  lemma JobKept(s: State, a: Action, t: TaskId)
    requires Sound(s) && Enabled(s, a)
    requires t in Apply(s, a).tasks && HasJob(Apply(s, a).tasks[t])
    ensures a == Begin(t, Apply(s, a).tasks[t].job)
            || (t in s.tasks && HasJob(s.tasks[t]) && s.tasks[t].job == Apply(s, a).tasks[t].job)
  {
    hide Sound;
  }

  lemma {:induction false} JobIsAsked(max: nat, default: Target, acts: seq<Action>, n: nat, t: TaskId)
    requires n <= |acts|
    requires t in After(max, default, acts, n).tasks && HasJob(After(max, default, acts, n).tasks[t])
    ensures exists j :: 0 <= j < n && Happens(max, default, acts, j)
                        && acts[j] == Begin(t, After(max, default, acts, n).tasks[t].job)
  {
    hide Good, After, Apply, Enabled, Sound;
    AfterNone(max, default, acts);
    if n == 0 {
    } else {
      AfterOneMore(max, default, acts, n);
      var s, a := After(max, default, acts, n - 1), acts[n - 1];
      if Enabled(s, a) {
        JobKept(s, a, t);
        assert Happens(max, default, acts, n - 1);
        if a != Begin(t, Apply(s, a).tasks[t].job) {
          JobIsAsked(max, default, acts, n - 1, t);
        }
      } else {
        JobIsAsked(max, default, acts, n - 1, t);
      }
    }
  }

  /**
   Under every interleaving, each statement that executes, first try or retry, does so on an open
   connection that its task alone owns and that is switched to the target the task asked for.
   */
  lemma NamespaceSelection(max: nat, default: Target, acts: seq<Action>, i: nat)
    requires i < |acts| && acts[i].Execute? && Happens(max, default, acts, i)
    ensures var s := After(max, default, acts, i);
            var t, ph := acts[i].t, s.tasks[acts[i].t];
            && ph.conn < |s.closes| == |s.selected|
            && s.selected[ph.conn] == ph.job.target
            && s.closes[ph.conn] == 0
            && !Idle(s, ph.conn)
            && (forall u :: Held(s, u, ph.conn) <==> u == t)
            && exists j :: 0 <= j < i && Happens(max, default, acts, j) && acts[j] == Begin(t, ph.job)
  {
    var s := After(max, default, acts, i);
    JobIsAsked(max, default, acts, i, acts[i].t);
    assert Owned(s, s.tasks[acts[i].t].conn) by { assert Held(s, acts[i].t, s.tasks[acts[i].t].conn); }
  }

  // ---- Who retries ----

  /** What the task was begun with. */
  ghost function Asked(max: nat, default: Target, acts: seq<Action>, n: nat, t: TaskId): Option<Job>
    requires n <= |acts|
  {
    if n == 0 then None
    else if acts[n - 1].Begin? && acts[n - 1].t == t && Happens(max, default, acts, n - 1) then Some(acts[n - 1].job)
    else Asked(max, default, acts, n - 1, t)
  }

  /** Every step of a task after its Begin lowers its rank, and touches no other task. */
  lemma RankFalls(s: State, a: Action)
    requires Sound(s) && Enabled(s, a)
    ensures ByTask(a) ==>
              a.t in Apply(s, a).tasks
              && Apply(s, a).tasks[a.t].Rank() < (if a.t in s.tasks then s.tasks[a.t].Rank() else 12)
    ensures forall u :: (ByTask(a) ==> u != a.t) ==>
              (u in Apply(s, a).tasks <==> u in s.tasks) && (u in s.tasks ==> Apply(s, a).tasks[u] == s.tasks[u])
  {
    hide Sound;
  }

  lemma BeginsOnce(s: State, a: Action)
    requires Enabled(s, a)
    ensures ByTask(a) ==> (a.Begin? <==> a.t !in s.tasks)
  {
  }

  lemma {:induction false} JobsAreAsked(max: nat, default: Target, acts: seq<Action>, n: nat, t: TaskId)
    requires n <= |acts|
    ensures var s, asked := After(max, default, acts, n), Asked(max, default, acts, n, t);
            && (t in s.tasks <==> asked.Some?)
            && (t in s.tasks && HasJob(s.tasks[t]) ==> asked == Some(s.tasks[t].job))
  {
    hide Good, After, Apply, Enabled, Sound;
    AfterNone(max, default, acts);
    if n == 0 {
    } else {
      AfterOneMore(max, default, acts, n);
      JobsAreAsked(max, default, acts, n - 1, t);
      var s, a := After(max, default, acts, n - 1), acts[n - 1];
      if Enabled(s, a) {
        RankFalls(s, a);
        BeginsOnce(s, a);
        if t in Apply(s, a).tasks && HasJob(Apply(s, a).tasks[t]) {
          JobKept(s, a, t);
        }
      }
    }
  }

  function Tries(api: Api): (n: nat)
    ensures n >= 1
  {
    match api
    case Query => 2
    case CreateRecord => 1
  }

  /** The statements a task may still execute: a Query has a second try after its connection died, a CreateRecord has not. */
  function TriesLeft(ph: Phase): nat {
    match ph
    case Borrowing(job, retry) => if retry then 1 else Tries(job.api)
    case Switching(job, retry, _) => if retry then 1 else Tries(job.api)
    case Executing(job, retry, _) => if retry then 1 else Tries(job.api)
    case Discarding(job, _) => Tries(job.api) - 1
    case Rebuilding(job) => Tries(job.api) - 1
    case Offering(job, _) => Tries(job.api) - 1
    case _ => 0
  }

  lemma OwnTries(s: State, a: Action)
    requires Sound(s) && Enabled(s, a) && ByTask(a)
    ensures a.t in Apply(s, a).tasks
    ensures TriesLeft(Apply(s, a).tasks[a.t]) + (if a.Execute? then 1 else 0)
              <= if a.Begin? then Tries(a.job.api) else TriesLeft(s.tasks[a.t])
  {
    hide Sound;
  }

  lemma TriesStep(s: State, a: Action, t: TaskId)
    requires Sound(s) && Enabled(s, a) && t in Apply(s, a).tasks
    ensures var left := TriesLeft(Apply(s, a).tasks[t]) + (if a == Execute(t, true) || a == Execute(t, false) then 1 else 0);
            left <= if t in s.tasks then TriesLeft(s.tasks[t])
                    else if a.Begin? && a.t == t then Tries(a.job.api) else 0
  {
    hide Sound, Apply, TriesLeft;
    RankFalls(s, a);
    BeginsOnce(s, a);
    if ByTask(a) {
      OwnTries(s, a);
    }
    hide Enabled;
  }

  /** How many statements task t executed among the first n actions. */
  ghost function Executions(max: nat, default: Target, acts: seq<Action>, n: nat, t: TaskId): nat
    requires n <= |acts|
  {
    if n == 0 then 0
    else
      Executions(max, default, acts, n - 1, t)
      + (if acts[n - 1].Execute? && acts[n - 1].t == t && Happens(max, default, acts, n - 1) then 1 else 0)
  }

  lemma {:induction false} ExecutionsAndTries(max: nat, default: Target, acts: seq<Action>, n: nat, t: TaskId)
    requires n <= |acts|
    ensures var s, asked := After(max, default, acts, n), Asked(max, default, acts, n, t);
            Executions(max, default, acts, n, t) + (if t in s.tasks then TriesLeft(s.tasks[t]) else 0)
              <= if asked.Some? then Tries(asked.value.api) else 0
  {
    hide Good, After, Apply, Enabled, Sound, TriesLeft;
    AfterNone(max, default, acts);
    if n == 0 {
    } else {
      AfterOneMore(max, default, acts, n);
      ExecutionsAndTries(max, default, acts, n - 1, t);
      JobsAreAsked(max, default, acts, n - 1, t);
      JobsAreAsked(max, default, acts, n, t);
      var s, a := After(max, default, acts, n - 1), acts[n - 1];
      if Enabled(s, a) {
        RankFalls(s, a);
        BeginsOnce(s, a);
        if t in Apply(s, a).tasks {
          TriesStep(s, a, t);
        }
      }
    }
  }

  /** In any run a CreateRecord executes its statement at most once, and a Query at most twice. */
  lemma ExecutesAtMost(max: nat, default: Target, acts: seq<Action>, t: TaskId)
    ensures var asked := Asked(max, default, acts, |acts|, t);
            Executions(max, default, acts, |acts|, t)
              <= if asked.None? then 0 else if asked.value.api == CreateRecord then 1 else 2
  {
    ExecutionsAndTries(max, default, acts, |acts|, t);
  }

  /** Action j executes the task's first try and finds connection c dead. */
  ghost predicate FirstTryDies(max: nat, default: Target, acts: seq<Action>, j: nat, t: TaskId, c: Conn)
    requires j < |acts|
  {
    && acts[j] == Execute(t, true) && Happens(max, default, acts, j)
    && var ph := After(max, default, acts, j).tasks[t];
       ph.Executing? && !ph.retry && ph.conn == c
  }

  /** Action k, after j, closes that connection. */
  ghost predicate Discarded(max: nat, default: Target, acts: seq<Action>, k: nat, t: TaskId, c: Conn)
    requires k < |acts|
  {
    && acts[k] == Action.Discard(t) && Happens(max, default, acts, k)
    && After(max, default, acts, k).tasks[t].conn == c
    && c < |After(max, default, acts, k + 1).closes| && After(max, default, acts, k + 1).closes[c] == 1
  }

  /** The task is past the loss of its first connection. */
  predicate IsPastLoss(ph: Phase) {
    ph.Rebuilding? || ph.Offering? || ((ph.Borrowing? || ph.Switching? || ph.Executing?) && ph.retry)
  }

  lemma LossStep(s: State, a: Action, t: TaskId)
    requires Sound(s) && Enabled(s, a) && t in Apply(s, a).tasks
    ensures var ph := Apply(s, a).tasks[t];
            && (ph.Discarding? ==>
                  || (t in s.tasks && s.tasks[t] == ph)
                  || (t in s.tasks && a == Execute(t, true) && s.tasks[t] == Executing(ph.job, false, ph.conn)))
            && (IsPastLoss(ph) ==>
                  || (t in s.tasks && IsPastLoss(s.tasks[t]))
                  || (t in s.tasks && a == Action.Discard(t) && s.tasks[t].Discarding? && s.tasks[t].conn < |s.closes|
                      && Apply(s, a).closes == s.closes[s.tasks[t].conn := s.closes[s.tasks[t].conn] + 1]))
  {
  }

  lemma {:induction false} DeathIsSeen(max: nat, default: Target, acts: seq<Action>, n: nat, t: TaskId)
    requires n <= |acts|
    requires t in After(max, default, acts, n).tasks && After(max, default, acts, n).tasks[t].Discarding?
    ensures exists j: nat :: j < n && FirstTryDies(max, default, acts, j, t, After(max, default, acts, n).tasks[t].conn)
  {
    hide Good, After, Apply, Enabled, Sound;
    AfterNone(max, default, acts);
    if n == 0 {
    } else {
      AfterOneMore(max, default, acts, n);
      var m := n - 1;
      var s, a := After(max, default, acts, m), acts[m];
      if Enabled(s, a) {
        LossStep(s, a, t);
        if !(t in s.tasks && s.tasks[t] == Apply(s, a).tasks[t]) {
          assert FirstTryDies(max, default, acts, m, t, Apply(s, a).tasks[t].conn);
        } else {
          DeathIsSeen(max, default, acts, m, t);
        }
      } else {
        DeathIsSeen(max, default, acts, m, t);
      }
    }
  }

  lemma DiscardCloses(s: State, a: Action, t: TaskId)
    requires Good(s) && Enabled(s, a) && a == Action.Discard(t)
    ensures var c := s.tasks[t].conn;
            c < |s.closes| == |Apply(s, a).closes| && Apply(s, a).closes[c] == 1
  {
    assert Held(s, t, s.tasks[t].conn);
    assert Owned(s, s.tasks[t].conn);
    hide Exclusive, Selected, Conserved;
  }

  lemma {:induction false} LossIsSeen(max: nat, default: Target, acts: seq<Action>, n: nat, t: TaskId)
    requires n <= |acts|
    requires t in After(max, default, acts, n).tasks && IsPastLoss(After(max, default, acts, n).tasks[t])
    ensures exists j: nat, k: nat, c: Conn ::
              j < k < n && FirstTryDies(max, default, acts, j, t, c) && Discarded(max, default, acts, k, t, c)
  {
    hide After, Apply, Enabled, Sound, Inv, Conserved, FirstTryDies, IsPastLoss;
    AfterNone(max, default, acts);
    if n == 0 {
    } else {
      AfterOneMore(max, default, acts, n);
      var m := n - 1;
      var s, a := After(max, default, acts, m), acts[m];
      if Enabled(s, a) {
        LossStep(s, a, t);
        if !(t in s.tasks && IsPastLoss(s.tasks[t])) {
          DiscardCloses(s, a, t);
          DeathIsSeen(max, default, acts, m, t);
          var j: nat :| j < m && FirstTryDies(max, default, acts, j, t, s.tasks[t].conn);
          assert Discarded(max, default, acts, m, t, s.tasks[t].conn);
        } else {
          LossIsSeen(max, default, acts, m, t);
        }
      } else {
        LossIsSeen(max, default, acts, m, t);
      }
    }
  }

  lemma {:induction false} ExecutionsGrow(max: nat, default: Target, acts: seq<Action>, j: nat, n: nat, t: TaskId)
    requires j <= n <= |acts|
    ensures Executions(max, default, acts, j, t) <= Executions(max, default, acts, n, t)
  {
    hide Happens;
    if n == j {
    } else {
      ExecutionsGrow(max, default, acts, j, n - 1, t);
    }
  }

  lemma RetryIsSecond(max: nat, default: Target, acts: seq<Action>, i: nat, j: nat, t: TaskId, c: Conn)
    requires j < i < |acts| && FirstTryDies(max, default, acts, j, t, c)
    requires acts[i].Execute? && acts[i].t == t && Happens(max, default, acts, i)
    ensures Asked(max, default, acts, i, t).Some? && Asked(max, default, acts, i, t).value.api == Query
  {
    hide Good, After, Enabled, Sound, TriesLeft;
    ExecutionsAndTries(max, default, acts, i + 1, t);
    ExecutionsGrow(max, default, acts, j + 1, i, t);
    assert Executions(max, default, acts, j + 1, t) >= 1;
    assert Executions(max, default, acts, i + 1, t) >= 2;
    assert Asked(max, default, acts, i + 1, t) == Asked(max, default, acts, i, t);
  }

  /**
   Only a Query retries: a statement executed on a retry belongs to a Query whose first try found its
   connection dead and which then closed that connection.
   */
  lemma RetriesAreQueries(max: nat, default: Target, acts: seq<Action>, i: nat)
    requires i < |acts| && acts[i].Execute? && Happens(max, default, acts, i)
    requires After(max, default, acts, i).tasks[acts[i].t].retry
    ensures var t := acts[i].t;
            && Asked(max, default, acts, i, t).Some? && Asked(max, default, acts, i, t).value.api == Query
            && exists j: nat, k: nat, c: Conn ::
                 j < k < i && FirstTryDies(max, default, acts, j, t, c) && Discarded(max, default, acts, k, t, c)
  {
    var t := acts[i].t;
    LossIsSeen(max, default, acts, i, t);
    JobsAreAsked(max, default, acts, i, t);
    var j: nat, k: nat, c: Conn :|
      j < k < i && FirstTryDies(max, default, acts, j, t, c) && Discarded(max, default, acts, k, t, c);
    hide After, Good, Asked, FirstTryDies, Discarded;
    RetryIsSecond(max, default, acts, i, j, t, c);
  }

  /** Action j brings the task out of reconnect, with or without a new connection. */
  ghost predicate Reconnected(max: nat, default: Target, acts: seq<Action>, j: nat, t: TaskId)
    requires j < |acts|
  {
    && Happens(max, default, acts, j)
    && ((acts[j] == Offer(t) && !After(max, default, acts, j).sealed)
        || (acts[j].Rebuild? && acts[j].t == t && acts[j].made != Fresh))
  }

  lemma ReconnectedIs(max: nat, default: Target, acts: seq<Action>, j: nat, t: TaskId)
    requires j < |acts| && Reconnected(max, default, acts, j, t)
    ensures var s, a := After(max, default, acts, j), acts[j];
            && Enabled(s, a) && ByTask(a) && a.t == t
            && ((a.Offer? && !s.sealed) || (a.Rebuild? && a.made != Fresh))
  {
    hide After;
  }

  lemma ReconnectStep(s: State, a: Action)
    requires Sound(s) && Enabled(s, a) && ((a.Offer? && !s.sealed) || (a.Rebuild? && a.made != Fresh))
    ensures a.t in s.tasks && HasJob(s.tasks[a.t]) && a.t in Apply(s, a).tasks
    ensures Apply(s, a).tasks[a.t] == if s.tasks[a.t].job.api == Query then Borrowing(s.tasks[a.t].job, true) else Finished
  {
  }

  /**
   Out of reconnect, whether it succeeded or failed, a Query stands in line for its second try until it
   takes a connection or is cancelled; a CreateRecord is done.
   */
  lemma {:induction false} AfterReconnectWaits(max: nat, default: Target, acts: seq<Action>, j: nat, n: nat, t: TaskId)
    requires j < n <= |acts| && Reconnected(max, default, acts, j, t)
    requires forall k :: j < k < n && ByTask(acts[k]) && acts[k].t == t ==> !Happens(max, default, acts, k)
    ensures var s, asked := After(max, default, acts, n), Asked(max, default, acts, j, t);
            && asked.Some? && t in s.tasks
            && s.tasks[t] == if asked.value.api == Query then Borrowing(asked.value, true) else Finished
  {
    hide Good, After, Apply, Enabled, Sound, Reconnected;
    AfterOneMore(max, default, acts, n);
    var s, a := After(max, default, acts, n - 1), acts[n - 1];
    if n == j + 1 {
      JobsAreAsked(max, default, acts, j, t);
      ReconnectedIs(max, default, acts, j, t);
      ReconnectStep(s, a);
    } else {
      AfterReconnectWaits(max, default, acts, j, n - 1, t);
      if Enabled(s, a) {
        assert Happens(max, default, acts, n - 1);
        RankFalls(s, a);
      }
    }
  }

  // ---- Conservation over runs ----

  /** How many reconnects failed among the first n actions. */
  ghost function FailedReconnects(max: nat, default: Target, acts: seq<Action>, n: nat): nat
    requires n <= |acts|
  {
    if n == 0 then 0
    else
      FailedReconnects(max, default, acts, n - 1)
      + (if Happens(max, default, acts, n - 1) && acts[n - 1].Rebuild? && acts[n - 1].made != Fresh then 1 else 0)
  }

  /** Until Close, idle + held + rebuilding + lost = max, and one slot is lost per failed reconnect. */
  lemma {:induction false} Conservation(max: nat, default: Target, acts: seq<Action>, n: nat)
    requires n <= |acts|
    ensures var s := After(max, default, acts, n);
            && s.lost == FailedReconnects(max, default, acts, n)
            && (!s.closed ==> |s.idle| + |Holders(s.tasks)| + |Rebuilders(s.tasks)| + s.lost == max)
  {
    hide After, Apply, Enabled, Inv;
    AfterNone(max, default, acts);
    if n == 0 {
    } else {
      AfterOneMore(max, default, acts, n);
      Conservation(max, default, acts, n - 1);
      var s, a := After(max, default, acts, n - 1), acts[n - 1];
      if Enabled(s, a) {
        ConservedStep(s, a);
      }
    }
  }

  /** A send into the channel always finds room, or the channel is already closed: it never blocks. */
  lemma ReturningNeverBlocks(s: State, t: TaskId)
    requires Good(s) && t in s.tasks && (s.tasks[t].Sending? || s.tasks[t].Offering?)
    ensures Enabled(s, if s.tasks[t].Sending? then Send(t) else Offer(t))
    ensures |s.idle| < s.max
  {
    assert t in Holders(s.tasks);
    assert |Holders(s.tasks)| > 0;
  }

  // ---- Progress ----

  /** Some action the task can take by itself. */
  function Own(t: TaskId, ph: Phase): Action {
    match ph
    case Switching(job, _, _) => Use(t, true, job.target)
    case Executing(_, _, _) => Execute(t, false)
    case Discarding(_, _) => Discard(t)
    case Rebuilding(job) => Rebuild(t, Fresh, job.target)
    case Offering(_, _) => Offer(t)
    case Returning(_) => Check(t)
    case Sending(_) => Send(t)
    case _ => Borrow(t)
  }

  lemma SlotHolderCanStep(s: State, t: TaskId)
    requires Good(s) && !s.closed && t in s.tasks && (s.tasks[t].Holding() || s.tasks[t].Rebuilding?)
    ensures Enabled(s, Own(t, s.tasks[t]))
  {
    hide Inv;
    if s.tasks[t].Sending? || s.tasks[t].Offering? {
      ReturningNeverBlocks(s, t);
    }
  }

  /**
   No deadlock: a task waits in borrow holding nothing; when the channel of an open pool is
   empty, every slot that is not lost is with a task that can take a step right now.
   */
  lemma BlockedBorrowersHoldNothing(s: State)
    requires Good(s) && !s.closed && s.idle == []
    ensures |Holders(s.tasks) + Rebuilders(s.tasks)| == s.max - s.lost
    ensures forall t :: t in s.tasks && s.tasks[t].Borrowing?
              ==> t !in Holders(s.tasks) + Rebuilders(s.tasks) && Enabled(s, Cancel(t))
    ensures forall t :: t in Holders(s.tasks) + Rebuilders(s.tasks) ==> Enabled(s, Own(t, s.tasks[t]))
  {
    hide Inv;
    assert Holders(s.tasks) !! Rebuilders(s.tasks);
    forall t | t in Holders(s.tasks) + Rebuilders(s.tasks)
      ensures Enabled(s, Own(t, s.tasks[t]))
    {
      SlotHolderCanStep(s, t);
    }
  }

  /** Task t has a slot that is neither in the channel nor lost. */
  predicate HasSlot(s: State, t: TaskId) { t in s.tasks && (s.tasks[t].Holding() || s.tasks[t].Rebuilding?) }

  /** In an open pool a task gives its slot up only to the channel, or loses it in a failed reconnect. */
  lemma SlotIsFreedOrLost(s: State, a: Action)
    requires Good(s) && !s.closed && Enabled(s, a) && ByTask(a) && HasSlot(s, a.t)
    ensures var e := Apply(s, a);
            || HasSlot(e, a.t)
            || (|e.idle| == |s.idle| + 1 && e.lost == s.lost)
            || (e.idle == s.idle && e.lost == s.lost + 1)
  {
    hide Exclusive, Accounted, Selected;
  }

  lemma OwnApply(s: State, t: TaskId)
    requires Sound(s) && !s.closed && !s.sealed && s.idle == [] && HasSlot(s, t) && !s.tasks[t].Panicked?
    requires Enabled(s, Own(t, s.tasks[t]))
    ensures var e := Apply(s, Own(t, s.tasks[t]));
            && !e.closed
            && (forall u :: u in s.tasks && u != t ==> u in e.tasks && e.tasks[u] == s.tasks[u])
            && (e.idle != [] || (HasSlot(e, t) && e.tasks[t].Rank() < s.tasks[t].Rank()))
  {
    hide Sound;
  }

  lemma OwnStep(s: State, t: TaskId)
    requires Good(s) && !s.closed && s.idle == [] && HasSlot(s, t)
    ensures var e := Next(s, Own(t, s.tasks[t]));
            && !e.closed
            && (forall u :: u in s.tasks && u != t ==> u in e.tasks && e.tasks[u] == s.tasks[u])
            && (e.idle != [] || (HasSlot(e, t) && e.tasks[t].Rank() < s.tasks[t].Rank()))
  {
    hide Exclusive, Accounted, Selected, Sound, Apply, Enabled, Own, Slots;
    SlotHolderCanStep(s, t);
    OwnApply(s, t);
  }

  lemma {:induction false} StepsBehind(s: State, a: Action, acts: seq<Action>, n: nat)
    requires Good(s) && n <= |acts|
    ensures Steps(s, [a] + acts, n + 1) == Steps(Next(s, a), acts, n)
  {
    hide Good, Next;
    if n == 0 {
      assert Steps(s, [a] + acts, 0) == s;
    } else {
      StepsBehind(s, a, acts, n - 1);
    }
  }

  predicate AllBy(acts: seq<Action>, t: TaskId) { forall i :: 0 <= i < |acts| ==> ByTask(acts[i]) && acts[i].t == t }

  lemma NoSteps(s: State)
    requires Good(s)
    ensures Steps(s, [], 0) == s
  {
  }

  lemma {:induction false} SlotReturns(s: State, t: TaskId, b: TaskId) returns (acts: seq<Action>)
    requires Good(s) && !s.closed && s.idle == [] && HasSlot(s, t)
    requires b in s.tasks && s.tasks[b].Borrowing?
    ensures |acts| <= s.tasks[t].Rank() + 1 && AllBy(acts, t) && Enabled(Steps(s, acts, |acts|), Borrow(b))
    decreases s.tasks[t].Rank()
  {
    hide Good, Next, Steps, Apply;
    var a := Own(t, s.tasks[t]);
    OwnStep(s, t);
    var e := Next(s, a);
    assert ByTask(a) && a.t == t && t != b;
    hide Own;
    if e.idle != [] {
      var none: seq<Action> := [];
      acts := [a];
      StepsBehind(s, a, none, 0);
      NoSteps(e);
      assert [a] + none == acts;
    } else {
      var more := SlotReturns(e, t, b);
      acts := [a] + more;
      StepsBehind(s, a, more, |more|);
    }
  }

  /**
   A borrower waiting on an open pool that has not lost every slot is served: within twelve steps of
   one other task, whose connections live, it can take a connection.
   */
  lemma BorrowerIsServed(s: State, b: TaskId)
    requires Good(s) && !s.closed && s.lost < s.max && b in s.tasks && s.tasks[b].Borrowing?
    ensures exists t, acts :: t != b && |acts| <= 12 && AllBy(acts, t) && Enabled(Steps(s, acts, |acts|), Borrow(b))
  {
    hide Inv, Conserved, Steps;
    if s.idle != [] {
      NoSteps(s);
      var none: seq<Action> := [];
      assert AllBy(none, b + 1) && Enabled(Steps(s, none, |none|), Borrow(b));
    } else {
      BlockedBorrowersHoldNothing(s);
      var slots := Holders(s.tasks) + Rebuilders(s.tasks);
      var t :| t in slots;
      var acts := SlotReturns(s, t, b);
      assert s.tasks[t].Rank() <= 11;
      assert AllBy(acts, t) && Enabled(Steps(s, acts, |acts|), Borrow(b));
    }
  }

  /** How many steps task t took among the first n actions. */
  ghost function StepsOf(max: nat, default: Target, acts: seq<Action>, n: nat, t: TaskId): nat
    requires n <= |acts|
  {
    if n == 0 then 0
    else
      StepsOf(max, default, acts, n - 1, t)
      + (if Happens(max, default, acts, n - 1) && ByTask(acts[n - 1]) && acts[n - 1].t == t then 1 else 0)
  }

  /** A task takes at most twelve steps, whatever the others do. */
  lemma {:induction false} TasksTerminate(max: nat, default: Target, acts: seq<Action>, n: nat, t: TaskId)
    requires n <= |acts|
    ensures var s := After(max, default, acts, n);
            StepsOf(max, default, acts, n, t) + (if t in s.tasks then s.tasks[t].Rank() else 12) <= 12
  {
    hide Good, After, Apply, Enabled, Sound;
    AfterNone(max, default, acts);
    if n == 0 {
    } else {
      AfterOneMore(max, default, acts, n);
      var s, a := After(max, default, acts, n - 1), acts[n - 1];
      TasksTerminate(max, default, acts, n - 1, t);
      if Enabled(s, a) {
        RankFalls(s, a);
      }
    }
  }

  // ---- Closing ----

  /**
   A task that can still reach a send without reading the closed flag: it has read the flag, it is
   inside reconnect, or its first try has yet to run and may find its connection dead.
   */
  predicate AtRisk(ph: Phase) {
    ph.Sending? || ph.Reconnecting() || ((ph.Switching? || ph.Executing?) && !ph.retry)
  }

  predicate Quiet(s: State) { forall t :: t in s.tasks ==> !AtRisk(s.tasks[t]) }

  predicate NoPanic(s: State) { forall t :: t in s.tasks ==> !s.tasks[t].Panicked? }

  /** What the pool relies on after Close: nobody borrows. */
  predicate Polite(s: State, a: Action) { s.closed ==> !a.Borrow? }

  /** The first n actions, from s on, are polite. */
  ghost predicate PoliteRun(s: State, acts: seq<Action>, n: nat)
    requires Good(s) && n <= |acts|
  {
    n == 0 || (PoliteRun(s, acts, n - 1)
               && (Enabled(Steps(s, acts, n - 1), acts[n - 1]) ==> Polite(Steps(s, acts, n - 1), acts[n - 1])))
  }

  /** Nobody has sent on the closed channel or is on the way to, and what Close found empty stays so. */
  predicate Calm(s: State) { NoPanic(s) && Quiet(s) && (s.drained ==> s.idle == []) }

  lemma CalmStep(s: State, a: Action)
    requires Good(s) && s.closed && Calm(s) && Enabled(s, a) && Polite(s, a)
    ensures Apply(s, a).closed && Calm(Apply(s, a))
  {
    hide Exclusive, Accounted, Selected;
  }

  // Once closed and calm, a polite run stays calm.
  lemma {:induction false} CalmRun(s: State, acts: seq<Action>, n: nat)
    requires Good(s) && 0 < n <= |acts| && PoliteRun(s, acts, n)
    requires Steps(s, acts, 1).closed && Calm(Steps(s, acts, 1))
    ensures Steps(s, acts, n).closed && Calm(Steps(s, acts, n))
  {
    hide Calm, Good, Polite;
    if n == 1 {
    } else {
      CalmRun(s, acts, n - 1);
      var d := Steps(s, acts, n - 1);
      if Enabled(d, acts[n - 1]) {
        CalmStep(d, acts[n - 1]);
      }
    }
  }

  lemma FlagFirst(s: State, acts: seq<Action>)
    requires Good(s) && !s.closed && 0 < |acts| && acts[0] == CloseFlag
    ensures Steps(s, acts, 0) == s && Steps(s, acts, 1) == s.(closed := true) && !s.drained && Polite(s, CloseFlag)
    ensures NoPanic(s) && (Quiet(s) ==> Calm(s.(closed := true)))
  {
  }

  lemma NothingPlaced(e: State)
    requires Good(e) && e.sealed && Calm(e)
    requires forall t :: t in e.tasks ==> !e.tasks[t].Switching? && !e.tasks[t].Executing? && !e.tasks[t].Returning?
    ensures forall c :: 0 <= c < |e.closes| ==> e.closes[c] == 1
  {
    hide Exclusive, Selected;
    assert forall t :: t in e.tasks ==> !e.tasks[t].Holding();
  }

  /**
   No leak. Close is called while no task is at risk, nobody borrows afterwards, Close has finished
   and no task uses or returns a connection any more: then every connection ever opened has been
   closed exactly once, whichever of them died in use.
   */
  lemma CloseLeaksNothing(s: State, acts: seq<Action>)
    requires Good(s) && !s.closed && Quiet(s)
    requires 0 < |acts| && acts[0] == CloseFlag && PoliteRun(s, acts, |acts|)
    requires var e := Steps(s, acts, |acts|);
             && e.sealed
             && forall t :: t in e.tasks ==> !e.tasks[t].Switching? && !e.tasks[t].Executing? && !e.tasks[t].Returning?
    ensures var e := Steps(s, acts, |acts|);
            forall c :: 0 <= c < |e.closes| ==> e.closes[c] == 1
  {
    var e := Steps(s, acts, |acts|);
    assert Calm(e) by {
      FlagFirst(s, acts);
      hide Good, Steps, PoliteRun, Calm, Quiet;
      CalmRun(s, acts, |acts|);
    }
    hide Steps, PoliteRun;
    NothingPlaced(e);
  }

  lemma DrainOnce(d: State)
    requires Good(d) && d.closed && !d.drained && d.idle != []
    ensures Polite(d, Drain)
    ensures var e := Next(d, Drain);
            e.tasks == d.tasks && e.closed && !e.drained && |e.idle| == |d.idle| - 1
  {
    hide Inv, Conserved;
  }

  // While the flag is up, draining empties the channel and moves no task.
  lemma {:induction false} Draining(s: State, acts: seq<Action>, n: nat, m: nat)
    requires Good(s) && n + m <= |acts|
    requires var d := Steps(s, acts, n); d.closed && !d.drained && m <= |d.idle|
    requires PoliteRun(s, acts, n) && forall i :: n <= i < n + m ==> acts[i] == Drain
    ensures var d, e := Steps(s, acts, n), Steps(s, acts, n + m);
            PoliteRun(s, acts, n + m) && e.tasks == d.tasks && e.closed && !e.drained && |e.idle| == |d.idle| - m
  {
    hide Good, Next, Enabled, Polite;
    if m == 0 {
    } else {
      Draining(s, acts, n, m - 1);
      DrainOnce(Steps(s, acts, n + m - 1));
    }
  }

  lemma {:induction false} SameSteps(s: State, acts: seq<Action>, more: seq<Action>, n: nat)
    requires Good(s) && n <= |acts| <= |more| && forall i :: 0 <= i < n ==> acts[i] == more[i]
    ensures Steps(s, acts, n) == Steps(s, more, n)
  {
    hide Good;
    if n == 0 {
    } else {
      SameSteps(s, acts, more, n - 1);
    }
  }

  lemma {:induction false} SamePolite(s: State, acts: seq<Action>, more: seq<Action>, n: nat)
    requires Good(s) && n <= |acts| <= |more| && forall i :: 0 <= i < n ==> acts[i] == more[i]
    requires PoliteRun(s, acts, n)
    ensures PoliteRun(s, more, n)
  {
    hide Good, Polite, Enabled, Steps;
    if n == 0 {
    } else {
      SamePolite(s, acts, more, n - 1);
      SameSteps(s, acts, more, n - 1);
    }
  }

  lemma OneMore(s: State, acts: seq<Action>, a: Action)
    requires Good(s) && PoliteRun(s, acts, |acts|) && Polite(Steps(s, acts, |acts|), a)
    ensures PoliteRun(s, acts + [a], |acts| + 1)
    ensures Steps(s, acts + [a], |acts| + 1) == Next(Steps(s, acts, |acts|), a)
  {
    hide Good, Polite, Next, Enabled;
    SameSteps(s, acts, acts + [a], |acts|);
    SamePolite(s, acts, acts + [a], |acts|);
  }

  lemma FindEmptyOnce(d: State)
    requires Good(d) && d.closed && !d.drained && d.idle == []
    ensures Polite(d, FindEmpty)
    ensures Next(d, FindEmpty).drained && !Next(d, FindEmpty).sealed && Next(d, FindEmpty).tasks == d.tasks
  {
  }

  lemma SealOnce(d: State)
    requires Good(d) && d.drained && !d.sealed
    ensures Polite(d, Seal) && Next(d, Seal).sealed && Next(d, Seal).tasks == d.tasks
  {
  }

  // Close, in full: the flag, one drain per idle connection, the empty channel, its closing.
  lemma CloseRuns(s: State) returns (acts: seq<Action>)
    requires Good(s) && !s.closed
    ensures |acts| > 0 && acts[0] == CloseFlag && PoliteRun(s, acts, |acts|)
    ensures Steps(s, acts, |acts|).sealed && Steps(s, acts, |acts|).tasks == s.tasks
  {
    hide Good, Next, Enabled, Polite, NoPanic, Quiet, Calm;
    var k := |s.idle|;
    acts := seq(k + 3, i => if i == 0 then CloseFlag else if i <= k then Drain else if i == k + 1 then FindEmpty else Seal);
    FlagFirst(s, acts);
    assert PoliteRun(s, acts, 0) && PoliteRun(s, acts, 1);
    Draining(s, acts, 1, k);
    FindEmptyOnce(Steps(s, acts, k + 1));
    assert PoliteRun(s, acts, k + 2);
    SealOnce(Steps(s, acts, k + 2));
  }

  /** The step by which a task at risk gets nearer to the send: its connection dies in use. */
  function Doom(t: TaskId, ph: Phase): Action { if ph.Executing? then Execute(t, true) else Own(t, ph) }

  lemma RiskApply(s: State, t: TaskId)
    requires Sound(s) && s.sealed && t in s.tasks && AtRisk(s.tasks[t])
    ensures Enabled(s, Doom(t, s.tasks[t])) && Polite(s, Doom(t, s.tasks[t]))
    ensures var e := Apply(s, Doom(t, s.tasks[t]));
            && e.sealed && t in e.tasks
            && (e.tasks[t].Panicked? || (AtRisk(e.tasks[t]) && e.tasks[t].Rank() < s.tasks[t].Rank()))
  {
  }

  lemma RiskMoves(s: State, t: TaskId)
    requires Good(s) && s.sealed && t in s.tasks && AtRisk(s.tasks[t])
    ensures Polite(s, Doom(t, s.tasks[t]))
    ensures var e := Next(s, Doom(t, s.tasks[t]));
            && e.sealed && t in e.tasks
            && (e.tasks[t].Panicked? || (AtRisk(e.tasks[t]) && e.tasks[t].Rank() < s.tasks[t].Rank()))
  {
    RiskApply(s, t);
    hide Inv, Conserved, Apply, Enabled, Doom;
  }

  // A task at risk whose connection dies ends up sending on the closed channel.
  lemma {:induction false} RiskPanics(s: State, acts: seq<Action>, t: TaskId) returns (more: seq<Action>)
    requires Good(s) && PoliteRun(s, acts, |acts|) && |acts| > 0
    requires var d := Steps(s, acts, |acts|); d.sealed && t in d.tasks && AtRisk(d.tasks[t])
    ensures |more| > 0 && more[0] == acts[0] && PoliteRun(s, more, |more|)
    ensures var e := Steps(s, more, |more|); t in e.tasks && e.tasks[t].Panicked?
    decreases Steps(s, acts, |acts|).tasks[t].Rank()
  {
    hide Inv, Conserved, Steps, PoliteRun;
    var d := Steps(s, acts, |acts|);
    var a := Doom(t, d.tasks[t]);
    RiskMoves(d, t);
    OneMore(s, acts, a);
    hide Good, Apply, Enabled, Doom, Next;
    if Next(d, a).tasks[t].Panicked? {
      more := acts + [a];
    } else {
      more := RiskPanics(s, acts + [a], t);
    }
  }

  /**
   When Close may be called: if nobody borrows afterwards, no schedule sends on the closed channel if
   and only if, at the moment of the call, no task is between the closed check and the send, none is
   inside reconnect, and none has the first try of its statement before it.
   */
  lemma CloseIsSafeExactlyWhenQuiet(s: State)
    requires Good(s) && !s.closed
    ensures (forall acts :: 0 < |acts| && acts[0] == CloseFlag && PoliteRun(s, acts, |acts|)
               ==> NoPanic(Steps(s, acts, |acts|)))
            <==> Quiet(s)
  {
    if t :| t in s.tasks && AtRisk(s.tasks[t]) {
      hide Good, Steps, PoliteRun;
      var acts := CloseRuns(s);
      var more := RiskPanics(s, acts, t);
      assert !NoPanic(Steps(s, more, |more|));
    } else {
      forall acts | 0 < |acts| && acts[0] == CloseFlag && PoliteRun(s, acts, |acts|)
        ensures NoPanic(Steps(s, acts, |acts|))
      {
        FlagFirst(s, acts);
        assert Quiet(s);
        hide Good, Steps, PoliteRun, Quiet;
        CalmRun(s, acts, |acts|);
      }
    }
  }

  lemma QueryInUse(default: Target, job: Job)
    ensures var acts := [Begin(0, job), Borrow(0)];
            var s := After(1, default, acts, 2);
            !s.closed && s.tasks == map[0 := Switching(job, false, 0)]
  {
    var acts := [Begin(0, job), Borrow(0)];
    AfterNone(1, default, acts);
    AfterOneMore(1, default, acts, 1);
    AfterOneMore(1, default, acts, 2);
    hide After, Good;
  }

  /** A run that fails: a pool of one connection is closed just as a statement has borrowed it. */
  lemma CloseDuringFirstTryCanPanic(default: Target, job: Job)
    ensures var s := After(1, default, [Begin(0, job), Borrow(0)], 2);
            exists acts :: 0 < |acts| && acts[0] == CloseFlag && PoliteRun(s, acts, |acts|)
                           && !NoPanic(Steps(s, acts, |acts|))
  {
    QueryInUse(default, job);
    var s := After(1, default, [Begin(0, job), Borrow(0)], 2);
    assert AtRisk(s.tasks[0]);
    hide Good, After, Steps, PoliteRun;
    CloseIsSafeExactlyWhenQuiet(s);
  }

  /** A task that panicked keeps its connection, so that connection is never closed. */
  lemma PanickedLeaks(s: State, t: TaskId)
    requires Good(s) && t in s.tasks && s.tasks[t].Panicked?
    ensures s.tasks[t].conn < |s.closes| && s.closes[s.tasks[t].conn] == 0
  {
    assert Held(s, t, s.tasks[t].conn);
  }
}
