/**
 Verify with its store calls interleaved. All calls are for one user; at most width of them overlap.
 Every store call is one atomic step, and so is Send's Save. Codes appear as their hashes. Sends are
 numbered; passed, compared and matched count, for each Send, the Gets that let a call go on, the
 comparisons and the successes. An action that is not enabled leaves the state alone.
 */
module OtpInterleaving {
  import opened Prelude
  import opened Otp

  datatype Row = Row(send: nat, record: Record)

  datatype Phase =
    | Called(codeHash: string)
    | Passed(send: nat, stored: string, codeHash: string)    // read a record, before IncrementAttempts
    | Counted(send: nat, stored: string, codeHash: string)   // before the comparison
    | Consuming(send: nat)                                   // matched, before Delete
    | Dropping                                               // expired or used up, before Delete

  datatype State = State(
    width: nat,
    row: Option<Row>,
    calls: map<nat, Phase>,
    passed: seq<nat>,
    compared: seq<nat>,
    matched: seq<nat>)

  datatype Action =
    | Save(codeHash: string, now: int)
    | Call(t: nat, codeHash: string)
    | Get(t: nat, now: int)
    | Increment(t: nat)
    | Compare(t: nat)
    | Delete(t: nat)

  predicate Shaped(s: State) {
    && |s.passed| == |s.compared| == |s.matched|
    && (s.row.Some? ==> s.row.value.send + 1 == |s.passed|)
    && (forall t :: t in s.calls && (s.calls[t].Passed? || s.calls[t].Counted? || s.calls[t].Consuming?)
          ==> s.calls[t].send < |s.passed|)
  }

  predicate Enabled(s: State, a: Action) {
    match a
    case Save(_, _) => true
    case Call(t, _) => t !in s.calls && |s.calls| < s.width
    case Get(t, _) => t in s.calls && s.calls[t].Called?
    case Increment(t) => t in s.calls && s.calls[t].Passed?
    case Compare(t) => t in s.calls && s.calls[t].Counted?
    case Delete(t) => t in s.calls && (s.calls[t].Consuming? || s.calls[t].Dropping?)
  }

  function Move(s: State, t: nat, ph: Phase): State { s.(calls := s.calls[t := ph]) }

  function Leave(s: State, t: nat): State { s.(calls := s.calls - {t}) }

  function Apply(s: State, a: Action): State
    requires Shaped(s) && Enabled(s, a)
  {
    match a
    case Save(codeHash, now) =>
      s.(row := Some(Row(|s.passed|, Sent(codeHash, now))),
         passed := s.passed + [0], compared := s.compared + [0], matched := s.matched + [0])
    case Call(t, codeHash) => Move(s, t, Called(codeHash))
    case Get(t, now) =>
      if s.row.None? then Leave(s, t)
      else
        var r := s.row.value;
        if now > r.record.expiresAt || r.record.attempts >= MAX_ATTEMPTS then Move(s, t, Dropping)
        else
          Move(s.(passed := s.passed[r.send := s.passed[r.send] + 1]), t,
               Passed(r.send, r.record.codeHash, s.calls[t].codeHash))
    case Increment(t) =>
      var ph := s.calls[t];
      var s' := if s.row.None? then s
                else s.(row := Some(s.row.value.(record := s.row.value.record.(attempts := s.row.value.record.attempts + 1))));
      Move(s', t, Counted(ph.send, ph.stored, ph.codeHash))
    case Compare(t) =>
      var ph := s.calls[t];
      var s' := s.(compared := s.compared[ph.send := s.compared[ph.send] + 1]);
      if ph.stored != ph.codeHash then Leave(s', t)
      else Move(s'.(matched := s.matched[ph.send := s.matched[ph.send] + 1]), t, Consuming(ph.send))
    case Delete(t) => Leave(s.(row := None), t)
  }

  // ---- Calls by phase ----

  predicate IsUncounted(ph: Phase, g: nat) { ph.Passed? && ph.send == g }

  predicate IsPending(ph: Phase, g: nat) { (ph.Passed? || ph.Counted?) && ph.send == g }

  predicate IsConsuming(ph: Phase, g: nat) { ph.Consuming? && ph.send == g }

  /** Calls that passed the check on Send g but are not counted yet. */
  function Uncounted(calls: map<nat, Phase>, g: nat): set<nat> {
    set t | t in calls && IsUncounted(calls[t], g)
  }

  /** Calls that passed the check on Send g but have not compared yet. */
  function Pending(calls: map<nat, Phase>, g: nat): set<nat> {
    set t | t in calls && IsPending(calls[t], g)
  }

  function Consumers(calls: map<nat, Phase>, g: nat): set<nat> {
    set t | t in calls && IsConsuming(calls[t], g)
  }

  function One(b: bool): nat { if b then 1 else 0 }

  lemma MoveCounts(calls: map<nat, Phase>, t: nat, ph: Phase, g: nat)
    ensures var c := calls[t := ph];
            && |Uncounted(c, g)| == |Uncounted(calls, g)| - One(t in calls && IsUncounted(calls[t], g)) + One(IsUncounted(ph, g))
            && |Pending(c, g)| == |Pending(calls, g)| - One(t in calls && IsPending(calls[t], g)) + One(IsPending(ph, g))
            && |Consumers(c, g)| == |Consumers(calls, g)| - One(t in calls && IsConsuming(calls[t], g)) + One(IsConsuming(ph, g))
            && |c| == |calls| + One(t !in calls)
  {
    var c := calls[t := ph];
    CountsAtOne(Uncounted(calls, g), Uncounted(c, g), t);
    CountsAtOne(Pending(calls, g), Pending(c, g), t);
    CountsAtOne(Consumers(calls, g), Consumers(c, g), t);
  }

  lemma LeaveCounts(calls: map<nat, Phase>, t: nat, g: nat)
    requires t in calls
    ensures var c := calls - {t};
            && |Uncounted(c, g)| == |Uncounted(calls, g)| - One(IsUncounted(calls[t], g))
            && |Pending(c, g)| == |Pending(calls, g)| - One(IsPending(calls[t], g))
            && |Consumers(c, g)| == |Consumers(calls, g)| - One(IsConsuming(calls[t], g))
            && |c| == |calls| - 1
  {
    var c := calls - {t};
    CountsAtOne(Uncounted(calls, g), Uncounted(c, g), t);
    CountsAtOne(Pending(calls, g), Pending(c, g), t);
    CountsAtOne(Consumers(calls, g), Consumers(c, g), t);
    assert c.Keys == calls.Keys - {t};
    assert |c.Keys| == |calls.Keys| - 1;
  }

  lemma {:induction false} Subset<T>(a: set<T>, b: set<T>)
    requires a <= b
    ensures |a| <= |b|
  {
    assert b == a + (b - a);
  }

  lemma CallsCover(calls: map<nat, Phase>, g: nat)
    ensures |Uncounted(calls, g)| <= |Pending(calls, g)|
    ensures |Pending(calls, g)| + |Consumers(calls, g)| <= |calls|
    ensures forall t :: t in calls && !IsPending(calls[t], g) && !IsConsuming(calls[t], g)
              ==> |Pending(calls, g)| + |Consumers(calls, g)| < |calls|
  {
    var p, c := Pending(calls, g), Consumers(calls, g);
    Subset(Uncounted(calls, g), p);
    assert |p + c| == |p| + |c| && p + c <= calls.Keys;
    Subset(p + c, calls.Keys);
    forall t | t in calls && !IsPending(calls[t], g) && !IsConsuming(calls[t], g)
      ensures |p| + |c| < |calls|
    {
      Subset(p + c, calls.Keys - {t});
    }
  }

  // ---- Invariant, for one Send ----

  predicate Live(s: State, g: nat) { s.row.Some? && s.row.value.send == g }

  predicate InvFor(s: State, g: nat)
    requires Shaped(s) && g < |s.passed|
  {
    && s.compared[g] + |Pending(s.calls, g)| == s.passed[g]
    && s.passed[g] <= s.width + 2
    && (if Live(s, g) then
          && s.passed[g] <= s.row.value.record.attempts + |Uncounted(s.calls, g)|
          && s.matched[g] == |Consumers(s.calls, g)|
        else
          s.matched[g] + |Pending(s.calls, g)| <= s.width)
  }

  predicate Inv(s: State) {
    && Shaped(s)
    && |s.calls| <= s.width
    && (forall g :: 0 <= g < |s.passed| ==> InvFor(s, g))
  }

  lemma ShapedStep(s: State, a: Action)
    requires Shaped(s) && Enabled(s, a)
    ensures Shaped(Apply(s, a)) && Apply(s, a).width == s.width
    ensures |Apply(s, a).passed| == |s.passed| + One(a.Save?)
  {
  }

  lemma WidthStep(s: State, a: Action)
    requires Shaped(s) && |s.calls| <= s.width && Enabled(s, a)
    ensures |Apply(s, a).calls| <= s.width
  {
    hide Shaped, Uncounted, Pending, Consumers, IsUncounted, IsPending, IsConsuming;
    var s' := Apply(s, a);
    if !a.Save? {
      if a.t in s'.calls {
        MoveCounts(s.calls, a.t, s'.calls[a.t], 0);
        assert s'.calls == s.calls[a.t := s'.calls[a.t]];
      } else {
        LeaveCounts(s.calls, a.t, 0);
        assert s'.calls == s.calls - {a.t};
      }
    }
  }

  // A Get that reads Send g and lets its call go on.
  lemma PassStep(s: State, a: Action, g: nat)
    requires Shaped(s) && |s.calls| <= s.width && Enabled(s, a) && g < |s.passed| && InvFor(s, g)
    requires a.Get? && Apply(s, a).passed != s.passed
    ensures Shaped(Apply(s, a)) && InvFor(Apply(s, a), g)
  {
    ShapedStep(s, a);
    CallsCover(s.calls, g);
    hide Shaped, Uncounted, Pending, Consumers;
    var r := s.row.value;
    MoveCounts(s.calls, a.t, Passed(r.send, r.record.codeHash, s.calls[a.t].codeHash), g);
  }

  lemma GetStep(s: State, a: Action, g: nat)
    requires Shaped(s) && |s.calls| <= s.width && Enabled(s, a) && g < |s.passed| && InvFor(s, g)
    requires a.Get?
    ensures Shaped(Apply(s, a)) && InvFor(Apply(s, a), g)
  {
    var s' := Apply(s, a);
    if s'.passed != s.passed {
      PassStep(s, a, g);
    } else {
      ShapedStep(s, a);
      hide Shaped, Uncounted, Pending, Consumers;
      if a.t in s'.calls {
        MoveCounts(s.calls, a.t, s'.calls[a.t], g);
      } else {
        LeaveCounts(s.calls, a.t, g);
      }
    }
  }

  lemma CompareStep(s: State, a: Action, g: nat)
    requires Shaped(s) && |s.calls| <= s.width && Enabled(s, a) && g < |s.passed| && InvFor(s, g)
    requires a.Compare?
    ensures Shaped(Apply(s, a)) && InvFor(Apply(s, a), g)
  {
    ShapedStep(s, a);
    hide Shaped, Uncounted, Pending, Consumers;
    var s' := Apply(s, a);
    if a.t in s'.calls {
      MoveCounts(s.calls, a.t, s'.calls[a.t], g);
    } else {
      LeaveCounts(s.calls, a.t, g);
    }
  }

  lemma OldSendStep(s: State, a: Action, g: nat)
    requires Shaped(s) && |s.calls| <= s.width && Enabled(s, a) && g < |s.passed| && InvFor(s, g)
    ensures Shaped(Apply(s, a)) && InvFor(Apply(s, a), g)
  {
    if a.Get? {
      GetStep(s, a, g);
    } else if a.Compare? {
      CompareStep(s, a, g);
    } else {
      ShapedStep(s, a);
      CallsCover(s.calls, g);
      hide Shaped, Uncounted, Pending, Consumers;
      match a
      case Save(_, _) =>
      case Call(t, codeHash) => MoveCounts(s.calls, t, Called(codeHash), g);
      case Increment(t) => MoveCounts(s.calls, t, Apply(s, a).calls[t], g);
      case Delete(t) => LeaveCounts(s.calls, t, g);
    }
  }

  lemma NewSendStep(s: State, a: Action)
    requires Inv(s) && a.Save?
    ensures Shaped(Apply(s, a)) && InvFor(Apply(s, a), |s.passed|)
  {
    assert Uncounted(s.calls, |s.passed|) == {};
    assert Pending(s.calls, |s.passed|) == {};
    assert Consumers(s.calls, |s.passed|) == {};
  }

  lemma InvStep(s: State, a: Action)
    requires Inv(s) && Enabled(s, a)
    ensures Inv(Apply(s, a))
  {
    hide Shaped, InvFor, Enabled, Apply;
    ShapedStep(s, a);
    WidthStep(s, a);
    var s' := Apply(s, a);
    forall g | 0 <= g < |s'.passed| ensures InvFor(s', g) {
      if g < |s.passed| {
        OldSendStep(s, a, g);
      } else {
        assert a.Save?;
        NewSendStep(s, a);
      }
    }
  }

  // ---- Runs ----

  function Initial(width: nat): State { State(width, None, map[], [], [], []) }

  ghost function After(width: nat, acts: seq<Action>, n: nat): (s: State)
    requires n <= |acts|
    ensures Inv(s) && s.width == width
  {
    if n == 0 then Initial(width)
    else
      var s := After(width, acts, n - 1);
      if Enabled(s, acts[n - 1]) then
        InvStep(s, acts[n - 1]);
        ShapedStep(s, acts[n - 1]);
        Apply(s, acts[n - 1])
      else s
  }

  /**
   If at most n calls overlap, every sent code is compared with at most n + 2 times, and at most n
   calls succeed with it; calls one at a time get exactly the three attempts and the single use.
   */
  lemma OverlapBound(width: nat, acts: seq<Action>, g: nat)
    requires g < |After(width, acts, |acts|).passed|
    ensures var s := After(width, acts, |acts|);
            && s.compared[g] <= width + 2
            && s.matched[g] <= width
  {
    var s := After(width, acts, |acts|);
    assert InvFor(s, g);
    CallsCover(s.calls, g);
  }

  // ---- One call at a time ----

  function StepsLeft(ph: Phase): nat {
    match ph
    case Called(_) => 4
    case Passed(_, _, _) => 3
    case Counted(_, _, _) => 2
    case _ => 1
  }

  /** The next store call or comparison of call t. */
  function NextOf(ph: Phase, t: nat, now: int): Action {
    match ph
    case Called(_) => Get(t, now)
    case Passed(_, _, _) => Increment(t)
    case Counted(_, _, _) => Compare(t)
    case _ => Delete(t)
  }

  lemma NextLowers(s: State, t: nat, now: int)
    requires Shaped(s) && t in s.calls
    ensures Enabled(s, NextOf(s.calls[t], t, now))
    ensures var e := Apply(s, NextOf(s.calls[t], t, now));
            t in e.calls ==> StepsLeft(e.calls[t]) < StepsLeft(s.calls[t])
  {
  }

  /** Call t runs to its end with no other in between. */
  function Settled(s: State, t: nat, now: int): State
    requires Shaped(s)
    decreases if t in s.calls then StepsLeft(s.calls[t]) else 0
  {
    if t !in s.calls then s
    else
      var a := NextOf(s.calls[t], t, now);
      NextLowers(s, t, now);
      ShapedStep(s, a);
      Settled(Apply(s, a), t, now)
  }

  function RecordOf(s: State): Option<Record> { if s.row.Some? then Some(s.row.value.record) else None }

  lemma Ends(s: State, t: nat, now: int, ph: Phase)
    requires Shaped(s) && s.calls == map[t := ph] && (ph.Consuming? || ph.Dropping?)
    ensures Settled(s, t, now) == s.(calls := map[], row := None)
  {
    assert map[t := ph] - {t} == map[];
    assert Apply(s, Delete(t)) == s.(calls := map[], row := None);
    ShapedStep(s, Delete(t));
  }

  lemma Counts(s: State, t: nat, now: int, ph: Phase)
    requires Shaped(s) && s.calls == map[t := ph] && ph.Counted? && ph.send < |s.passed|
    ensures var e := Settled(s, t, now);
            && e.calls == map[]
            && RecordOf(e) == (if ph.stored == ph.codeHash then None else RecordOf(s))
            && e.compared == s.compared[ph.send := s.compared[ph.send] + 1]
            && e.matched == if ph.stored == ph.codeHash then s.matched[ph.send := s.matched[ph.send] + 1] else s.matched
  {
    var s' := Apply(s, Compare(t));
    ShapedStep(s, Compare(t));
    NextLowers(s, t, now);
    assert Settled(s, t, now) == Settled(s', t, now);
    if ph.stored == ph.codeHash {
      assert s'.calls == map[t := Consuming(ph.send)];
      Ends(s', t, now, Consuming(ph.send));
    } else {
      assert s'.calls == map[];
    }
  }

  lemma SettlesOn(s: State, t: nat, now: int)
    requires Shaped(s) && t in s.calls && Enabled(s, NextOf(s.calls[t], t, now))
    requires Shaped(Apply(s, NextOf(s.calls[t], t, now)))
    ensures Settled(s, t, now) == Settled(Apply(s, NextOf(s.calls[t], t, now)), t, now)
  {
    hide Shaped, Apply, Enabled, NextOf;
  }

  lemma Passes(s: State, t: nat, now: int, ph: Phase)
    requires Shaped(s) && s.row.Some? && s.calls == map[t := ph] && ph.Passed? && ph.send < |s.passed|
    ensures var e, r := Settled(s, t, now), s.row.value.record;
            && e.calls == map[]
            && RecordOf(e) == (if ph.stored == ph.codeHash then None else Some(r.(attempts := r.attempts + 1)))
            && e.compared == s.compared[ph.send := s.compared[ph.send] + 1]
            && e.matched == if ph.stored == ph.codeHash then s.matched[ph.send := s.matched[ph.send] + 1] else s.matched
  {
    var s' := Apply(s, Increment(t));
    ShapedStep(s, Increment(t));
    SettlesOn(s, t, now);
    hide Settled, Shaped;
    var ph' := Counted(ph.send, ph.stored, ph.codeHash);
    assert s'.calls == map[t := ph'];
    Counts(s', t, now, ph');
  }

  /**
   A call that no other overlaps is the atomic Verify: it leaves the record that VerifyOn leaves, and
   compares and succeeds exactly when VerifyOn does.
   */
  lemma AloneIsAtomic(s: State, t: nat, codeHash: string, now: int)
    requires Shaped(s) && s.calls == map[] && s.width >= 1
    ensures Enabled(s, Call(t, codeHash)) && Shaped(Apply(s, Call(t, codeHash)))
    ensures var e, o := Settled(Apply(s, Call(t, codeHash)), t, now), VerifyOn(RecordOf(s), codeHash, now);
            && e.calls == map[]
            && RecordOf(e) == o.left
            && e.compared == (if o.compared then s.compared[s.row.value.send := s.compared[s.row.value.send] + 1] else s.compared)
            && e.matched == (if o.valid then s.matched[s.row.value.send := s.matched[s.row.value.send] + 1] else s.matched)
  {
    var s1 := Apply(s, Call(t, codeHash));
    ShapedStep(s, Call(t, codeHash));
    NextLowers(s1, t, now);
    var s2 := Apply(s1, Get(t, now));
    ShapedStep(s1, Get(t, now));
    assert Settled(s1, t, now) == Settled(s2, t, now);
    if s.row.None? {
      assert s2.calls == map[];
    } else {
      var ph := s2.calls[t];
      assert s2.calls == map[t := ph];
      hide Settled;
      if ph.Dropping? {
        Ends(s2, t, now, ph);
      } else {
        Passes(s2, t, now, ph);
      }
    }
  }

  // ---- The bound is reached ----

  /** Two wrong guesses one after the other, then n right ones that all read before any of them counts. */
  function Worst(n: nat, i: nat): Action {
    if i == 0 then Save(RIGHT, 0)
    else if i < 9 then
      match (i - 1) % 4
      case 0 => Call(0, "wrong")
      case 1 => Get(0, 0)
      case 2 => Increment(0)
      case _ => Compare(0)
    else if i < 9 + 2 * n then
      var t := (i - 9) / 2;
      if (i - 9) % 2 == 0 then Call(t, RIGHT) else Get(t, 0)
    else
      var t := (i - 9 - 2 * n) / 2;
      if (i - 9 - 2 * n) % 2 == 0 then Increment(t) else Compare(t)
  }

  function WorstRun(n: nat): seq<Action> { seq(9 + 4 * n, i requires 0 <= i < 9 + 4 * n => Worst(n, i)) }

  const RIGHT: string := "right"

  /** The calls once the first read of them have read. */
  function Readers(read: nat): (calls: map<nat, Phase>)
    ensures forall t: nat :: t in calls <==> t < read
    ensures forall t :: t in calls ==> calls[t] == Passed(0, RIGHT, RIGHT)
    ensures |calls| == read
  {
    if read == 0 then map[]
    else Readers(read - 1)[read - 1 := Passed(0, RIGHT, RIGHT)]
  }

  /** The n calls once the first done of them have compared. */
  function Finishers(n: nat, done: nat): (calls: map<nat, Phase>)
    requires done <= n
    ensures forall t: nat :: t in calls <==> t < n
    ensures forall t :: done <= t < n ==> calls[t] == Passed(0, RIGHT, RIGHT)
  {
    if done == 0 then Readers(n) else Finishers(n, done - 1)[done - 1 := Consuming(0)]
  }

  function Between(n: nat, attempts: nat, calls: map<nat, Phase>, passed: nat, compared: nat, matched: nat): State {
    State(n, Some(Row(0, Record(RIGHT, attempts, OTP_LIFETIME))), calls, [passed], [compared], [matched])
  }

  lemma Advance(n: nat, i: nat, s: State, a: Action)
    requires i < 9 + 4 * n && After(n, WorstRun(n), i) == s
    requires Worst(n, i) == a && Enabled(s, a)
    ensures Shaped(s) && After(n, WorstRun(n), i + 1) == Apply(s, a)
  {
    hide Worst, Apply, Enabled, Shaped;
    assert WorstRun(n)[i] == a;
  }

  lemma Overwrites(calls: map<nat, Phase>, t: nat, a: Phase, b: Phase)
    ensures calls[t := a][t := b] == calls[t := b]
    ensures t !in calls ==> calls[t := a] - {t} == calls
  {
  }

  lemma GuessReads(n: nat, i: nat, c: nat)
    requires n > 0 && c < 2 && (i == 1 || i == 5)
    requires After(n, WorstRun(n), i) == Between(n, c, map[], c, c, 0)
    ensures After(n, WorstRun(n), i + 2) == Between(n, c, map[][0 := Passed(0, RIGHT, "wrong")], c + 1, c, 0)
  {
    hide After, WorstRun, Shaped;
    Advance(n, i, Between(n, c, map[], c, c, 0), Call(0, "wrong"));
    Advance(n, i + 1, Between(n, c, map[][0 := Called("wrong")], c, c, 0), Get(0, 0));
    Overwrites(map[], 0, Called("wrong"), Passed(0, RIGHT, "wrong"));
  }

  lemma GuessCompares(n: nat, i: nat, c: nat)
    requires n > 0 && c < 2 && (i == 3 || i == 7)
    requires After(n, WorstRun(n), i) == Between(n, c, map[][0 := Passed(0, RIGHT, "wrong")], c + 1, c, 0)
    ensures After(n, WorstRun(n), i + 2) == Between(n, c + 1, map[], c + 1, c + 1, 0)
  {
    hide After, WorstRun, Shaped;
    var calls: map<nat, Phase> := map[];
    Advance(n, i, Between(n, c, map[][0 := Passed(0, RIGHT, "wrong")], c + 1, c, 0), Increment(0));
    Overwrites(calls, 0, Passed(0, RIGHT, "wrong"), Counted(0, RIGHT, "wrong"));
    Advance(n, i + 1, Between(n, c + 1, map[][0 := Counted(0, RIGHT, "wrong")], c + 1, c, 0), Compare(0));
    Overwrites(calls, 0, Counted(0, RIGHT, "wrong"), Dropping);
  }

  lemma FirstSend(n: nat)
    ensures After(n, WorstRun(n), 1) == Between(n, 0, map[], 0, 0, 0)
  {
    assert After(n, WorstRun(n), 0) == Initial(n);
    hide After, WorstRun, Shaped;
    Advance(n, 0, Initial(n), Save(RIGHT, 0));
  }

  lemma TwoGuesses(n: nat)
    requires n > 0
    ensures After(n, WorstRun(n), 9) == Between(n, 2, map[], 2, 2, 0)
  {
    hide After, WorstRun, Shaped, Between;
    FirstSend(n);
    GuessReads(n, 1, 0);
    GuessCompares(n, 3, 0);
    GuessReads(n, 5, 1);
    GuessCompares(n, 7, 1);
  }

  lemma CrowdRead(n: nat, i: nat, k: nat)
    requires 0 < k <= n && i == 7 + 2 * k
    requires After(n, WorstRun(n), i) == Between(n, 2, Readers(k - 1), 1 + k, 2, 0)
    ensures After(n, WorstRun(n), i + 2) == Between(n, 2, Readers(k - 1)[k - 1 := Passed(0, RIGHT, RIGHT)], 2 + k, 2, 0)
  {
    hide After, WorstRun, Shaped;
    var calls := Readers(k - 1);
    Advance(n, i, Between(n, 2, calls, 1 + k, 2, 0), Call(k - 1, RIGHT));
    Advance(n, i + 1, Between(n, 2, calls[k - 1 := Called(RIGHT)], 1 + k, 2, 0), Get(k - 1, 0));
    Overwrites(calls, k - 1, Called(RIGHT), Passed(0, RIGHT, RIGHT));
  }

  lemma {:induction false} CrowdReads(n: nat, k: nat)
    requires n > 0 && k <= n
    ensures After(n, WorstRun(n), 9 + 2 * k) == Between(n, 2, Readers(k), 2 + k, 2, 0)
  {
    hide After, WorstRun, Shaped, Worst;
    if k == 0 {
      TwoGuesses(n);
    } else {
      CrowdReads(n, k - 1);
      CrowdRead(n, 7 + 2 * k, k);
    }
  }

  lemma CrowdCompare(n: nat, i: nat, k: nat)
    requires 0 < k <= n && i == 7 + 2 * n + 2 * k
    requires After(n, WorstRun(n), i) == Between(n, 1 + k, Finishers(n, k - 1), 2 + n, 1 + k, k - 1)
    ensures After(n, WorstRun(n), i + 2)
         == Between(n, 2 + k, Finishers(n, k - 1)[k - 1 := Consuming(0)], 2 + n, 2 + k, k)
  {
    hide After, WorstRun, Shaped;
    var calls := Finishers(n, k - 1);
    Advance(n, i, Between(n, 1 + k, calls, 2 + n, 1 + k, k - 1), Increment(k - 1));
    Advance(n, i + 1, Between(n, 2 + k, calls[k - 1 := Counted(0, RIGHT, RIGHT)], 2 + n, 1 + k, k - 1), Compare(k - 1));
    Overwrites(calls, k - 1, Counted(0, RIGHT, RIGHT), Consuming(0));
  }

  lemma {:induction false} CrowdCompares(n: nat, k: nat)
    requires n > 0 && k <= n
    ensures After(n, WorstRun(n), 9 + 2 * n + 2 * k) == Between(n, 2 + k, Finishers(n, k), 2 + n, 2 + k, k)
  {
    hide After, WorstRun, Shaped, Worst;
    if k == 0 {
      CrowdReads(n, n);
    } else {
      CrowdCompares(n, k - 1);
      CrowdCompare(n, 7 + 2 * n + 2 * k, k);
    }
  }

  /** For every n >= 1 some run of n overlapping calls makes n + 2 comparisons and has n of them succeed. */
  lemma OverlapBoundIsReached(n: nat)
    requires n > 0
    ensures var s := After(n, WorstRun(n), |WorstRun(n)|);
            && s.compared == [n + 2]
            && s.matched == [n]
  {
    CrowdCompares(n, n);
    hide After;
  }
}
