/**
 The OTP endpoints, which put the fixed-window limiter in front of the OTP service. A run mixes
 requests of all users with any other traffic of the limiter.
 */
module VerifyHandler {
  import opened Prelude
  import F = FixedWindow
  import O = Otp

  const OTP_MAX := 5
  const OTP_WINDOW := 10 * MINUTE

  const POLICY_OTP := F.Policy(OTP_MAX, OTP_WINDOW)

  const FAIL_PREFIX := "otp:fail:"
  const SEND_PREFIX := "otp:send:"

  function FailKey(u: string): string { FAIL_PREFIX + u }

  function SendKey(e: string): string { SEND_PREFIX + e }

  lemma FailKeyInjective(u: string, v: string)
    ensures FailKey(u) == FailKey(v) ==> u == v
  {
    assert FailKey(u)[9..] == u && FailKey(v)[9..] == v;
  }

  lemma SendKeyForeign(e: string)
    ensures !(FAIL_PREFIX <= SendKey(e))
  {
    assert SendKey(e)[4] == 's' && FAIL_PREFIX[4] == 'f';
  }

  /** The limiter's buckets and the stored records. */
  datatype State = State(entries: map<string, F.Bucket>, records: map<string, O.Record>)

  /** clk holds the limiter's readings; its last one stamps the comparison. now is Verify's or Send's reading. */
  datatype Event =
    | VerifyOtp(user: string, code: string, clk: F.Clock, now: int)
    | SendOtp(email: string, user: string, code: string, clk: F.Clock, now: int)
    | OtherAllow(key: string, policy: F.Policy, clk: F.Clock)
    | OtherPeek(key: string, policy: F.Policy, clk: F.Clock)
    | OtherReset(key: string, clk: F.Clock)

  function BucketOf(s: State, key: string): Option<F.Bucket> {
    if key in s.entries then Some(s.entries[key]) else None
  }

  function RecordOf(s: State, u: string): Option<O.Record> {
    if u in s.records then Some(s.records[u]) else None
  }

  function PutBucket(s: State, key: string, b: Option<F.Bucket>): State {
    s.(entries := F.MemoryRateLimiter.Put(s.entries, key, b))
  }

  function PutRecord(s: State, u: string, r: Option<O.Record>): State {
    s.(records := if r.Some? then s.records[u := r.value] else s.records - {u})
  }

  datatype Reply = BadRequest | TooMany | Invalid | Verified

  /** VerifyOTP: limiter, then verification, and after a success both counters are reset. */
  function VerifyStep(h: O.Hash, s: State, u: string, code: string, clk: F.Clock, now: int): (r: (Reply, bool, State)) {
    if u == "" || code == "" then (BadRequest, false, s)
    else
      var (allowed, b) := F.AllowOn(BucketOf(s, FailKey(u)), POLICY_OTP, clk);
      var s1 := PutBucket(s, FailKey(u), b);
      if !allowed then (TooMany, false, s1)
      else
        var o := O.VerifyOn(RecordOf(s1, u), h(code), now);
        var s2 := PutRecord(s1, u, o.left);
        if !o.valid then (Invalid, o.compared, s2)
        else (Verified, o.compared, PutBucket(PutBucket(s2, SendKey(u), None), FailKey(u), None))
  }

  function SendStep(h: O.Hash, s: State, email: string, u: string, code: string, clk: F.Clock, now: int): State {
    var (allowed, b) := F.AllowOn(BucketOf(s, SendKey(email)), POLICY_OTP, clk);
    var s1 := PutBucket(s, SendKey(email), b);
    if allowed then PutRecord(s1, u, Some(O.Sent(h(code), now))) else s1
  }

  function Apply(h: O.Hash, s: State, e: Event): State {
    match e
    case VerifyOtp(u, code, clk, now) => VerifyStep(h, s, u, code, clk, now).2
    case SendOtp(email, u, code, clk, now) => SendStep(h, s, email, u, code, clk, now)
    case OtherAllow(key, p, clk) =>
      if key == "" then s else PutBucket(s, key, F.AllowOn(BucketOf(s, key), p, clk).1)
    case OtherPeek(key, p, clk) => PutBucket(s, key, F.RemainingOn(BucketOf(s, key), p, clk).1)
    case OtherReset(key, _) => PutBucket(s, key, None)
  }

  /** Other limiter traffic uses keys of other kinds. */
  predicate Foreign(e: Event) {
    (e.OtherAllow? || e.OtherPeek? || e.OtherReset?) ==> !(FAIL_PREFIX <= e.key)
  }

  function StateAt(h: O.Hash, s: State, evs: seq<Event>, n: nat): State
    requires n <= |evs|
  {
    if n == 0 then s else Apply(h, StateAt(h, s, evs, n - 1), evs[n - 1])
  }

  function ReplyAt(h: O.Hash, s: State, evs: seq<Event>, i: nat): (Reply, bool)
    requires i < |evs| && evs[i].VerifyOtp?
  {
    var r := VerifyStep(h, StateAt(h, s, evs, i), evs[i].user, evs[i].code, evs[i].clk, evs[i].now);
    (r.0, r.1)
  }

  /** Event i compares a code of user u. */
  predicate Compares(h: O.Hash, s: State, evs: seq<Event>, i: nat, u: string)
    requires i < |evs|
  {
    evs[i].VerifyOtp? && evs[i].user == u && ReplyAt(h, s, evs, i).1
  }

  /** How many comparisons for u the first n events made in (x - w, x]. */
  function ComparedIn(h: O.Hash, s: State, evs: seq<Event>, n: nat, u: string, x: int, w: int): nat
    requires n <= |evs|
  {
    if n == 0 then 0
    else
      ComparedIn(h, s, evs, n - 1, u, x, w)
      + (if Compares(h, s, evs, n - 1, u) && x - w < evs[n - 1].clk.done <= x then 1 else 0)
  }

  /** No verification of u succeeds in the segment. */
  ghost predicate NoSuccess(h: O.Hash, s: State, evs: seq<Event>, u: string) {
    forall i :: 0 <= i < |evs| && evs[i].VerifyOtp? && evs[i].user == u ==> ReplyAt(h, s, evs, i).0 != Verified
  }

  /** What the segment looks like from u's failure counter. */
  function Ops(evs: seq<Event>, u: string): (ops: seq<F.Op>)
    ensures |ops| == |evs|
  {
    seq(|evs|, i requires 0 <= i < |evs| =>
      if evs[i].VerifyOtp? && evs[i].user == u && u != "" && evs[i].code != "" then F.Try(evs[i].clk)
      else F.Elsewhere(evs[i].clk))
  }

  /** Requests of other users and traffic on other keys touch neither u's counter nor, unless they send u a code, u's record. */
  lemma OthersDoNotMatter(h: O.Hash, s: State, e: Event, u: string)
    requires Foreign(e) && !(e.VerifyOtp? && e.user == u)
    ensures BucketOf(Apply(h, s, e), FailKey(u)) == BucketOf(s, FailKey(u))
    ensures !(e.SendOtp? && e.user == u) ==> RecordOf(Apply(h, s, e), u) == RecordOf(s, u)
  {
    assert FAIL_PREFIX <= FailKey(u);
    match e
    case VerifyOtp(v, _, _, _) => SendKeyForeign(v); FailKeyInjective(u, v);
    case SendOtp(email, _, _, _, _) => SendKeyForeign(email);
    case OtherAllow(_, _, _) =>
    case OtherPeek(_, _, _) =>
    case OtherReset(_, _) =>
  }

  lemma OwnRequest(h: O.Hash, s: State, u: string, code: string, clk: F.Clock, now: int)
    requires u != "" && code != "" && VerifyStep(h, s, u, code, clk, now).0 != Verified
    ensures BucketOf(VerifyStep(h, s, u, code, clk, now).2, FailKey(u)) == F.AllowOn(BucketOf(s, FailKey(u)), POLICY_OTP, clk).1
    ensures VerifyStep(h, s, u, code, clk, now).1 ==> F.AllowOn(BucketOf(s, FailKey(u)), POLICY_OTP, clk).0
  {
  }

  lemma {:induction false} CounterIsOps(h: O.Hash, s: State, evs: seq<Event>, u: string, n: nat)
    requires n <= |evs| && NoSuccess(h, s, evs, u) && forall i :: 0 <= i < |evs| ==> Foreign(evs[i])
    ensures BucketOf(StateAt(h, s, evs, n), FailKey(u)) == F.BucketAt(BucketOf(s, FailKey(u)), POLICY_OTP, Ops(evs, u), n)
  {
    if n == 0 {
    } else {
      CounterIsOps(h, s, evs, u, n - 1);
      var e, d := evs[n - 1], StateAt(h, s, evs, n - 1);
      if e.VerifyOtp? && e.user == u {
        if u != "" && e.code != "" {
          assert ReplyAt(h, s, evs, n - 1).0 != Verified;
          OwnRequest(h, d, u, e.code, e.clk, e.now);
        }
      } else {
        OthersDoNotMatter(h, d, e, u);
      }
    }
  }

  lemma {:induction false} ComparisonsAreAdmissions(h: O.Hash, s: State, evs: seq<Event>, u: string, n: nat, x: int, w: int)
    requires n <= |evs| && NoSuccess(h, s, evs, u) && forall i :: 0 <= i < |evs| ==> Foreign(evs[i])
    ensures ComparedIn(h, s, evs, n, u, x, w) <= F.AdmittedIn(BucketOf(s, FailKey(u)), POLICY_OTP, Ops(evs, u), n, x, w)
  {
    if n == 0 {
    } else {
      ComparisonsAreAdmissions(h, s, evs, u, n - 1, x, w);
      if Compares(h, s, evs, n - 1, u) {
        var e := evs[n - 1];
        CounterIsOps(h, s, evs, u, n - 1);
        assert ReplyAt(h, s, evs, n - 1).0 != Verified;
        OwnRequest(h, StateAt(h, s, evs, n - 1), u, e.code, e.clk, e.now);
        assert F.Allowed(BucketOf(s, FailKey(u)), POLICY_OTP, Ops(evs, u), n - 1);
      }
    }
  }

  /** The clock does not run backwards through the segment, nor behind u's counter as it starts. */
  ghost predicate Timely(s: State, evs: seq<Event>, u: string) {
    && F.Ordered(Ops(evs, u))
    && F.Fits(BucketOf(s, FailKey(u)), POLICY_OTP, Ops(evs, u))
  }

  /**
   In any run segment without a successful verification of u, however many codes are sent and
   whatever everybody else does, each half-open ten minutes hold at most ten comparisons for u.
   */
  lemma TenComparisons(h: O.Hash, s: State, evs: seq<Event>, u: string, x: int)
    requires NoSuccess(h, s, evs, u) && Timely(s, evs, u) && forall i :: 0 <= i < |evs| ==> Foreign(evs[i])
    ensures ComparedIn(h, s, evs, |evs|, u, x, 10 * MINUTE) <= 10
  {
    ComparisonsAreAdmissions(h, s, evs, u, |evs|, x, OTP_WINDOW);
    F.TwiceTheLimit(BucketOf(s, FailKey(u)), POLICY_OTP, Ops(evs, u), |evs|, x);
  }

  const EMPTY := State(map[], map[])

  lemma OwnCounter(h: O.Hash, s: State, u: string, code: string, clk: F.Clock, now: int)
    ensures var b, b' := BucketOf(s, FailKey(u)), BucketOf(VerifyStep(h, s, u, code, clk, now).2, FailKey(u));
            || b' == b
            || b'.None?
            || b' == F.AllowOn(b, POLICY_OTP, clk).1
  {
  }

  // In every reachable state u's counter is within its limit and started in the past.
  lemma {:induction false} CounterFits(h: O.Hash, evs: seq<Event>, u: string, n: nat)
    requires n <= |evs| && F.Ordered(Ops(evs, u)) && forall i :: 0 <= i < |evs| ==> Foreign(evs[i])
    ensures var b := BucketOf(StateAt(h, EMPTY, evs, n), FailKey(u));
            b.Some? ==> 0 <= b.value.count <= OTP_MAX
                        && forall i :: n <= i < |evs| ==> b.value.windowStart <= Ops(evs, u)[i].clk.create
  {
    if n == 0 {
    } else {
      CounterFits(h, evs, u, n - 1);
      var e, d := evs[n - 1], StateAt(h, EMPTY, evs, n - 1);
      assert Ops(evs, u)[n - 1].clk == e.clk;
      if e.VerifyOtp? && e.user == u {
        hide F.Ordered;
        OwnCounter(h, d, u, e.code, e.clk, e.now);
      } else {
        OthersDoNotMatter(h, d, e, u);
      }
    }
  }

  /**
   The same for a whole run of a fresh process: take any segment of it without a successful
   verification of u, and any ten minutes.
   */
  lemma TenComparisonsInAnySegment(h: O.Hash, evs: seq<Event>, from: nat, to: nat, u: string, x: int)
    requires from <= to <= |evs| && F.Ordered(Ops(evs, u)) && forall i :: 0 <= i < |evs| ==> Foreign(evs[i])
    requires NoSuccess(h, StateAt(h, EMPTY, evs, from), evs[from..to], u)
    ensures ComparedIn(h, StateAt(h, EMPTY, evs, from), evs[from..to], to - from, u, x, 10 * MINUTE) <= 10
  {
    var s, part := StateAt(h, EMPTY, evs, from), evs[from..to];
    CounterFits(h, evs, u, from);
    assert forall i :: 0 <= i < |part| ==> Ops(part, u)[i] == Ops(evs, u)[from + i];
    TenComparisons(h, s, part, u, x);
  }

  // ---- The answers, from the history of the run ----

  /** The limiter lets a complete verification request through: five in ten minutes on the failure key. */
  predicate LetsVerify(s: State, e: Event)
    requires e.VerifyOtp?
  {
    F.AllowOn(BucketOf(s, "otp:fail:" + e.user), F.Policy(5, 10 * MINUTE), e.clk).0
  }

  predicate LetsSend(s: State, e: Event)
    requires e.SendOtp?
  {
    F.AllowOn(BucketOf(s, "otp:send:" + e.email), F.Policy(5, 10 * MINUTE), e.clk).0
  }

  predicate Complete(e: Event) { e.VerifyOtp? && e.user != "" && e.code != "" }

  /** What an event means to the OTP service: a stored code, an attempt that reaches it, or nothing. */
  function OtpEvent(s: State, e: Event): seq<O.Event> {
    if Complete(e) && LetsVerify(s, e) then [O.Verify(e.user, e.code, e.now)]
    else if e.SendOtp? && LetsSend(s, e) then [O.Send(e.user, e.code, e.now)]
    else []
  }

  /** The first n events of a fresh process as the OTP service sees them. */
  function OtpRun(h: O.Hash, evs: seq<Event>, n: nat): seq<O.Event>
    requires n <= |evs|
  {
    if n == 0 then [] else OtpRun(h, evs, n - 1) + OtpEvent(StateAt(h, EMPTY, evs, n - 1), evs[n - 1])
  }

  lemma RecordStep(h: O.Hash, s: State, e: Event, u: string)
    ensures var p := OtpEvent(s, e);
            && (p == [] || p[0].user != u ==> RecordOf(Apply(h, s, e), u) == RecordOf(s, u))
            && (p != [] && p[0].user == u && p[0].Send? ==>
                  RecordOf(Apply(h, s, e), u) == Some(O.Record(h(p[0].code), 0, p[0].now + 3 * MINUTE)))
            && (p != [] && p[0].user == u && p[0].Verify? ==>
                  RecordOf(Apply(h, s, e), u) == O.VerifyOn(RecordOf(s, u), h(p[0].code), p[0].now).left)
  {
    hide O.VerifyOn, F.AllowOn, F.RemainingOn;
  }

  lemma ShortEvent(s: State, e: Event)
    ensures |OtpEvent(s, e)| <= 1
  {
  }

  /** The stored records are those of the OTP service on the events that reach it. */
  lemma {:induction false} RecordsAreHistory(h: O.Hash, evs: seq<Event>, n: nat, u: string)
    requires n <= |evs|
    ensures RecordOf(StateAt(h, EMPTY, evs, n), u) == O.RecordAt(h, OtpRun(h, evs, n), |OtpRun(h, evs, n)|, u)
  {
    if n == 0 {
    } else {
      RecordsAreHistory(h, evs, n - 1, u);
      var s, e, p := StateAt(h, EMPTY, evs, n - 1), evs[n - 1], OtpRun(h, evs, n - 1);
      hide Apply, OtpEvent;
      RecordStep(h, s, e, u);
      O.SameEvents(h, p, p + OtpEvent(s, e), |p|, u);
      ShortEvent(s, e);
    }
  }

  lemma RepliesAre(h: O.Hash, s: State, e: Event)
    requires e.VerifyOtp?
    ensures var r, o := VerifyStep(h, s, e.user, e.code, e.clk, e.now), O.VerifyOn(RecordOf(s, e.user), h(e.code), e.now);
            && (r.0 == BadRequest <==> !Complete(e))
            && (r.0 == TooMany <==> Complete(e) && !LetsVerify(s, e))
            && (r.0 == Invalid <==> Complete(e) && LetsVerify(s, e) && !o.valid)
            && (r.0 == Verified <==> Complete(e) && LetsVerify(s, e) && o.valid)
            && (r.1 <==> Complete(e) && LetsVerify(s, e) && o.compared)
  {
    hide O.VerifyOn, F.AllowOn;
  }

  /**
   Every answer of a run of a fresh process, from its history: an incomplete request is refused as bad,
   and a complete one exactly when the limiter refuses it as one too many. Of the others exactly those
   are verified whose code hashes to that of the user's last stored send while that code is open: sent at
   most three minutes before, with fewer than three attempts let through since, all in time and missing.
   */
  lemma AnswersAreHistory(h: O.Hash, evs: seq<Event>, n: nat)
    requires n < |evs| && evs[n].VerifyOtp?
    ensures var s, e, reply := StateAt(h, EMPTY, evs, n), evs[n], ReplyAt(h, EMPTY, evs, n);
            var q := OtpRun(h, evs, n) + [O.Verify(e.user, e.code, e.now)];
            && (reply.0 == BadRequest <==> !Complete(e))
            && (reply.0 == TooMany <==> Complete(e) && !LetsVerify(s, e))
            && (reply.0 == Verified <==>
                  Complete(e) && LetsVerify(s, e) && O.Open(h, q, |q| - 1) && O.Matches(h, q, |q| - 1))
            && (reply.1 <==> Complete(e) && LetsVerify(s, e) && O.Open(h, q, |q| - 1))
  {
    var s, e, p := StateAt(h, EMPTY, evs, n), evs[n], OtpRun(h, evs, n);
    var q := p + [O.Verify(e.user, e.code, e.now)];
    RecordsAreHistory(h, evs, n, e.user);
    O.SameEvents(h, p, q, |p|, e.user);
    O.VerifyIsHistory(h, q, |p|);
    RepliesAre(h, s, e);
    hide O.VerifyOn, VerifyStep, O.Open, O.Matches, OtpRun, StateAt;
  }

  /** After a success neither counter of the user is left, and the code is consumed. */
  lemma SuccessClears(h: O.Hash, s: State, e: Event)
    requires e.VerifyOtp? && VerifyStep(h, s, e.user, e.code, e.clk, e.now).0 == Verified
    ensures var s' := Apply(h, s, e);
            "otp:fail:" + e.user !in s'.entries && "otp:send:" + e.user !in s'.entries && e.user !in s'.records
  {
  }

  // ---- Codes sent to one address ----

  /** Other limiter traffic keeps off the send keys. */
  predicate KeepsOffSends(e: Event) {
    (e.OtherAllow? || e.OtherPeek? || e.OtherReset?) ==> !(SEND_PREFIX <= e.key)
  }

  /** No verification succeeds for a user hash that equals the address, which would reset its send counter. */
  ghost predicate NoReset(h: O.Hash, s: State, evs: seq<Event>, email: string) {
    forall i :: 0 <= i < |evs| && evs[i].VerifyOtp? && evs[i].user == email ==> ReplyAt(h, s, evs, i).0 != Verified
  }

  function SendOps(evs: seq<Event>, email: string): (ops: seq<F.Op>)
    ensures |ops| == |evs|
  {
    seq(|evs|, i requires 0 <= i < |evs| =>
      if evs[i].SendOtp? && evs[i].email == email then F.Try(evs[i].clk) else F.Elsewhere(evs[i].clk))
  }

  lemma SendKeysDiffer(e: string, f: string, u: string)
    ensures SendKey(e) == SendKey(f) ==> e == f
    ensures SendKey(e) != FailKey(u) && SEND_PREFIX <= SendKey(e)
  {
    assert SendKey(e)[9..] == e && SendKey(f)[9..] == f;
    assert SendKey(e)[4] == 's' && FailKey(u)[4] == 'f';
  }

  lemma SendCounterStep(h: O.Hash, s: State, e: Event, email: string)
    requires KeepsOffSends(e)
    requires e.VerifyOtp? && e.user == email ==> VerifyStep(h, s, e.user, e.code, e.clk, e.now).0 != Verified
    ensures BucketOf(Apply(h, s, e), SendKey(email))
         == if e.SendOtp? && e.email == email then F.AllowOn(BucketOf(s, SendKey(email)), POLICY_OTP, e.clk).1
            else BucketOf(s, SendKey(email))
  {
    hide O.VerifyOn, F.AllowOn, F.RemainingOn;
    SendKeysDiffer(email, if e.SendOtp? then e.email else if e.VerifyOtp? then e.user else "", if e.VerifyOtp? then e.user else "");
  }

  lemma {:induction false} SendCounterIsOps(h: O.Hash, s: State, evs: seq<Event>, email: string, n: nat)
    requires n <= |evs| && NoReset(h, s, evs, email) && forall i :: 0 <= i < |evs| ==> KeepsOffSends(evs[i])
    ensures BucketOf(StateAt(h, s, evs, n), SendKey(email))
         == F.BucketAt(BucketOf(s, SendKey(email)), POLICY_OTP, SendOps(evs, email), n)
  {
    if n == 0 {
    } else {
      SendCounterIsOps(h, s, evs, email, n - 1);
      var e, d := evs[n - 1], StateAt(h, s, evs, n - 1);
      hide Apply, KeepsOffSends, F.AllowOn;
      if e.VerifyOtp? && e.user == email {
        assert ReplyAt(h, s, evs, n - 1).0 != Verified;
      }
      SendCounterStep(h, d, e, email);
    }
  }

  /** How many of the first n events stored a code for the address in (x - w, x]. */
  function StoredIn(h: O.Hash, s: State, evs: seq<Event>, n: nat, email: string, x: int, w: int): nat
    requires n <= |evs|
  {
    if n == 0 then 0
    else
      var e := evs[n - 1];
      StoredIn(h, s, evs, n - 1, email, x, w)
      + (if e.SendOtp? && e.email == email && LetsSend(StateAt(h, s, evs, n - 1), e) && x - w < e.clk.done <= x then 1 else 0)
  }

  lemma {:induction false} StoredAreAdmissions(h: O.Hash, s: State, evs: seq<Event>, email: string, n: nat, x: int, w: int)
    requires n <= |evs| && NoReset(h, s, evs, email) && forall i :: 0 <= i < |evs| ==> KeepsOffSends(evs[i])
    ensures StoredIn(h, s, evs, n, email, x, w)
         == F.AdmittedIn(BucketOf(s, SendKey(email)), POLICY_OTP, SendOps(evs, email), n, x, w)
  {
    hide F.AllowOn, StateAt, NoReset, KeepsOffSends;
    if n == 0 {
    } else {
      StoredAreAdmissions(h, s, evs, email, n - 1, x, w);
      SendCounterIsOps(h, s, evs, email, n - 1);
    }
  }

  /** Codes are stored for one address at most ten times in any half-open ten minutes without a reset. */
  lemma TenSends(h: O.Hash, s: State, evs: seq<Event>, email: string, x: int)
    requires NoReset(h, s, evs, email) && forall i :: 0 <= i < |evs| ==> KeepsOffSends(evs[i])
    requires F.Ordered(SendOps(evs, email)) && F.Fits(BucketOf(s, SendKey(email)), POLICY_OTP, SendOps(evs, email))
    ensures StoredIn(h, s, evs, |evs|, email, x, 10 * MINUTE) <= 10
  {
    StoredAreAdmissions(h, s, evs, email, |evs|, x, 10 * MINUTE);
    F.TwiceTheLimit(BucketOf(s, SendKey(email)), POLICY_OTP, SendOps(evs, email), |evs|, x);
  }

  // ---- The handler object ----

    lemma RestoredButOne(before: map<string, O.Record>, after: map<string, O.Record>, u: string)
    requires after - {u} == before - {u}
    ensures after == if u in after then before[u := after[u]] else before - {u}
  {
    forall v | v != u ensures (v in after <==> v in before) && (v in after ==> after[v] == before[v]) {
      assert v in after <==> v in after - {u};
      assert v in before <==> v in before - {u};
      if v in after {
        assert (after - {u})[v] == (before - {u})[v];
      }
    }
  }

  class AuthHandler {
    const rl: F.MemoryRateLimiter
    const otp: O.OTPService

    constructor (rl: F.MemoryRateLimiter, otp: O.OTPService)
      ensures this.rl == rl && this.otp == otp
    {
      this.rl, this.otp := rl, otp;
    }

    ghost function View(): State
      reads rl, otp, otp.store
    {
      State(rl.entries, otp.store.records)
    }

    /** The handler does what VerifyStep says, reply and whole state. */
    method VerifyOTP(u: string, code: string, clk: F.Clock, now: int) returns (reply: Reply)
      requires otp.Valid()
      modifies rl, otp, otp.store
      ensures otp.Valid()
      ensures reply == VerifyStep(otp.hash, old(View()), u, code, clk, now).0
      ensures View() == VerifyStep(otp.hash, old(View()), u, code, clk, now).2
    {
      if u == "" || code == "" {
        return BadRequest;
      }
      var allowed := rl.Allow(FailKey(u), POLICY_OTP, clk);
      if !allowed {
        return TooMany;
      }
      ghost var before := otp.store.records;
      var valid := otp.Verify(u, code, now);
      RestoredButOne(before, otp.store.records, u);
      if !valid {
        return Invalid;
      }
      rl.Reset(SendKey(u));
      rl.Reset(FailKey(u));
      reply := Verified;
    }

    /** The send handler from its limiter on, for an existing user. */
    method SendOTP(email: string, u: string, code: string, clk: F.Clock, now: int, delivered: bool) returns (sent: bool)
      requires otp.Valid()
      modifies rl, otp, otp.store
      ensures otp.Valid()
      ensures View() == SendStep(otp.hash, old(View()), email, u, code, clk, now)
      ensures sent <==> F.AllowOn(BucketOf(old(View()), SendKey(email)), POLICY_OTP, clk).0 && delivered
    {
      var allowed := rl.Allow(SendKey(email), POLICY_OTP, clk);
      if !allowed {
        return false;
      }
      sent := otp.Send(u, code, now, delivered);
    }
  }
}
