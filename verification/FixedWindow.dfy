/**
 The in-memory fixed-window limiter behind the RateLimiter port. Functions of the form
 F(b, p, ops, n) speak of the first n operations on one key, from bucket b, under policy p.
 */
module FixedWindow {
  import opened Prelude

  datatype Policy = Policy(maxAttempts: int, window: int)

  datatype Bucket = Bucket(count: int, windowStart: int)

  /**
   The clock readings of one locked call: getOrCreate, time.Since, the new window start, and any
   instant before the call returns, which stamps it.
   */
  datatype Clock = Clock(create: int, since: int, roll: int, done: int)

  /** Allow and GetRemaining on the key, and traffic on other keys. */
  datatype Op = Try(clk: Clock) | Peek(clk: Clock) | Elsewhere(clk: Clock)

  // ---- One call ----

  /** rollWindow: a positive window that has elapsed starts over with no attempts. */
  function Roll(b: Bucket, p: Policy, clk: Clock): Bucket {
    if p.window > 0 && clk.since - b.windowStart >= p.window then Bucket(0, clk.roll) else b
  }

  function Created(b: Option<Bucket>, clk: Clock): Bucket {
    if b.Some? then b.value else Bucket(0, clk.create)
  }

  /** Allow on a nonempty key: the answer and the bucket it leaves. */
  function AllowOn(b: Option<Bucket>, p: Policy, clk: Clock): (bool, Option<Bucket>) {
    if p.maxAttempts <= 0 then (false, b)
    else
      var r := Roll(Created(b, clk), p, clk);
      if r.count >= p.maxAttempts then (false, Some(r)) else (true, Some(r.(count := r.count + 1)))
  }

  /** GetRemaining: the answer and the bucket it leaves. */
  function RemainingOn(b: Option<Bucket>, p: Policy, clk: Clock): (int, Option<Bucket>) {
    if p.maxAttempts <= 0 then (0, b)
    else if b.None? then (p.maxAttempts, b)
    else
      var r := Roll(b.value, p, clk);
      (if p.maxAttempts - r.count < 0 then 0 else p.maxAttempts - r.count, Some(r))
  }

  // ---- Runs on one key ----

  function Apply(b: Option<Bucket>, p: Policy, op: Op): Option<Bucket> {
    match op
    case Try(clk) => AllowOn(b, p, clk).1
    case Peek(clk) => RemainingOn(b, p, clk).1
    case Elsewhere(_) => b
  }

  function BucketAt(b: Option<Bucket>, p: Policy, ops: seq<Op>, n: nat): Option<Bucket>
    requires n <= |ops|
  {
    if n == 0 then b else Apply(BucketAt(b, p, ops, n - 1), p, ops[n - 1])
  }

  predicate Allowed(b: Option<Bucket>, p: Policy, ops: seq<Op>, i: nat)
    requires i < |ops|
  {
    ops[i].Try? && AllowOn(BucketAt(b, p, ops, i), p, ops[i].clk).0
  }

  /** How many of the first n operations were admitted. */
  function Admissions(b: Option<Bucket>, p: Policy, ops: seq<Op>, n: nat): nat
    requires n <= |ops|
  {
    if n == 0 then 0 else Admissions(b, p, ops, n - 1) + (if Allowed(b, p, ops, n - 1) then 1 else 0)
  }

  /** How many of them were admitted at an instant of (x - w, x]. */
  function AdmittedIn(b: Option<Bucket>, p: Policy, ops: seq<Op>, n: nat, x: int, w: int): nat
    requires n <= |ops|
  {
    if n == 0 then 0
    else
      AdmittedIn(b, p, ops, n - 1, x, w)
      + (if Allowed(b, p, ops, n - 1) && x - w < ops[n - 1].clk.done <= x then 1 else 0)
  }

  /** Readings of the clock do not decrease, within a call and from call to call. */
  ghost predicate Ordered(ops: seq<Op>) {
    && (forall i :: 0 <= i < |ops| ==> var k := ops[i].clk; k.create <= k.since <= k.roll <= k.done)
    && (forall i, j :: 0 <= i < j < |ops| ==> ops[i].clk.done <= ops[j].clk.create)
  }

  /** A bucket the policy could have left behind before the operations begin. */
  predicate Fits(b: Option<Bucket>, p: Policy, ops: seq<Op>) {
    b.Some? ==>
      && 0 <= b.value.count <= p.maxAttempts
      && (forall i :: 0 <= i < |ops| ==> b.value.windowStart <= ops[i].clk.create)
  }

  // ---- The bound ----

  lemma {:induction false} CountInRange(b: Option<Bucket>, p: Policy, ops: seq<Op>, n: nat)
    requires n <= |ops| && p.maxAttempts > 0 && Fits(b, p, ops)
    ensures var c := BucketAt(b, p, ops, n); c.Some? ==> 0 <= c.value.count <= p.maxAttempts
  {
    if n == 0 {
    } else {
      CountInRange(b, p, ops, n - 1);
    }
  }

  lemma {:induction false} StartIsPast(b: Option<Bucket>, p: Policy, ops: seq<Op>, n: nat)
    requires n <= |ops| && Fits(b, p, ops) && Ordered(ops)
    ensures var c := BucketAt(b, p, ops, n);
            c.Some? ==> (n > 0 ==> c.value.windowStart <= ops[n - 1].clk.done)
                        && forall i :: n <= i < |ops| ==> c.value.windowStart <= ops[i].clk.create
  {
    if n == 0 {
    } else {
      StartIsPast(b, p, ops, n - 1);
    }
  }

  /**
   Two marks in the past of a live bucket: its own window holds the admissions from index cur on,
   the window before it those from index prev on, and whatever is older is a full window behind.
   */
  ghost predicate Marks(b: Option<Bucket>, p: Policy, ops: seq<Op>, n: nat, prev: nat, cur: nat)
    requires n <= |ops|
  {
    var c := BucketAt(b, p, ops, n);
    && prev <= cur <= n
    && c.Some?
    && (forall i :: 0 <= i < cur ==> ops[i].clk.done <= c.value.windowStart)
    && (forall i :: 0 <= i < prev ==> ops[i].clk.done <= c.value.windowStart - p.window)
    && Admissions(b, p, ops, n) - Admissions(b, p, ops, cur) <= c.value.count
    && Admissions(b, p, ops, n) - Admissions(b, p, ops, prev) <= p.maxAttempts + c.value.count
  }

  // An operation that rolls the window turns the current mark into the previous one.
  lemma MarksStep(b: Option<Bucket>, p: Policy, ops: seq<Op>, n: nat, prev: nat, cur: nat)
      returns (prev': nat, cur': nat)
    requires n < |ops| && p.maxAttempts > 0 && p.window > 0 && Fits(b, p, ops) && Ordered(ops)
    requires Marks(b, p, ops, n, prev, cur)
    ensures Marks(b, p, ops, n + 1, prev', cur')
  {
    var c, clk := BucketAt(b, p, ops, n).value, ops[n].clk;
    CountInRange(b, p, ops, n);
    if !ops[n].Elsewhere? && clk.since - c.windowStart >= p.window {
      prev', cur' := cur, n;
    } else {
      prev', cur' := prev, cur;
    }
  }

  // The operation that creates the bucket leaves both marks at the start.
  lemma FirstMarks(b: Option<Bucket>, p: Policy, ops: seq<Op>, n: nat)
    requires n < |ops| && p.maxAttempts > 0 && p.window > 0
    requires BucketAt(b, p, ops, n).None? && Admissions(b, p, ops, n) == 0
    ensures if BucketAt(b, p, ops, n + 1).Some? then Marks(b, p, ops, n + 1, 0, 0) else Admissions(b, p, ops, n + 1) == 0
  {
  }

  lemma BucketStays(b: Option<Bucket>, p: Policy, ops: seq<Op>, n: nat)
    requires n < |ops| && BucketAt(b, p, ops, n).Some?
    ensures BucketAt(b, p, ops, n + 1).Some?
  {
  }

  lemma StartMarks(b: Option<Bucket>, p: Policy, ops: seq<Op>)
    requires p.maxAttempts > 0 && p.window > 0 && Fits(b, p, ops)
    ensures BucketAt(b, p, ops, 0).Some? ==> Marks(b, p, ops, 0, 0, 0)
    ensures Admissions(b, p, ops, 0) == 0
  {
  }

  lemma {:induction false} FindMarks(b: Option<Bucket>, p: Policy, ops: seq<Op>, n: nat) returns (prev: nat, cur: nat)
    requires n <= |ops| && p.maxAttempts > 0 && p.window > 0 && Fits(b, p, ops) && Ordered(ops)
    ensures BucketAt(b, p, ops, n).Some? ==> Marks(b, p, ops, n, prev, cur)
    ensures BucketAt(b, p, ops, n).None? ==> Admissions(b, p, ops, n) == 0
  {
    hide Ordered, Fits, Marks, BucketAt, Admissions;
    prev, cur := 0, 0;
    if n == 0 {
      StartMarks(b, p, ops);
    } else {
      prev, cur := FindMarks(b, p, ops, n - 1);
      if BucketAt(b, p, ops, n - 1).Some? {
        prev, cur := MarksStep(b, p, ops, n - 1, prev, cur);
        BucketStays(b, p, ops, n - 1);
      } else {
        FirstMarks(b, p, ops, n - 1);
        prev, cur := 0, 0;
      }
    }
  }

  lemma {:induction false} OlderDoNotCount(b: Option<Bucket>, p: Policy, ops: seq<Op>, m: nat, n: nat, x: int, w: int)
    requires m <= n <= |ops| && forall i :: 0 <= i < m ==> ops[i].clk.done <= x - w
    ensures AdmittedIn(b, p, ops, n, x, w) <= Admissions(b, p, ops, n) - Admissions(b, p, ops, m)
  {
    if m < n {
      OlderDoNotCount(b, p, ops, m, n - 1, x, w);
    } else if n > 0 {
      OlderDoNotCount(b, p, ops, n - 1, n - 1, x, w);
    }
  }

  lemma LastAdmissionBounds(b: Option<Bucket>, p: Policy, ops: seq<Op>, n: nat, x: int)
    requires 0 < n <= |ops| && p.maxAttempts > 0 && p.window > 0 && Fits(b, p, ops) && Ordered(ops)
    requires Allowed(b, p, ops, n - 1) && ops[n - 1].clk.done <= x
    ensures AdmittedIn(b, p, ops, n, x, p.window) <= 2 * p.maxAttempts
  {
    var prev, cur := FindMarks(b, p, ops, n);
    CountInRange(b, p, ops, n);
    StartIsPast(b, p, ops, n);
    assert BucketAt(b, p, ops, n).Some?;
    hide AdmittedIn, Admissions, Allowed, Apply, Ordered, Fits;
    OlderDoNotCount(b, p, ops, prev, n, x, p.window);
  }

  /**
   Under one policy and without Reset, a half-open interval as long as the window holds at most
   twice MaxAttempts admissions, wherever the calls' stamps lie and whatever GetRemaining rolls.
   */
  lemma {:induction false} TwiceTheLimit(b: Option<Bucket>, p: Policy, ops: seq<Op>, n: nat, x: int)
    requires n <= |ops| && p.maxAttempts > 0 && p.window > 0 && Fits(b, p, ops) && Ordered(ops)
    ensures AdmittedIn(b, p, ops, n, x, p.window) <= 2 * p.maxAttempts
  {
    hide Ordered, Fits;
    if n == 0 {
    } else {
      if Allowed(b, p, ops, n - 1) && x - p.window < ops[n - 1].clk.done <= x {
        LastAdmissionBounds(b, p, ops, n, x);
      } else {
        TwiceTheLimit(b, p, ops, n - 1, x);
      }
    }
  }

  /** With Window = 0 the counter never expires: MaxAttempts admissions in all, Peeks included. */
  lemma {:induction false} PermanentQuota(b: Option<Bucket>, p: Policy, ops: seq<Op>, n: nat)
    requires n <= |ops| && p.maxAttempts > 0 && p.window <= 0 && Fits(b, p, ops)
    ensures var c := BucketAt(b, p, ops, n);
            Admissions(b, p, ops, n) + (if b.Some? then b.value.count else 0) == (if c.Some? then c.value.count else 0)
    ensures Admissions(b, p, ops, n) <= p.maxAttempts
  {
    CountInRange(b, p, ops, n);
    if n == 0 {
    } else {
      PermanentQuota(b, p, ops, n - 1);
    }
  }

  // ---- Exactly when a call is refused ----

  /** Where a window begins: at operation at, and at instant start. */
  datatype Opening = Opening(at: nat, start: int)

  /** The window running after the operation that reads these times, if o was running before it. */
  function OpeningAfter(o: Option<Opening>, p: Policy, op: Op, n: nat): Option<Opening> {
    if op.Elsewhere? || p.maxAttempts <= 0 || (o.None? && op.Peek?) then o
    else
      var now := if o.Some? then o.value else Opening(n, op.clk.create);
      if p.window > 0 && op.clk.since >= now.start + p.window then Some(Opening(n, op.clk.roll)) else Some(now)
  }

  /**
   The window running after n operations on a fresh key: the first Allow begins one, and the first
   operation on the key that reads the clock when a positive window is over begins the next.
   */
  function Running(p: Policy, ops: seq<Op>, n: nat): Option<Opening>
    requires n <= |ops|
  {
    if n == 0 then None else OpeningAfter(Running(p, ops, n - 1), p, ops[n - 1], n - 1)
  }

  lemma {:induction false} OpensInThePast(p: Policy, ops: seq<Op>, n: nat)
    requires n <= |ops| && Running(p, ops, n).Some?
    ensures Running(p, ops, n).value.at < n
  {
    if n == 0 {
    } else if Running(p, ops, n - 1).Some? {
      OpensInThePast(p, ops, n - 1);
    }
  }

  /** The bucket of a fresh key is the window running and the number of calls admitted since it began. */
  lemma {:induction false} BucketIsHistory(p: Policy, ops: seq<Op>, n: nat)
    requires n <= |ops|
    ensures var o := Running(p, ops, n);
            && (o.None? ==> BucketAt(None, p, ops, n).None? && Admissions(None, p, ops, n) == 0)
            && (o.Some? ==>
                  && o.value.at <= n
                  && BucketAt(None, p, ops, n)
                     == Some(Bucket(Admissions(None, p, ops, n) - Admissions(None, p, ops, o.value.at), o.value.start)))
  {
    if n == 0 {
    } else {
      BucketIsHistory(p, ops, n - 1);
    }
  }

  /**
   On a fresh key a call is admitted exactly when fewer than MaxAttempts calls have been admitted since
   the window it falls into began.
   */
  lemma AllowedExactlyUnderTheLimit(p: Policy, ops: seq<Op>, n: nat)
    requires n < |ops| && ops[n].Try?
    ensures var o := Running(p, ops, n + 1);
            && (p.maxAttempts > 0 ==> o.Some? && o.value.at <= n)
            && (Allowed(None, p, ops, n) <==>
                  p.maxAttempts > 0
                  && Admissions(None, p, ops, n) - Admissions(None, p, ops, o.value.at) < p.maxAttempts)
  {
    BucketIsHistory(p, ops, n);
    if Running(p, ops, n).Some? {
      OpensInThePast(p, ops, n);
    }
  }

  /** Whatever came before, a call a full window after the previous operation is admitted. */
  lemma FreshWindowAdmits(b: Option<Bucket>, p: Policy, ops: seq<Op>, n: nat)
    requires 0 < n < |ops| && ops[n].Try? && p.maxAttempts > 0 && p.window > 0 && Fits(b, p, ops) && Ordered(ops)
    requires ops[n - 1].clk.done + p.window <= ops[n].clk.since
    ensures Allowed(b, p, ops, n)
  {
    StartIsPast(b, p, ops, n);
  }

  // ---- GetRemaining ----

  function Instant(t: int): Clock { Clock(t, t, t, t) }

  lemma {:induction false} RemainingCount(b: Option<Bucket>, p: Policy, t: int, ops: seq<Op>, i: nat)
    requires 0 < i <= |ops| && ops[0] == Peek(Instant(t)) && forall j :: 0 < j < |ops| ==> ops[j] == Try(Instant(t))
    requires b.Some? ==> b.value.count >= 0
    ensures var r, c := RemainingOn(b, p, Instant(t)).0, BucketAt(b, p, ops, i);
            p.maxAttempts > 0 ==>
              if c.None? then b.None? && i == 1
              else
                && (p.window > 0 ==> t - c.value.windowStart < p.window)
                && (if i - 1 <= r then c.value.count == p.maxAttempts - r + (i - 1) || r == 0
                    else c.value.count >= p.maxAttempts)
                && (r == 0 ==> c.value.count >= p.maxAttempts)
  {
    if i == 1 {
    } else {
      RemainingCount(b, p, t, ops, i - 1);
    }
  }

  /**
   GetRemaining answers r at instant t: of the Allow calls that follow at that instant, exactly the
   next r succeed.
   */
  lemma {:induction false} RemainingIsExact(b: Option<Bucket>, p: Policy, t: int, ops: seq<Op>, i: nat)
    requires 0 < i < |ops| && ops[0] == Peek(Instant(t)) && forall j :: 0 < j < |ops| ==> ops[j] == Try(Instant(t))
    requires b.Some? ==> b.value.count >= 0
    ensures var r := RemainingOn(b, p, Instant(t)).0;
            && r >= 0
            && (Allowed(b, p, ops, i) <==> i - 1 < r)
  {
    RemainingCount(b, p, t, ops, i);
  }

  // ---- The limiter object ----

  class MemoryRateLimiter {
    var entries: map<string, Bucket>

    constructor ()
      ensures entries == map[]
    {
      entries := map[];
    }

    function Lookup(key: string): Option<Bucket>
      reads this
    {
      if key in entries then Some(entries[key]) else None
    }

    /** The entries with one key set or removed. */
    static function Put(entries: map<string, Bucket>, key: string, b: Option<Bucket>): map<string, Bucket> {
      if b.Some? then entries[key := b.value] else entries - {key}
    }

    /** An empty key is never allowed; otherwise one key changes, as AllowOn says. */
    method Allow(key: string, p: Policy, clk: Clock) returns (allowed: bool)
      modifies this
      ensures key == "" ==> !allowed && entries == old(entries)
      ensures key != "" ==> allowed == AllowOn(old(Lookup(key)), p, clk).0
      ensures key != "" ==> entries == Put(old(entries), key, AllowOn(old(Lookup(key)), p, clk).1)
    {
      if key == "" || p.maxAttempts <= 0 {
        assert entries - {key} == entries || key in entries;
        return false;
      }
      GetOrCreate(key, clk);
      RollWindow(key, p, clk);
      var b := entries[key];
      if b.count >= p.maxAttempts {
        return false;
      }
      entries := entries[key := b.(count := b.count + 1)];
      allowed := true;
    }

    method GetOrCreate(key: string, clk: Clock)
      modifies this
      ensures entries == old(entries)[key := Created(old(Lookup(key)), clk)]
    {
      if key in entries {
        return;
      }
      entries := entries[key := Bucket(0, clk.create)];
    }

    method RollWindow(key: string, p: Policy, clk: Clock)
      requires key in entries
      modifies this
      ensures entries == old(entries)[key := Roll(old(entries)[key], p, clk)]
    {
      if p.window <= 0 {
        return;
      }
      if clk.since - entries[key].windowStart >= p.window {
        entries := entries[key := Bucket(0, clk.roll)];
      }
    }

    method Reset(key: string)
      modifies this
      ensures entries == Put(old(entries), key, None)
    {
      entries := entries - {key};
    }

    method GetRemaining(key: string, p: Policy, clk: Clock) returns (remaining: int)
      modifies this
      ensures (remaining, Lookup(key)) == RemainingOn(old(Lookup(key)), p, clk)
      ensures entries == Put(old(entries), key, Lookup(key))
    {
      if p.maxAttempts <= 0 {
        return 0;
      }
      if key !in entries {
        return p.maxAttempts;
      }
      RollWindow(key, p, clk);
      remaining := p.maxAttempts - entries[key].count;
      if remaining < 0 {
        remaining := 0;
      }
    }
  }
}
