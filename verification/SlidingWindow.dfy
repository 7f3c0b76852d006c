/**
 The per-key sliding-window limiter of the HTTP middleware. A key's log holds the instants of
 recent admissions; every call prunes it, then admits or denies. Functions of the form F(cs, n)
 speak of the first n of the calls cs made on one key.
 */
module SlidingWindow {
  import opened Prelude

  datatype Call = Call(now: int, limit: int, window: int)

  /** Panicked is the index error of the denial branch when the pruned log is empty. */
  datatype Verdict = Admitted | Denied(retryAfter: int) | Panicked

  /** Those of the first n instants that come after cutoff, in order. */
  function Prune(es: seq<int>, n: nat, cutoff: int): (valid: seq<int>)
    requires n <= |es|
    ensures |valid| <= n
  {
    if n == 0 then []
    else if es[n - 1] > cutoff then Prune(es, n - 1, cutoff) + [es[n - 1]]
    else Prune(es, n - 1, cutoff)
  }

  /** The answer from the pruned log. */
  function Answer(valid: seq<int>, c: Call): (r: (Verdict, seq<int>)) {
    if |valid| < c.limit then (Admitted, valid + [c.now])
    else if valid == [] then (Panicked, valid)
    else (Denied(valid[0] + c.window - c.now), valid)
  }

  /** One call on a key: its verdict and the log it leaves. None means the key is unknown. */
  function Decide(log: Option<seq<int>>, c: Call): (r: (Verdict, seq<int>)) {
    match log
    case None => (Admitted, [c.now])
    case Some(es) => Answer(Prune(es, |es|, c.now - c.window), c)
  }

  /** The log of the key after the first n calls. */
  function Log(cs: seq<Call>, n: nat): Option<seq<int>>
    requires n <= |cs|
  {
    if n == 0 then None else Some(Decide(Log(cs, n - 1), cs[n - 1]).1)
  }

  /** The verdict on call i. */
  function VerdictAt(cs: seq<Call>, i: nat): Verdict
    requires i < |cs|
  {
    Decide(Log(cs, i), cs[i]).0
  }

  predicate Admits(cs: seq<Call>, i: nat)
    requires i < |cs|
  {
    VerdictAt(cs, i).Admitted?
  }

  predicate Inside(t: int, x: int, w: int) { x - w < t <= x }

  /** How many of the first n calls were admitted at an instant of (x - w, x]. */
  function AdmittedIn(cs: seq<Call>, n: nat, x: int, w: int): nat
    requires n <= |cs|
  {
    if n == 0 then 0
    else AdmittedIn(cs, n - 1, x, w) + (if Admits(cs, n - 1) && Inside(cs[n - 1].now, x, w) then 1 else 0)
  }

  /** The same for a real endpoint. */
  function AdmittedInReal(cs: seq<Call>, n: nat, x: real, w: int): nat
    requires n <= |cs|
  {
    if n == 0 then 0
    else
      AdmittedInReal(cs, n - 1, x, w)
      + (if Admits(cs, n - 1) && x - w as real < cs[n - 1].now as real <= x then 1 else 0)
  }

  /** The instants after cutoff of the admitted calls among the first n. */
  function AdmittedSince(cs: seq<Call>, n: nat, cutoff: int): seq<int>
    requires n <= |cs|
  {
    if n == 0 then []
    else if Admits(cs, n - 1) && cs[n - 1].now > cutoff then AdmittedSince(cs, n - 1, cutoff) + [cs[n - 1].now]
    else AdmittedSince(cs, n - 1, cutoff)
  }

  /** Positive windows and a nondecreasing clock; limit and window may differ from call to call. */
  ghost predicate Ordered(cs: seq<Call>) {
    && (forall i :: 0 <= i < |cs| ==> cs[i].window > 0)
    && (forall i, j :: 0 <= i < j < |cs| ==> cs[i].now <= cs[j].now)
  }

  /** One (limit, window) pair for the key, and a nondecreasing clock. */
  ghost predicate Uniform(cs: seq<Call>, limit: int, w: int) {
    && limit >= 1 && w > 0
    && (forall i :: 0 <= i < |cs| ==> cs[i].limit == limit && cs[i].window == w)
    && (forall i, j :: 0 <= i < j < |cs| ==> cs[i].now <= cs[j].now)
  }

  // ---- Pruning ----

  lemma {:induction false} PrunePrefix(es: seq<int>, t: int, n: nat, cutoff: int)
    requires n <= |es|
    ensures Prune(es + [t], n, cutoff) == Prune(es, n, cutoff)
  {
    if n == 0 {
    } else {
      PrunePrefix(es, t, n - 1, cutoff);
    }
  }

  lemma PruneLast(es: seq<int>, t: int, cutoff: int)
    ensures Prune(es + [t], |es| + 1, cutoff)
            == (if t > cutoff then Prune(es, |es|, cutoff) + [t] else Prune(es, |es|, cutoff))
  {
    PrunePrefix(es, t, |es|, cutoff);
  }

  lemma {:induction false} PruneKeepsAll(es: seq<int>, n: nat, cutoff: int)
    requires n <= |es| && forall i :: 0 <= i < n ==> cutoff < es[i]
    ensures Prune(es, n, cutoff) == es[..n]
  {
    if n == 0 {
    } else {
      PruneKeepsAll(es, n - 1, cutoff);
      assert es[..n] == es[..n - 1] + [es[n - 1]];
    }
  }

  lemma {:induction false} PruneDrops(es: seq<int>, n: nat, cutoff: int)
    requires 0 < n <= |es| && es[0] <= cutoff
    ensures |Prune(es, n, cutoff)| < n
  {
    if n == 1 {
    } else {
      PruneDrops(es, n - 1, cutoff);
    }
  }

  // ---- What the log remembers ----

  function Max(a: int, b: int): int { if a < b then b else a }

  /** The latest cutoff any of the first n calls pruned at. */
  function Horizon(cs: seq<Call>, n: nat): int
    requires 0 < n <= |cs|
  {
    var cutoff := cs[n - 1].now - cs[n - 1].window;
    if n == 1 then cutoff else Max(Horizon(cs, n - 1), cutoff)
  }

  lemma {:induction false} HorizonIsPast(cs: seq<Call>, n: nat)
    requires Ordered(cs) && 0 < n <= |cs|
    ensures Horizon(cs, n) < cs[n - 1].now
  {
    if n == 1 {
    } else {
      HorizonIsPast(cs, n - 1);
    }
  }

  // Pruning again is keeping what lies after both cutoffs.
  lemma {:induction false} PruneSince(cs: seq<Call>, n: nat, cutoff: int, later: int)
    requires n <= |cs|
    ensures var es := AdmittedSince(cs, n, cutoff);
            Prune(es, |es|, later) == AdmittedSince(cs, n, Max(cutoff, later))
  {
    if n == 0 {
    } else {
      PruneSince(cs, n - 1, cutoff, later);
      PruneLast(AdmittedSince(cs, n - 1, cutoff), cs[n - 1].now, later);
    }
  }

  /**
   For any calls on the key, whatever their pairs: the log is exactly the admitted instants after
   the latest cutoff used so far.
   */
  lemma {:induction false} LogSinceHorizon(cs: seq<Call>, n: nat)
    requires Ordered(cs) && 0 < n <= |cs|
    ensures Log(cs, n) == Some(AdmittedSince(cs, n, Horizon(cs, n)))
  {
    if n > 1 {
      hide Prune;
      var c := cs[n - 1];
      LogSinceHorizon(cs, n - 1);
      HorizonIsPast(cs, n - 1);
      PruneSince(cs, n - 1, Horizon(cs, n - 1), c.now - c.window);
    } else {
      assert Admits(cs, 0) && [] + [cs[0].now] == [cs[0].now];
      assert AdmittedSince(cs, 1, Horizon(cs, 1)) == AdmittedSince(cs, 0, Horizon(cs, 1)) + [cs[0].now];
    }
  }

  lemma {:induction false} SinceCounts(cs: seq<Call>, n: nat, x: int, w: int)
    requires n <= |cs| && forall i :: 0 <= i < n ==> cs[i].now <= x
    ensures |AdmittedSince(cs, n, x - w)| == AdmittedIn(cs, n, x, w)
  {
    if n == 0 {
    } else {
      SinceCounts(cs, n - 1, x, w);
    }
  }

  /** An admission inside the interval that an earlier call pruned away. */
  ghost predicate Forgotten(cs: seq<Call>, n: nat, x: int, w: int)
    requires 0 < n <= |cs|
  {
    exists i :: 0 <= i < n && Admits(cs, i) && x - w < cs[i].now <= Horizon(cs, n)
  }

  lemma {:induction false} ForgottenCount(cs: seq<Call>, n: nat, c1: int, c2: int)
    requires n <= |cs| && c1 <= c2
    ensures |AdmittedSince(cs, n, c2)| <= |AdmittedSince(cs, n, c1)|
    ensures |AdmittedSince(cs, n, c2)| < |AdmittedSince(cs, n, c1)|
            <==> exists i :: 0 <= i < n && Admits(cs, i) && c1 < cs[i].now <= c2
  {
    hide Admits;
    if n == 0 {
    } else {
      ForgottenCount(cs, n - 1, c1, c2);
    }
  }

  // The verdict counts the admissions after the latest cutoff, this call's own included.
  lemma VerdictCounts(cs: seq<Call>, n: nat)
    requires Ordered(cs) && 0 < n < |cs|
    ensures var c := cs[n];
            && (Admits(cs, n) <==> |AdmittedSince(cs, n, Max(Horizon(cs, n), c.now - c.window))| < c.limit)
            && (VerdictAt(cs, n).Panicked?
                <==> c.limit <= 0 && AdmittedSince(cs, n, Max(Horizon(cs, n), c.now - c.window)) == [])
  {
    hide Prune, AdmittedSince, Log, Horizon;
    LogSinceHorizon(cs, n);
    PruneSince(cs, n, Horizon(cs, n), cs[n].now - cs[n].window);
  }

  lemma {:induction false} SinceIsEmpty(cs: seq<Call>, n: nat, cutoff: int)
    requires n <= |cs|
    ensures AdmittedSince(cs, n, cutoff) == [] <==> forall i :: 0 <= i < n && Admits(cs, i) ==> cs[i].now <= cutoff
  {
    hide Log, Prune, Admits;
    if n == 0 {
    } else {
      SinceIsEmpty(cs, n - 1, cutoff);
    }
  }

  /**
   The denial branch indexes an empty log exactly when the key is known, the limit is not positive, and
   no admission came after both this call's cutoff and every cutoff used before.
   */
  lemma PanicsExactlyWhenLogIsEmpty(cs: seq<Call>, n: nat)
    requires Ordered(cs) && n < |cs|
    ensures VerdictAt(cs, n).Panicked?
       <==> && n > 0
            && cs[n].limit <= 0
            && forall i :: 0 <= i < n && Admits(cs, i) ==> cs[i].now <= Max(Horizon(cs, n), cs[n].now - cs[n].window)
  {
    if n == 0 {
    } else {
      VerdictCounts(cs, n);
      SinceIsEmpty(cs, n, Max(Horizon(cs, n), cs[n].now - cs[n].window));
    }
  }

  /**
   When pairs differ, call n decides as a limiter that remembers every admission would, for every
   limit it could carry, if and only if no admission still inside its window was pruned by an
   earlier call with a later cutoff.
   */
  lemma AgreesExactlyWhenNothingForgotten(cs: seq<Call>, n: nat)
    requires Ordered(cs) && 0 < n < |cs|
    ensures var c := cs[n];
            (forall l :: l >= 1 ==>
               (Decide(Log(cs, n), c.(limit := l)).0.Admitted? <==> AdmittedIn(cs, n, c.now, c.window) < l))
            <==> !Forgotten(cs, n, c.now, c.window)
  {
    hide Prune, AdmittedSince, AdmittedIn, Log, Horizon, Admits;
    var c := cs[n];
    var cutoff := c.now - c.window;
    var kept := |AdmittedSince(cs, n, Max(Horizon(cs, n), cutoff))|;
    LogSinceHorizon(cs, n);
    PruneSince(cs, n, Horizon(cs, n), cutoff);
    SinceCounts(cs, n, c.now, c.window);
    ForgottenCount(cs, n, cutoff, Max(Horizon(cs, n), cutoff));
    assert Decide(Log(cs, n), c.(limit := kept + 1)).0.Admitted?;
  }

  /** Call n decides on a log that lacks an admission inside its window. */
  ghost predicate Forgets(cs: seq<Call>, n: nat) {
    0 < n < |cs| && Forgotten(cs, n, cs[n].now, cs[n].window)
  }

  predicate OnlyWindows(cs: seq<Call>, v: int, w: int) {
    forall i :: 0 <= i < |cs| ==> cs[i].window == v || cs[i].window == w
  }

  lemma {:induction false} HorizonAtMost(cs: seq<Call>, n: nat, x: int)
    requires 0 < n <= |cs| && forall i :: 0 <= i < n ==> cs[i].now - cs[i].window <= x
    ensures Horizon(cs, n) <= x
  {
    if n == 1 {
    } else {
      HorizonAtMost(cs, n - 1, x);
    }
  }

  lemma ForgettingRun(v: int, w: int)
    requires 0 < v < w
    ensures var cs := [Call(0, 1, w), Call(v, 1, v), Call(v, 1, w)];
            Ordered(cs) && OnlyWindows(cs, v, w) && Forgotten(cs, 2, v, w)
  {
    var cs := [Call(0, 1, w), Call(v, 1, v), Call(v, 1, w)];
    assert Horizon(cs, 1) == 0 - w;
    assert Horizon(cs, 2) == 0;
    assert Admits(cs, 0) && cs[0].now == 0;
  }

  /** Calls of one key forget something, for some traffic, exactly when two windows share the key, whatever the limits. */
  lemma ForgettingNeedsTwoWindows(v: int, w: int)
    requires v > 0 && w > 0
    ensures (exists cs, n: nat :: Ordered(cs) && OnlyWindows(cs, v, w) && Forgets(cs, n)) <==> v != w
  {
    if v < w {
      ForgettingRun(v, w);
      assert Forgets([Call(0, 1, w), Call(v, 1, v), Call(v, 1, w)], 2);
    } else if w < v {
      ForgettingRun(w, v);
      var cs := [Call(0, 1, v), Call(w, 1, w), Call(w, 1, v)];
      assert OnlyWindows(cs, v, w) && Forgets(cs, 2);
    } else {
      forall cs: seq<Call>, n: nat | Ordered(cs) && OnlyWindows(cs, v, w) && 0 < n < |cs| ensures !Forgets(cs, n) {
        HorizonAtMost(cs, n, cs[n].now - cs[n].window);
      }
    }
  }

  // ---- Refinement of the limiter that never forgets ----

  /** The reference limiter: it admits when fewer than limit of all its admissions lie in the window. */
  predicate Reference(cs: seq<Call>, i: nat)
    requires i < |cs|
    decreases i, 1
  {
    ReferenceIn(cs, i, cs[i].now, cs[i].window) < cs[i].limit
  }

  function ReferenceIn(cs: seq<Call>, n: nat, x: int, w: int): nat
    requires n <= |cs|
    decreases n, 0
  {
    if n == 0 then 0
    else ReferenceIn(cs, n - 1, x, w) + (if Reference(cs, n - 1) && Inside(cs[n - 1].now, x, w) then 1 else 0)
  }

  lemma {:induction false} HorizonIsLastCutoff(cs: seq<Call>, limit: int, w: int, n: nat)
    requires Uniform(cs, limit, w) && 0 < n <= |cs|
    ensures Horizon(cs, n) == cs[n - 1].now - w
  {
    if n == 1 {
    } else {
      HorizonIsLastCutoff(cs, limit, w, n - 1);
    }
  }

  /** The pruned log is exactly the part of the full admission history still inside the window. */
  lemma LogIsRecentHistory(cs: seq<Call>, limit: int, w: int, n: nat)
    requires Uniform(cs, limit, w) && 0 < n <= |cs|
    ensures Log(cs, n) == Some(AdmittedSince(cs, n, cs[n - 1].now - w))
  {
    LogSinceHorizon(cs, n);
    HorizonIsLastCutoff(cs, limit, w, n);
  }

  lemma AdmitsByCount(cs: seq<Call>, limit: int, w: int, n: nat)
    requires Uniform(cs, limit, w) && n < |cs|
    ensures Admits(cs, n) <==> AdmittedIn(cs, n, cs[n].now, w) < limit
    ensures !VerdictAt(cs, n).Panicked?
  {
    if n > 0 {
      VerdictCounts(cs, n);
      HorizonIsLastCutoff(cs, limit, w, n);
      SinceCounts(cs, n, cs[n].now, w);
    }
  }

  lemma {:induction false} SameAdmissions(cs: seq<Call>, limit: int, w: int, n: nat, x: int)
    requires Uniform(cs, limit, w) && n <= |cs|
    ensures AdmittedIn(cs, n, x, w) == ReferenceIn(cs, n, x, w)
    decreases n, 0
  {
    if n == 0 {
    } else {
      SameAdmissions(cs, limit, w, n - 1, x);
      DecidesAsReference(cs, limit, w, n - 1);
    }
  }

  /** Every decision is the one the limiter that remembers everything takes. */
  lemma {:induction false} DecidesAsReference(cs: seq<Call>, limit: int, w: int, n: nat)
    requires Uniform(cs, limit, w) && n < |cs|
    ensures Admits(cs, n) <==> Reference(cs, n)
    decreases n, 1
  {
    AdmitsByCount(cs, limit, w, n);
    SameAdmissions(cs, limit, w, n, cs[n].now);
  }

  // ---- The bound ----

  lemma {:induction false} LaterIntervalHoldsLess(cs: seq<Call>, n: nat, now: int, x: int, w: int)
    requires n <= |cs| && now <= x && forall i :: 0 <= i < n ==> cs[i].now <= now
    ensures AdmittedIn(cs, n, x, w) <= AdmittedIn(cs, n, now, w)
  {
    if n == 0 {
    } else {
      LaterIntervalHoldsLess(cs, n - 1, now, x, w);
    }
  }

  lemma {:induction false} WindowBoundAt(cs: seq<Call>, limit: int, w: int, n: nat, x: int)
    requires Uniform(cs, limit, w) && n <= |cs|
    ensures AdmittedIn(cs, n, x, w) <= limit
  {
    if n == 0 {
    } else {
      WindowBoundAt(cs, limit, w, n - 1, x);
      if cs[n - 1].now <= x {
        AdmitsByCount(cs, limit, w, n - 1);
        LaterIntervalHoldsLess(cs, n - 1, cs[n - 1].now, x, w);
      }
    }
  }

  lemma {:induction false} RealInterval(cs: seq<Call>, n: nat, x: real, w: int)
    requires n <= |cs|
    ensures AdmittedInReal(cs, n, x, w) == AdmittedIn(cs, n, x.Floor, w)
  {
    if n == 0 {
    } else {
      RealInterval(cs, n - 1, x, w);
    }
  }

  /** No half-open interval of the window's length, at any real endpoint, holds more than limit admissions. */
  lemma WindowBound(cs: seq<Call>, limit: int, w: int, x: real)
    requires Uniform(cs, limit, w)
    ensures AdmittedInReal(cs, |cs|, x, w) <= limit
  {
    RealInterval(cs, |cs|, x, w);
    WindowBoundAt(cs, limit, w, |cs|, x.Floor);
  }

  // ---- Optimality ----

  /** How many of the first n calls policy p admits. */
  function Picks(p: seq<bool>, n: nat): nat
    requires n <= |p|
  {
    if n == 0 then 0 else Picks(p, n - 1) + (if p[n - 1] then 1 else 0)
  }

  /** How many of the first n calls policy p admits at an instant of (x - w, x]. */
  function PicksIn(cs: seq<Call>, p: seq<bool>, n: nat, x: int, w: int): nat
    requires n <= |cs| == |p|
  {
    if n == 0 then 0
    else PicksIn(cs, p, n - 1, x, w) + (if p[n - 1] && Inside(cs[n - 1].now, x, w) then 1 else 0)
  }

  /** A policy that admits at most limit of the calls in every half-open interval of length w. */
  ghost predicate Legal(cs: seq<Call>, p: seq<bool>, limit: int, w: int) {
    && |p| == |cs|
    && forall x :: PicksIn(cs, p, |cs|, x, w) <= limit
  }

  /** The policy of the limiter. */
  function Choices(cs: seq<Call>): (p: seq<bool>)
    ensures |p| == |cs|
  {
    seq(|cs|, i requires 0 <= i < |cs| => Admits(cs, i))
  }

  lemma {:induction false} ChoicesIn(cs: seq<Call>, n: nat, x: int, w: int)
    requires n <= |cs|
    ensures PicksIn(cs, Choices(cs), n, x, w) == AdmittedIn(cs, n, x, w)
  {
    if n == 0 {
    } else {
      ChoicesIn(cs, n - 1, x, w);
    }
  }

  /** The limiter is itself one of the legal policies. */
  lemma LimiterIsLegal(cs: seq<Call>, limit: int, w: int)
    requires Uniform(cs, limit, w)
    ensures Legal(cs, Choices(cs), limit, w)
  {
    forall x ensures PicksIn(cs, Choices(cs), |cs|, x, w) <= limit {
      ChoicesIn(cs, |cs|, x, w);
      WindowBoundAt(cs, limit, w, |cs|, x);
    }
  }

  lemma {:induction false} PicksGrow(cs: seq<Call>, p: seq<bool>, m: nat, n: nat, x: int, w: int)
    requires m <= n <= |cs| == |p|
    ensures PicksIn(cs, p, m, x, w) <= PicksIn(cs, p, n, x, w)
  {
    if m == n {
    } else {
      PicksGrow(cs, p, m, n - 1, x, w);
    }
  }

  // Between m and n every call lies in the interval; before m none does.
  lemma {:induction false} PicksBetween(cs: seq<Call>, p: seq<bool>, m: nat, n: nat, x: int, w: int)
    requires m <= n <= |cs| == |p|
    requires forall i :: 0 <= i < m ==> cs[i].now <= x - w
    requires forall i :: m <= i < n ==> Inside(cs[i].now, x, w)
    ensures PicksIn(cs, p, n, x, w) == Picks(p, n) - Picks(p, m)
  {
    if m < n {
      PicksBetween(cs, p, m, n - 1, x, w);
    } else if n > 0 {
      PicksBetween(cs, p, n - 1, n - 1, x, w);
    }
  }

  lemma {:induction false} FirstAfter(cs: seq<Call>, n: nat, cutoff: int) returns (m: nat)
    requires n <= |cs| && forall i, j :: 0 <= i < j < |cs| ==> cs[i].now <= cs[j].now
    ensures m <= n
    ensures forall i :: 0 <= i < m ==> cs[i].now <= cutoff
    ensures forall i :: m <= i < n ==> cutoff < cs[i].now
  {
    if n == 0 || cs[n - 1].now <= cutoff {
      m := n;
    } else {
      m := FirstAfter(cs, n - 1, cutoff);
    }
  }

  // Call n is denied: the interval ending there already holds limit admissions, and p has at most
  // limit in it. The calls before the interval start at index m.
  lemma DenialCatchesUp(cs: seq<Call>, p: seq<bool>, limit: int, w: int, n: nat, m: nat)
    requires Uniform(cs, limit, w) && Legal(cs, p, limit, w) && m <= n < |cs| && !Admits(cs, n)
    requires forall i :: 0 <= i < m ==> cs[i].now <= cs[n].now - w
    requires forall i :: m <= i <= n ==> cs[n].now - w < cs[i].now
    requires Picks(p, m) <= Picks(Choices(cs), m)
    ensures Picks(p, n + 1) <= Picks(Choices(cs), n)
  {
    var x := cs[n].now;
    hide Picks, PicksIn, AdmittedIn, Admits;
    AdmitsByCount(cs, limit, w, n);
    ChoicesIn(cs, n, x, w);
    PicksBetween(cs, Choices(cs), m, n, x, w);
    PicksBetween(cs, p, m, n + 1, x, w);
    PicksGrow(cs, p, n + 1, |cs|, x, w);
  }

  /**
   Greedy optimality: among the first n calls the limiter admits at least as many as any policy
   that respects the limit in every interval.
   */
  lemma {:induction false} GreedyOptimal(cs: seq<Call>, p: seq<bool>, limit: int, w: int, n: nat)
    requires Uniform(cs, limit, w) && Legal(cs, p, limit, w) && n <= |cs|
    ensures Picks(p, n) <= Picks(Choices(cs), n)
  {
    hide Legal, Log, Decide;
    if n == 0 {
    } else {
      GreedyOptimal(cs, p, limit, w, n - 1);
      if !Admits(cs, n - 1) {
        var m := FirstAfter(cs, n - 1, cs[n - 1].now - w);
        GreedyOptimal(cs, p, limit, w, m);
        DenialCatchesUp(cs, p, limit, w, n - 1, m);
      }
    }
  }

  lemma {:induction false} FindPick(p: seq<bool>, n: nat, k: nat) returns (i: nat)
    requires n <= |p| && k < Picks(p, n)
    ensures i < n && p[i] && Picks(p, i) == k
  {
    if k < Picks(p, n - 1) {
      i := FindPick(p, n - 1, k);
    } else {
      i := n - 1;
    }
  }

  /** The k-th admission comes no later than the k-th admission of any legal policy. */
  lemma KthAdmissionNoLater(cs: seq<Call>, p: seq<bool>, limit: int, w: int, j: nat) returns (i: nat)
    requires Uniform(cs, limit, w) && Legal(cs, p, limit, w) && j < |cs|
    requires p[j]
    ensures i <= j && Admits(cs, i) && Picks(Choices(cs), i) == Picks(p, j)
    ensures cs[i].now <= cs[j].now
  {
    GreedyOptimal(cs, p, limit, w, j + 1);
    i := FindPick(Choices(cs), j + 1, Picks(p, j));
  }

  // ---- Waiting time ----

  lemma {:induction false} SinceSorted(cs: seq<Call>, n: nat, cutoff: int)
    requires n <= |cs| && forall i, j :: 0 <= i < j < |cs| ==> cs[i].now <= cs[j].now
    ensures var es := AdmittedSince(cs, n, cutoff);
            && (es != [] ==> n > 0)
            && forall i :: 0 <= i < |es| ==> es[0] <= es[i] <= cs[n - 1].now && cutoff < es[i]
  {
    if n == 0 {
    } else {
      SinceSorted(cs, n - 1, cutoff);
      assert n > 1 ==> cs[n - 2].now <= cs[n - 1].now;
      var earlier := AdmittedSince(cs, n - 1, cutoff);
      assert earlier != [] ==> (earlier + [cs[n - 1].now])[0] == earlier[0];
    }
  }

  // A denied call leaves a log of exactly limit instants, and waits for the first to expire.
  lemma DeniedLogIsFull(cs: seq<Call>, limit: int, w: int, n: nat)
    requires Uniform(cs, limit, w) && n < |cs| && VerdictAt(cs, n).Denied?
    ensures var es := AdmittedSince(cs, n, cs[n].now - w);
            && |es| == limit
            && Log(cs, n + 1) == Some(es)
            && (forall i :: 0 <= i < |es| ==> es[0] <= es[i])
            && cs[n].now - w < es[0] <= cs[n].now
            && VerdictAt(cs, n) == Denied(es[0] + w - cs[n].now)
  {
    hide Prune, AdmittedSince, AdmittedIn, Admits;
    LogIsRecentHistory(cs, limit, w, n);
    PruneSince(cs, n, cs[n - 1].now - w, cs[n].now - w);
    SinceCounts(cs, n, cs[n].now, w);
    WindowBoundAt(cs, limit, w, n, cs[n].now);
    SinceSorted(cs, n, cs[n].now - w);
  }

  // A full log denies until its oldest entry leaves the window, without changing.
  lemma FullLogAnswers(es: seq<int>, c: Call)
    requires |es| == c.limit >= 1 && forall i :: 0 <= i < |es| ==> es[0] <= es[i]
    ensures var r := Decide(Some(es), c);
            if c.now < es[0] + c.window then r == (Denied(es[0] + c.window - c.now), es) else r.0.Admitted?
  {
    if c.now < es[0] + c.window {
      PruneKeepsAll(es, |es|, c.now - c.window);
      assert es[..|es|] == es;
    } else {
      PruneDrops(es, |es|, c.now - c.window);
    }
  }

  /**
   Retry-After is exact. Call n was denied with waiting time r, and up to call m the key sees only
   asks before cs[n].now + r. Then 0 < r <= w and call m is denied, with the remaining wait, when it
   comes before cs[n].now + r, and admitted when it comes at that instant or later.
   */
  lemma {:induction false} RetryAfterIsExact(cs: seq<Call>, limit: int, w: int, n: nat, m: nat)
    requires Uniform(cs, limit, w) && n < m < |cs| && VerdictAt(cs, n).Denied?
    requires forall i :: n < i < m ==> cs[i].now < cs[n].now + VerdictAt(cs, n).retryAfter
    ensures var r := VerdictAt(cs, n).retryAfter;
            && 0 < r <= w
            && (if cs[m].now < cs[n].now + r then VerdictAt(cs, m) == Denied(cs[n].now + r - cs[m].now)
                else VerdictAt(cs, m) == Admitted)
            && Log(cs, m) == Log(cs, n + 1)
  {
    DeniedLogIsFull(cs, limit, w, n);
    var es := Log(cs, n + 1).value;
    if n + 1 < m {
      RetryAfterIsExact(cs, limit, w, n, m - 1);
      FullLogAnswers(es, cs[m - 1]);
    }
    FullLogAnswers(es, cs[m]);
  }

  // ---- A key shared by two pairs ----

  const IP_RULE_LIMIT := 10
  const IP_RULE_WINDOW := 5 * MINUTE
  const GENERAL_LIMIT := 100
  const GENERAL_WINDOW := MINUTE

  function RuleCall(now: int): Call { Call(now, IP_RULE_LIMIT, IP_RULE_WINDOW) }

  function GeneralCall(now: int): Call { Call(now, GENERAL_LIMIT, GENERAL_WINDOW) }

  lemma AdmitsNext(es: seq<int>, c: Call)
    requires (forall i :: 0 <= i < |es| ==> es[i] == 0) && c.now == 0 && c.window > 0 && |es| < c.limit
    ensures Decide(Some(es), c) == (Admitted, es + [0])
  {
    hide Prune;
    PruneKeepsAll(es, |es|, 0 - c.window);
    assert es[..|es|] == es;
  }

  lemma {:induction false} BurstFills(cs: seq<Call>, n: nat)
    requires n <= |cs| && n <= 10
    requires forall i :: 0 <= i < n ==> cs[i] == if i % 2 == 0 then RuleCall(0) else GeneralCall(0)
    ensures AdmittedIn(cs, n, 61 * SECOND, IP_RULE_WINDOW) == n
    ensures n > 0 ==> Log(cs, n).Some? && |Log(cs, n).value| == n
    ensures n > 0 ==> forall i :: 0 <= i < n ==> Log(cs, n).value[i] == 0
  {
    hide Answer, Prune;
    if n == 0 {
    } else {
      BurstFills(cs, n - 1);
      if n > 1 {
        AdmitsNext(Log(cs, n - 1).value, cs[n - 1]);
      }
    }
  }

  lemma {:induction false} PruneDropsAll(es: seq<int>, n: nat, cutoff: int)
    requires n <= |es| && forall i :: 0 <= i < n ==> es[i] <= cutoff
    ensures Prune(es, n, cutoff) == []
  {
    if n == 0 {
    } else {
      PruneDropsAll(es, n - 1, cutoff);
    }
  }

  /**
   The default rules and the general limit share the key of an IP address, and a request that a rule
   admits goes on to the general limit. Five such requests at 0 fill the rule's five minutes with ten
   admissions; at 61 s a request without a rule prunes them all, so the next request passes the rule as
   the key's twelfth admission although all ten are still inside its window.
   */
  lemma SharedKeyBreaksTheRule(cs: seq<Call>)
    requires |cs| == 12
    requires forall i :: 0 <= i < 10 ==> cs[i] == if i % 2 == 0 then RuleCall(0) else GeneralCall(0)
    requires cs[10] == GeneralCall(61 * SECOND) && cs[11] == RuleCall(61 * SECOND)
    ensures Ordered(cs)
    ensures Admits(cs, 11)
    ensures AdmittedIn(cs, 11, 61 * SECOND, 5 * MINUTE) == 11 > 10 == cs[11].limit && cs[11].window == 5 * MINUTE
  {
    BurstFills(cs, 10);
    hide Prune;
    var es := Log(cs, 10).value;
    PruneDropsAll(es, 10, SECOND);
    assert Decide(Log(cs, 10), cs[10]) == (Admitted, [] + [61 * SECOND]);
    assert [] + [61 * SECOND] == [61 * SECOND];
    assert Prune([61 * SECOND], 1, 61 * SECOND - IP_RULE_WINDOW) == [61 * SECOND] by {
      PruneKeepsAll([61 * SECOND], 1, 61 * SECOND - IP_RULE_WINDOW);
    }
    assert Admits(cs, 10);
  }

  // ---- The limiter object ----

  lemma {:induction false} SamePast(cs: seq<Call>, ds: seq<Call>, n: nat)
    requires n <= |cs| && n <= |ds| && forall i :: 0 <= i < n ==> cs[i] == ds[i]
    ensures Log(cs, n) == Log(ds, n)
  {
    if n == 0 {
    } else {
      SamePast(cs, ds, n - 1);
    }
  }

  /** The body of a call on a known key: prune in a loop, then deny or append. */
  method Consult(entries: seq<int>, limit: int, window: int, now: int) returns (v: Verdict, entries': seq<int>)
    ensures (v, entries') == Decide(Some(entries), Call(now, limit, window))
  {
    var cutoff := now - window;
    var valid := [];
    for i := 0 to |entries|
      invariant valid == Prune(entries, i, cutoff)
    {
      var t := entries[i];
      if t > cutoff {
        valid := valid + [t];
      }
    }
    if |valid| >= limit {
      return if valid == [] then Panicked else Denied(valid[0] + window - now), valid;
    }
    return Admitted, valid + [now];
  }

  datatype Window = Window(entries: seq<int>, limit: int, window: int)

  /** The mutex-guarded map of windows; calls remembers all traffic of every key. */
  class RateLimiter {
    var windows: map<string, Window>
    ghost var calls: map<string, seq<Call>>

    ghost predicate Valid()
      reads this
    {
      && calls.Keys == windows.Keys
      && (forall k :: k in windows ==> calls[k] != [] && Log(calls[k], |calls[k]|) == Some(windows[k].entries))
    }

    /** All earlier calls on a key. */
    ghost function Traffic(key: string): seq<Call>
      reads this
    {
      if key in calls then calls[key] else []
    }

    constructor ()
      ensures Valid() && calls == map[] && windows == map[]
    {
      windows, calls := map[], map[];
    }

    /**
     The call joins the traffic of its key, and its verdict is the one the specification gives after
     that key's earlier traffic; other keys have no influence and are not changed.
     */
    method Allow(key: string, limit: int, window: int, now: int) returns (v: Verdict)
      requires Valid()
      modifies this
      ensures Valid()
      ensures calls == old(calls)[key := old(Traffic(key)) + [Call(now, limit, window)]]
      ensures v == VerdictAt(calls[key], |old(Traffic(key))|)
    {
      hide Prune;
      ghost var past := Traffic(key);
      ghost var all := past + [Call(now, limit, window)];
      SamePast(past, all, |past|);
      assert Log(all, |all|) == Some(Decide(Log(past, |past|), all[|past|]).1);
      hide Log;
      calls := calls[key := all];
      if key !in windows {
        windows := windows[key := Window([now], limit, window)];
        return Admitted;
      }
      hide Decide;
      var sw := windows[key];
      var entries;
      v, entries := Consult(sw.entries, limit, window, now);
      windows := windows[key := sw.(entries := entries)];
    }
  }
}
