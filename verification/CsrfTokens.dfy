/**
 The CSRF token map. A GET issues a token; an unsafe request consumes one in a first locked section and,
 if it matches the cookie, issues the next one in a second. Requests interleave between the sections.
 An action that is not enabled, or that reuses a random token, leaves the state alone.
 */
module CsrfTokens {
  import opened Prelude

  /** waiting holds the requests between their two sections. */
  datatype State = State(
    live: set<string>,
    waiting: set<nat>,
    issued: set<string>,
    spent: set<string>,
    gets: nat,
    admitted: nat,
    mismatched: nat)

  datatype Action =
    | Get(token: string)
    | Consume(r: nat, got: string, expected: string)
    | Reissue(r: nat, token: string)

  predicate Enabled(s: State, a: Action) {
    match a
    case Get(token) => token !in s.issued
    case Consume(r, _, _) => r !in s.waiting
    case Reissue(r, token) => r in s.waiting && token !in s.issued
  }

  predicate Valid(s: State, got: string) { got in s.live }

  function Issue(s: State, token: string): State { s.(live := s.live + {token}, issued := s.issued + {token}) }

  function Apply(s: State, a: Action): State {
    match a
    case Get(token) => Issue(s, token).(gets := s.gets + 1)
    case Consume(r, got, expected) =>
      if !Valid(s, got) then s
      else
        var s' := s.(live := s.live - {got}, spent := s.spent + {got});
        if got != expected then s'.(mismatched := s.mismatched + 1) else s'.(waiting := s.waiting + {r})
    case Reissue(r, token) => Issue(s, token).(waiting := s.waiting - {r}, admitted := s.admitted + 1)
  }

  // ---- Invariant ----

  predicate Inv(s: State) {
    && s.live == s.issued - s.spent
    && s.spent <= s.issued
    && |s.issued| == s.gets + s.admitted
    && |s.spent| == s.admitted + |s.waiting| + s.mismatched
  }

  lemma Spend(issued: set<string>, spent: set<string>, x: string)
    requires spent <= issued && x in issued - spent
    ensures issued - spent - {x} == issued - (spent + {x})
    ensures spent + {x} <= issued && |spent + {x}| == |spent| + 1
  {
  }

  lemma Grow(issued: set<string>, spent: set<string>, x: string)
    requires spent <= issued && x !in issued
    ensures issued - spent + {x} == issued + {x} - spent
    ensures spent <= issued + {x} && |issued + {x}| == |issued| + 1
  {
  }

  lemma InvStep(s: State, a: Action)
    requires Inv(s) && Enabled(s, a)
    ensures Inv(Apply(s, a))
  {
    if a.Consume? {
      if Valid(s, a.got) {
        Spend(s.issued, s.spent, a.got);
      }
    } else {
      Grow(s.issued, s.spent, a.token);
    }
  }

  // ---- Runs ----

  function Initial(): State { State({}, {}, {}, {}, 0, 0, 0) }

  ghost function After(acts: seq<Action>, n: nat): (s: State)
    requires n <= |acts|
    ensures Inv(s)
  {
    if n == 0 then Initial()
    else
      var s := After(acts, n - 1);
      if Enabled(s, acts[n - 1]) then
        InvStep(s, acts[n - 1]);
        Apply(s, acts[n - 1])
      else s
  }

  /**
   The live tokens are the issued ones less the spent ones, and every token traces back to one GET: it
   is live, in the hands of a request about to be reissued one, or was lost to a mismatch. A token is
   issued for every unsafe request admitted, besides one for every GET.
   */
  lemma TokensAreConserved(acts: seq<Action>)
    ensures var s := After(acts, |acts|);
            && s.live == s.issued - s.spent
            && |s.live| + |s.waiting| + s.mismatched == s.gets
            && s.admitted + |s.waiting| + s.mismatched + |s.live| == |s.issued|
  {
    var s := After(acts, |acts|);
    assert s.issued == s.live + s.spent && s.live !! s.spent;
    assert |s.issued| == |s.live| + |s.spent|;
  }

  /** The n-th action uses a token up, whether or not it matches the cookie. */
  ghost predicate Redeems(acts: seq<Action>, n: nat)
    requires n < |acts|
  {
    acts[n].Consume? && Enabled(After(acts, n), acts[n]) && Valid(After(acts, n), acts[n].got)
  }

  lemma {:induction false} SpentStaysSpent(acts: seq<Action>, m: nat, n: nat, token: string)
    requires m <= n <= |acts| && token in After(acts, m).spent
    ensures token in After(acts, n).spent
  {
    hide Inv;
    if n == m {
    } else {
      SpentStaysSpent(acts, m, n - 1, token);
    }
  }

  lemma SpentIsDead(s: State, token: string)
    requires Inv(s) && token in s.spent
    ensures !Valid(s, token)
  {
  }

  /** No token is redeemed twice, and one presented with the wrong cookie is lost to its owner. */
  lemma RedeemedOnce(acts: seq<Action>, m: nat, n: nat)
    requires m < n < |acts| && Redeems(acts, m) && acts[n].Consume? && acts[n].got == acts[m].got
    ensures !Redeems(acts, n)
  {
    hide Inv;
    SpentStaysSpent(acts, m + 1, n, acts[m].got);
    SpentIsDead(After(acts, n), acts[m].got);
  }

  lemma MatchStep(s: State, a: Action)
    requires Enabled(s, a)
    ensures var e, used := Apply(s, a), a.Consume? && Valid(s, a.got);
            && e.mismatched == s.mismatched + (if used && a.got != a.expected then 1 else 0)
            && e.admitted + |e.waiting| == s.admitted + |s.waiting| + (if used && a.got == a.expected then 1 else 0)
  {
    if a.Consume? {
      assert |s.waiting + {a.r}| == |s.waiting| + 1;
    } else if a.Reissue? {
      assert |s.waiting - {a.r}| == |s.waiting| - 1;
    }
  }

  /** The redemptions among the first n actions whose token differs from the cookie. */
  ghost function Mismatches(acts: seq<Action>, n: nat): nat
    requires n <= |acts|
  {
    if n == 0 then 0
    else
      Mismatches(acts, n - 1)
      + (if Redeems(acts, n - 1) && acts[n - 1].got != acts[n - 1].expected then 1 else 0)
  }

  /** Those whose token equals the cookie. */
  ghost function MatchesIn(acts: seq<Action>, n: nat): nat
    requires n <= |acts|
  {
    if n == 0 then 0
    else
      MatchesIn(acts, n - 1)
      + (if Redeems(acts, n - 1) && acts[n - 1].got == acts[n - 1].expected then 1 else 0)
  }

  /** Only a request whose token equals its cookie goes on: those admitted or about to be are the ones that matched. */
  lemma {:induction false} OnlyMatchesGoOn(acts: seq<Action>, n: nat)
    requires n <= |acts|
    ensures After(acts, n).mismatched == Mismatches(acts, n)
    ensures After(acts, n).admitted + |After(acts, n).waiting| == MatchesIn(acts, n)
  {
    hide Inv;
    if n == 0 {
    } else {
      OnlyMatchesGoOn(acts, n - 1);
      if Enabled(After(acts, n - 1), acts[n - 1]) {
        MatchStep(After(acts, n - 1), acts[n - 1]);
      }
      hide Apply;
    }
  }

  // ---- The middleware ----

  datatype Verb = GET | HEAD | POST | PUT | DELETE | OTHER

  /** got and expected are the trimmed token and cookie; hasCookie says the cookie is there and not empty. */
  datatype Request = Request(
    path: string,
    accept: string,
    requestedWith: string,
    verb: Verb,
    got: string,
    expected: string,
    hasCookie: bool)

  /** What the handler sees: passed on, with a new cookie where one is set, or refused. */
  datatype Response = Passed(cookie: Option<string>) | Forbidden

  /** API and JSON requests, and the public routes. */
  predicate Skipped(publicPaths: seq<string>, q: Request) {
    || (exists i :: 0 <= i < |publicPaths| && publicPaths[i] <= q.path)
    || "application/json" <= q.accept
    || q.requestedWith == "XMLHttpRequest"
  }

  predicate Unsafe(v: Verb) { v == POST || v == PUT || v == DELETE }

  predicate Passes(s: State, q: Request) { q.hasCookie && Valid(s, q.got) && q.got == q.expected }

  /** The tokens after an unsafe request: without a cookie nothing is consumed, and a pass is followed by a reissue. */
  function Checked(s: State, q: Request, r: nat, newToken: string): State {
    if !q.hasCookie then s
    else
      var s' := Apply(s, Consume(r, q.got, q.expected));
      if Passes(s, q) then Apply(s', Reissue(r, newToken)) else s'
  }

  class CSRF {
    const publicPaths: seq<string>
    var state: State

    constructor (publicPaths: seq<string>)
      ensures this.publicPaths == publicPaths && state == Initial()
    {
      this.publicPaths := publicPaths;
      state := Initial();
    }

    /** The check of an unsafe request, with no other request in between. */
    method CheckToken(q: Request, r: nat, newToken: string) returns (response: Response)
      requires Inv(state) && newToken !in state.issued && r !in state.waiting
      modifies this`state
      ensures Inv(state)
      ensures response == if Passes(old(state), q) then Passed(Some(newToken)) else Forbidden
      ensures state == Checked(old(state), q, r, newToken)
    {
      hide Inv;
      if !q.hasCookie {
        return Forbidden;
      }
      var valid := q.got in state.live;
      InvStep(state, Consume(r, q.got, q.expected));
      if !valid {
        return Forbidden;
      }
      state := state.(live := state.live - {q.got}, spent := state.spent + {q.got});
      if q.got != q.expected {
        state := state.(mismatched := state.mismatched + 1);
        return Forbidden;
      }
      state := state.(waiting := state.waiting + {r});
      InvStep(state, Reissue(r, newToken));
      state := Issue(state, newToken).(waiting := state.waiting - {r}, admitted := state.admitted + 1);
      return Passed(Some(newToken));
    }

    /** newToken is the random token the request generates. */
    method ServeHTTP(q: Request, r: nat, newToken: string) returns (response: Response)
      requires Inv(state) && newToken !in state.issued && r !in state.waiting
      modifies this`state
      ensures Inv(state)
      ensures q.verb == OTHER || q.requestedWith == "XMLHttpRequest" || "application/json" <= q.accept
              || (exists i :: 0 <= i < |publicPaths| && publicPaths[i] <= q.path)
          ==> state == old(state) && response == Passed(None)
      ensures !Skipped(publicPaths, q) && q.verb in {GET, HEAD} ==>
          && response == Passed(Some(newToken)) && state.live == old(state).live + {newToken}
          && state == Apply(old(state), Get(newToken))
      ensures !Skipped(publicPaths, q) && q.verb in {POST, PUT, DELETE} ==>
          && (response.Passed? <==> q.hasCookie && q.got in old(state).live && q.got == q.expected)
          && (response.Passed? ==> response.cookie == Some(newToken)
                                   && state.live == old(state).live - {q.got} + {newToken})
          && (response.Forbidden? ==> state.live == old(state).live - (if q.hasCookie then {q.got} else {}))
          && state == Checked(old(state), q, r, newToken)
      ensures Skipped(publicPaths, q) <==>
          (exists i :: 0 <= i < |publicPaths| && publicPaths[i] <= q.path)
          || "application/json" <= q.accept || q.requestedWith == "XMLHttpRequest"
    {
      hide Inv;
      var i := 0;
      while i < |publicPaths|
        invariant 0 <= i <= |publicPaths|
        invariant forall k :: 0 <= k < i ==> !(publicPaths[k] <= q.path)
      {
        if publicPaths[i] <= q.path {
          return Passed(None);
        }
        i := i + 1;
      }
      if "application/json" <= q.accept || q.requestedWith == "XMLHttpRequest" {
        return Passed(None);
      }
      if q.verb == GET || q.verb == HEAD {
        InvStep(state, Get(newToken));
        state := Issue(state, newToken).(gets := state.gets + 1);
        return Passed(Some(newToken));
      }
      if Unsafe(q.verb) {
        response := CheckToken(q, r, newToken);
        return;
      }
      return Passed(None);
    }
  }
}
