/** OAuth states: issued by BeginAuth, redeemed at most once and at most ten minutes later by CompleteAuth. */
module OAuthStates {
  import opened Prelude
  import opened Registry

  const STATE_LIFETIME: int := 10 * MINUTE

  datatype Metadata = Metadata(createdAt: int, challenge: string, tenant: string, redirect: string)

  /** BeginAuth reads the clock where it stores the state. */
  predicate Stamped(ops: seq<Op<Metadata>>) {
    forall i :: 0 <= i < |ops| && ops[i].Put? ==> ops[i].data.createdAt == ops[i].at
  }

  /** The n-th locked section is a CompleteAuth that goes on to the code exchange. */
  predicate Completes(ops: seq<Op<Metadata>>, n: nat)
    requires n < |ops|
  {
    Redeems(ops, n) && ops[n].at - After(ops, n)[ops[n].key].createdAt <= STATE_LIFETIME
  }

  /**
   CompleteAuth passes exactly for a state that some BeginAuth issued at most ten minutes before and
   that nothing has used since; a late call uses the state up.
   */
  lemma CompletionIsHistory(ops: seq<Op<Metadata>>, n: nat)
    requires n < |ops| && Stamped(ops) && ops[n].Take?
    ensures Completes(ops, n)
       <==> exists i: nat :: Untouched(ops, i, n, ops[n].key) && ops[n].at - ops[i].at <= 10 * MINUTE
  {
    LiveIsIssuedMinusSpent(ops, n, ops[n].key);
  }

  /** Each issue of a state is completed at most once, late attempts included. */
  lemma CompletedOnce(ops: seq<Op<Metadata>>, m: nat, n: nat)
    requires m < n < |ops| && FreshKeys(ops) && ops[m].Take? && ops[n].Take?
    requires ops[m].key == ops[n].key && Redeems(ops, m)
    ensures !Completes(ops, n)
  {
    if Redeems(ops, n) {
      RedeemedOncePerIssue(ops, m, n);
      assert false;
    }
  }

  datatype Reply = UnknownProvider | InvalidState | Expired | Exchange(challenge: string, tenant: string)

  class OAuthService {
    var providers: set<string>
    var states: map<string, Metadata>

    constructor ()
      ensures providers == {} && states == map[]
    {
      providers := {};
      states := map[];
    }

    method RegisterProvider(name: string)
      modifies this`providers
      ensures providers == old(providers) + {name}
    {
      providers := providers + {name};
    }

    /** state and challenge are random; None is an unknown provider. */
    method BeginAuth(provider: string, tenant: string, redirect: string, state: string, challenge: string, now: int)
        returns (issued: Option<string>)
      modifies this`states
      ensures issued == if provider in providers then Some(state) else None
      ensures states == if issued.None? then old(states)
                        else Apply(old(states), Put(state, Metadata(now, challenge, tenant, redirect), now))
    {
      if provider !in providers {
        return None;
      }
      states := states[state := Metadata(now, challenge, tenant, redirect)];
      return Some(state);
    }

    /** now is read after the state is taken. */
    method CompleteAuth(provider: string, state: string, now: int) returns (reply: Reply)
      modifies this`states
      ensures reply.UnknownProvider? <==> provider !in providers
      ensures states == if reply.UnknownProvider? then old(states) else Apply(old(states), Take(state, now))
      ensures reply.InvalidState? <==> provider in providers && state !in old(states)
      ensures reply.Exchange? <==> (provider in providers && state in old(states)
                                && now - old(states)[state].createdAt <= 10 * MINUTE)
      ensures reply.Exchange? ==> reply == Exchange(old(states)[state].challenge, old(states)[state].tenant)
    {
      if provider !in providers {
        return UnknownProvider;
      }
      if state !in states {
        return InvalidState;
      }
      var st := states[state];
      states := states - {state};
      if now - st.createdAt > STATE_LIFETIME {
        return Expired;
      }
      return Exchange(st.challenge, st.tenant);
    }
  }
}
