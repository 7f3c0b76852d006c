/**
 The one-time-password service over its store port, with Verify as one atomic step. The hash function
 is a parameter of which nothing is assumed.
 */
module Otp {
  import opened Prelude

  const OTP_LIFETIME := 3 * MINUTE
  const MAX_ATTEMPTS: nat := 3

  datatype Record = Record(codeHash: string, attempts: nat, expiresAt: int)

  /** What one Verify does to the record of its user. */
  datatype Outcome = Outcome(valid: bool, compared: bool, left: Option<Record>)

  function VerifyOn(r: Option<Record>, codeHash: string, now: int): Outcome {
    if r.None? then Outcome(false, false, None)
    else if now > r.value.expiresAt || r.value.attempts >= MAX_ATTEMPTS then Outcome(false, false, None)
    else if r.value.codeHash != codeHash then Outcome(false, true, Some(r.value.(attempts := r.value.attempts + 1)))
    else Outcome(true, true, None)
  }

  function Sent(codeHash: string, now: int): Record { Record(codeHash, 0, now + OTP_LIFETIME) }

  // ---- Histories ----

  datatype Event = Send(user: string, code: string, now: int) | Verify(user: string, code: string, now: int)

  type Hash = string -> string

  /** The record of user u after the first n events. */
  function RecordAt(h: Hash, evs: seq<Event>, n: nat, u: string): Option<Record>
    requires n <= |evs|
  {
    if n == 0 then None
    else if evs[n - 1].user != u then RecordAt(h, evs, n - 1, u)
    else if evs[n - 1].Send? then Some(Sent(h(evs[n - 1].code), evs[n - 1].now))
    else VerifyOn(RecordAt(h, evs, n - 1, u), h(evs[n - 1].code), evs[n - 1].now).left
  }

  function OutcomeAt(h: Hash, evs: seq<Event>, i: nat): Outcome
    requires i < |evs| && evs[i].Verify?
  {
    VerifyOn(RecordAt(h, evs, i, evs[i].user), h(evs[i].code), evs[i].now)
  }

  /** The index of u's most recent Send among the first n events. */
  function LastSend(evs: seq<Event>, n: nat, u: string): (s: Option<nat>)
    requires n <= |evs|
    ensures s.Some? ==> s.value < n && evs[s.value].Send? && evs[s.value].user == u
  {
    if n == 0 then None
    else if evs[n - 1].Send? && evs[n - 1].user == u then Some(n - 1)
    else LastSend(evs, n - 1, u)
  }

  predicate VerifyOf(e: Event, u: string) { e.Verify? && e.user == u }

  /** How many Verify calls u made after event s and before event n. */
  function VerifiesSince(evs: seq<Event>, s: nat, n: nat, u: string): nat
    requires s < n <= |evs|
  {
    if n == s + 1 then 0 else VerifiesSince(evs, s, n - 1, u) + (if VerifyOf(evs[n - 1], u) then 1 else 0)
  }

  function ExpiryOf(e: Event): int { e.now + OTP_LIFETIME }

  /** A Verify after Send s that neither succeeded, nor found the code expired or its attempts used up. */
  predicate Harmless(h: Hash, evs: seq<Event>, s: nat, j: nat)
    requires s < j < |evs|
  {
    && h(evs[j].code) != h(evs[s].code)
    && evs[j].now <= ExpiryOf(evs[s])
    && VerifiesSince(evs, s, j, evs[s].user) < MAX_ATTEMPTS
  }

  ghost predicate AllHarmless(h: Hash, evs: seq<Event>, s: nat, n: nat)
    requires s < n <= |evs|
  {
    forall j :: s < j < n && VerifyOf(evs[j], evs[s].user) ==> Harmless(h, evs, s, j)
  }

  // The stored record is a function of the history since the most recent Send.
  lemma {:induction false} RecordIsHistory(h: Hash, evs: seq<Event>, n: nat, u: string)
    requires n <= |evs|
    ensures var s := LastSend(evs, n, u);
            RecordAt(h, evs, n, u)
            == (if s.Some? && AllHarmless(h, evs, s.value, n)
                then Some(Record(h(evs[s.value].code), VerifiesSince(evs, s.value, n, u), ExpiryOf(evs[s.value])))
                else None)
    ensures var s := LastSend(evs, n, u);
            s.Some? && AllHarmless(h, evs, s.value, n) ==> VerifiesSince(evs, s.value, n, u) <= MAX_ATTEMPTS
  {
    if n == 0 {
    } else {
      RecordIsHistory(h, evs, n - 1, u);
      var s := LastSend(evs, n - 1, u);
      if s.Some? && LastSend(evs, n, u) == s {
        assert AllHarmless(h, evs, s.value, n) <==>
          AllHarmless(h, evs, s.value, n - 1) && (VerifyOf(evs[n - 1], u) ==> Harmless(h, evs, s.value, n - 1));
      }
    }
  }

  lemma {:induction false} VerifiesGrow(evs: seq<Event>, s: nat, m: nat, n: nat, u: string)
    requires s < m <= n <= |evs|
    ensures VerifiesSince(evs, s, m, u) <= VerifiesSince(evs, s, n, u)
  {
    if m == n {
    } else {
      VerifiesGrow(evs, s, m, n - 1, u);
    }
  }

  /**
   What keeps the code of u's most recent Send open when event i comes: it is not three minutes old,
   fewer than three Verify calls have come since, and each of those came in time and missed.
   */
  ghost predicate Open(h: Hash, evs: seq<Event>, i: nat)
    requires i < |evs|
  {
    var u := evs[i].user;
    var s := LastSend(evs, i, u);
    && s.Some?
    && evs[i].now <= evs[s.value].now + 3 * MINUTE
    && VerifiesSince(evs, s.value, i, u) < 3
    && (forall j :: s.value < j < i && VerifyOf(evs[j], u) ==>
          h(evs[j].code) != h(evs[s.value].code) && evs[j].now <= evs[s.value].now + 3 * MINUTE)
  }

  /** Event i presents a code that hashes to that of u's most recent Send. */
  predicate Matches(h: Hash, evs: seq<Event>, i: nat)
    requires i < |evs|
  {
    var s := LastSend(evs, i, evs[i].user);
    s.Some? && h(evs[i].code) == h(evs[s.value].code)
  }

  /**
   The history specification. Verify compares exactly while the code of the user's most recent Send is
   open, and returns true exactly when it is and the code presented matches.
   */
  lemma VerifyIsHistory(h: Hash, evs: seq<Event>, i: nat)
    requires i < |evs| && evs[i].Verify?
    ensures OutcomeAt(h, evs, i).compared <==> Open(h, evs, i)
    ensures OutcomeAt(h, evs, i).valid <==> Open(h, evs, i) && Matches(h, evs, i)
  {
    RecordIsHistory(h, evs, i, evs[i].user);
    var s := LastSend(evs, i, evs[i].user);
    if s.Some? && VerifiesSince(evs, s.value, i, evs[i].user) < MAX_ATTEMPTS {
      forall j | s.value < j < i
        ensures VerifiesSince(evs, s.value, j, evs[i].user) < MAX_ATTEMPTS
      {
        VerifiesGrow(evs, s.value, j, i, evs[i].user);
      }
    }
  }

  // The most recent Send before n stays the most recent one up to m unless there is another.
  lemma {:induction false} SendStays(evs: seq<Event>, m: nat, n: nat, u: string)
    requires m <= n <= |evs|
    requires forall k :: m <= k < n ==> !(evs[k].Send? && evs[k].user == u)
    ensures LastSend(evs, n, u) == LastSend(evs, m, u)
  {
    if m == n {
    } else {
      SendStays(evs, m, n - 1, u);
    }
  }

  /** Single use: between two successful verifications of a user there is a Send for that user. */
  lemma SuccessNeedsNewSend(h: Hash, evs: seq<Event>, i: nat, j: nat)
    requires i < j < |evs| && evs[i].Verify? && evs[j].Verify? && evs[i].user == evs[j].user
    requires OutcomeAt(h, evs, i).valid && OutcomeAt(h, evs, j).valid
    ensures exists k :: i < k < j && evs[k].Send? && evs[k].user == evs[i].user
  {
    VerifyIsHistory(h, evs, i);
    VerifyIsHistory(h, evs, j);
    assert VerifyOf(evs[i], evs[j].user);
    if forall k :: i < k < j ==> !(evs[k].Send? && evs[k].user == evs[i].user) {
      SendStays(evs, i, j, evs[i].user);
    }
  }

  /** How many comparisons were made for u after event s and before event n. */
  function ComparisonsSince(h: Hash, evs: seq<Event>, s: nat, n: nat, u: string): nat
    requires s < n <= |evs|
  {
    if n == s + 1 then 0
    else
      ComparisonsSince(h, evs, s, n - 1, u)
      + (if VerifyOf(evs[n - 1], u) && OutcomeAt(h, evs, n - 1).compared then 1 else 0)
  }

  /** At most three comparisons are ever made against one sent code. */
  lemma {:induction false} ThreeComparisons(h: Hash, evs: seq<Event>, s: nat, n: nat)
    requires s < n <= |evs| && evs[s].Send?
    requires forall k :: s < k < n ==> !(evs[k].Send? && evs[k].user == evs[s].user)
    ensures var u := evs[s].user;
            && ComparisonsSince(h, evs, s, n, u) <= 3
            && (RecordAt(h, evs, n, u).Some? ==> ComparisonsSince(h, evs, s, n, u) == RecordAt(h, evs, n, u).value.attempts)
  {
    if n == s + 1 {
    } else {
      ThreeComparisons(h, evs, s, n - 1);
    }
  }

  lemma {:induction false} SameEvents(h: Hash, evs: seq<Event>, more: seq<Event>, n: nat, u: string)
    requires n <= |evs| && n <= |more| && forall i :: 0 <= i < n ==> evs[i] == more[i]
    ensures RecordAt(h, evs, n, u) == RecordAt(h, more, n, u)
  {
    if n == 0 {
    } else {
      SameEvents(h, evs, more, n - 1, u);
    }
  }

  // ---- The store and the service ----

  /** The OTPStore port: one record per user hash; Save starts the attempts at zero. */
  class OTPStore {
    var records: map<string, Record>

    constructor ()
      ensures records == map[]
    {
      records := map[];
    }

    function Lookup(u: string): Option<Record>
      reads this
    {
      if u in records then Some(records[u]) else None
    }

    method Save(u: string, codeHash: string, expiresAt: int)
      modifies this
      ensures records == old(records)[u := Record(codeHash, 0, expiresAt)]
    {
      records := records[u := Record(codeHash, 0, expiresAt)];
    }

    method Get(u: string) returns (r: Option<Record>)
      ensures r == Lookup(u)
    {
      r := if u in records then Some(records[u]) else None;
    }

    method IncrementAttempts(u: string)
      modifies this
      ensures records == if u in old(records)
                         then old(records)[u := old(records)[u].(attempts := old(records)[u].attempts + 1)]
                         else old(records)
    {
      if u in records {
        records := records[u := records[u].(attempts := records[u].attempts + 1)];
      }
    }

    method Delete(u: string)
      modifies this
      ensures records == old(records) - {u}
    {
      records := records - {u};
    }
  }

  class OTPService {
    const hash: Hash
    const store: OTPStore
    ghost var events: seq<Event>

    constructor (hash: Hash, store: OTPStore)
      requires store.records == map[]
      ensures Valid() && this.hash == hash && this.store == store && events == []
    {
      this.hash, this.store, events := hash, store, [];
    }

    /** The store holds what the history says. */
    ghost predicate Valid()
      reads this, store
    {
      forall u :: store.Lookup(u) == RecordAt(hash, events, |events|, u)
    }

    /** The code is stored before it is handed to the sender; a delivery error leaves it stored. */
    method Send(u: string, code: string, now: int, delivered: bool) returns (ok: bool)
      requires Valid()
      modifies this, store
      ensures Valid() && ok == delivered
      ensures events == old(events) + [Event.Send(u, code, now)]
      ensures store.records == old(store.records)[u := Sent(hash(code), now)]
    {
      store.Save(u, hash(code), now + OTP_LIFETIME);
      Remember(Event.Send(u, code, now));
      ok := delivered;
    }

    // Extends the history by an event that explains the change of the store.
    ghost method Remember(e: Event)
      requires forall u :: u != e.user ==> store.Lookup(u) == RecordAt(hash, events, |events|, u)
      requires store.Lookup(e.user)
               == (if e.Send? then Some(Sent(hash(e.code), e.now))
                   else VerifyOn(RecordAt(hash, events, |events|, e.user), hash(e.code), e.now).left)
      modifies this
      ensures Valid() && events == old(events) + [e]
    {
      ghost var n, more := |events|, events + [e];
      forall u ensures RecordAt(hash, more, n, u) == RecordAt(hash, events, n, u) {
        SameEvents(hash, events, more, n, u);
      }
      events := more;
    }

    /** The answer is the one of the history specification, for this event. */
    method Verify(u: string, code: string, now: int) returns (valid: bool)
      requires Valid()
      modifies this, store
      ensures Valid()
      ensures events == old(events) + [Event.Verify(u, code, now)]
      ensures valid == OutcomeAt(hash, events, |old(events)|).valid
      ensures (valid, store.Lookup(u)) == (var o := VerifyOn(old(store.Lookup(u)), hash(code), now); (o.valid, o.left))
      ensures store.records - {u} == old(store.records) - {u}
    {
      var r := store.Get(u);
      valid := false;
      if r.Some? {
        if now > r.value.expiresAt || r.value.attempts >= MAX_ATTEMPTS {
          store.Delete(u);
        } else {
          store.IncrementAttempts(u);
          if r.value.codeHash == hash(code) {
            store.Delete(u);
            valid := true;
          }
        }
      }
      Remember(Event.Verify(u, code, now));
      SameEvents(hash, old(events), events, |old(events)|, u);
    }
  }
}
