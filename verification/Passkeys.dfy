/**
 WebAuthn ceremonies. Begin and Finish calls are atomic events and store calls succeed; what the WebAuthn
 library answers, and which user an email or a hash leads to, is part of the event.
 */
module Passkeys {
  import opened Prelude
  import opened Base64Url
  import opened Credentials
  import Handles
  import Registry

  /** named says that the ceremony was begun for an email; login ceremonies have no handle. */
  datatype Ceremony = Ceremony(user: string, handle: string, named: bool)

  /** What the library makes of a registration response. */
  datatype Created = Created(
    id: seq<Byte>,
    publicKey: seq<Byte>,
    signCount: Counter,
    aaguid: seq<Byte>,
    backupEligible: bool,
    backupState: bool)

  /** What the library sees of a stored credential. */
  type Shown = Created

  datatype State = State(
    handles: map<string, string>,
    table: Table,
    next: nat,
    pending: map<string, Ceremony>)

  type Random = r: seq<Byte> | |r| == Handles.HANDLE_BYTES witness seq(Handles.HANDLE_BYTES, _ => 0)

  datatype Event =
    | BeginRegistration(user: string, tenant: string, random: Random, challenge: string, started: bool)
    | FinishRegistration(challenge: string, created: Option<Created>)
    | BeginLogin(user: string, challenge: string)
    | BeginDiscoverable(challenge: string)
    | FinishLogin(challenge: string, rawId: seq<Byte>, userHandle: string, resolved: Option<string>,
                  confirmed: Option<(seq<Byte>, Counter)>)

  // ---- Handles ----

  /** The stored handle, or "" where there is none. */
  function StoredHandle(s: State, user: string): string {
    if user in s.handles then s.handles[user] else ""
  }

  /** Finds the user's handle or makes one. */
  function HandleFor(s: State, user: string, tenant: string, random: Random): string {
    if StoredHandle(s, user) != "" then StoredHandle(s, user)
    else Handles.GenerateHandleWithTenant(tenant, random)
  }

  /** The handle of the user that FinishRegistration rebuilds, before it restores the ceremony's. */
  function RebuiltHandle(s: State, cs: Ceremony): string {
    if StoredHandle(s, cs.user) != "" then StoredHandle(s, cs.user) else cs.handle
  }

  // ---- Logins ----

  function HexDigit(d: nat): char
    requires d < 16
  {
    if d < 10 then (48 + d) as char else (97 + d - 10) as char
  }

  function Hex(b: seq<Byte>): string {
    seq(2 * |b|, i requires 0 <= i < 2 * |b| => HexDigit(if i % 2 == 0 then b[i / 2] / 16 else b[i / 2] % 16))
  }

  /** Go's conversion of ASCII text to bytes. */
  function Text(s: string): seq<Byte> { seq(|s|, i requires 0 <= i < |s| => s[i] as int % 256) }

  /** webauthnCredsFromDomain, for one credential. */
  function Show(c: Credential): Shown {
    Created(c.id, c.publicKey, c.signCount, Text(c.aaguid), c.backupEligible, c.backupState)
  }

  /** SaveCredential of the service: what is stored of a new credential. */
  function Owned(user: string, c: Created): Credential {
    Credential(user, c.id, c.publicKey, c.signCount, Hex(c.aaguid), c.backupEligible, c.backupState)
  }

  /** The library sees what was registered, but for the authenticator id, which comes back as its hexadecimal text. */
  lemma ShownAsRegistered(user: string, c: Created)
    ensures Show(Owned(user, c)).(aaguid := c.aaguid) == c
    ensures Show(Owned(user, c)) == c <==> c.aaguid == []
  {
    assert |Show(Owned(user, c)).aaguid| == 2 * |c.aaguid|;
  }

  datatype Login = Login(user: string, handle: string, credentials: set<Credential>)

  ghost function ByHandle(s: State, handle: string): Option<string> {
    if u :| u in s.handles && s.handles[u] == handle then Some(u) else None
  }

  /** The user FinishLogin checks the assertion against: by email, by raw key id, or else by handle. */
  ghost function Resolve(s: State, cs: Ceremony, e: Event): Option<Login>
    requires e.FinishLogin?
  {
    if cs.named then
      if e.resolved.Some? && FindByUser(s.table, e.resolved.value) != {}
      then Some(Login(e.resolved.value, "", FindByUser(s.table, e.resolved.value)))
      else None
    else
      match FindByKid(s.table, e.rawId)
      case Some(c) =>
        var stored := StoredHandle(s, c.user);
        Some(Login(c.user, if stored != "" then stored else e.userHandle, FindByUser(s.table, c.user)))
      case None =>
        match ByHandle(s, e.userHandle)
        case Some(u) => Some(Login(u, s.handles[u], FindByUser(s.table, u)))
        case None => None
  }

  /** What the lookups may come to: where two users share the handle, the store may return either. */
  ghost predicate Resolution(s: State, cs: Ceremony, e: Event, login: Option<Login>)
    requires e.FinishLogin?
  {
    if cs.named || FindByKid(s.table, e.rawId).Some? then login == Resolve(s, cs, e)
    else
      match login
      case None => forall u :: u in s.handles ==> s.handles[u] != e.userHandle
      case Some(l) =>
        && l.user in s.handles && s.handles[l.user] == e.userHandle
        && l == Login(l.user, e.userHandle, FindByUser(s.table, l.user))
  }

  predicate UniqueHandles(handles: map<string, string>) {
    forall u, v :: u in handles && v in handles && handles[u] == handles[v] ==> u == v
  }

  lemma ResolutionIsUnique(s: State, cs: Ceremony, e: Event, login: Option<Login>)
    requires e.FinishLogin? && UniqueHandles(s.handles) && Resolution(s, cs, e, login)
    ensures login == Resolve(s, cs, e)
  {
  }

  // ---- Steps ----

  ghost function FinishWith(s: State, challenge: string, login: Option<Login>, confirmed: Option<(seq<Byte>, Counter)>): State {
    if challenge !in s.pending then s
    else
      var s' := s.(pending := s.pending - {challenge});
      if login.None? || confirmed.None? then s'
      else s'.(table := Count(s.table, login.value.user, confirmed.value.0, confirmed.value.1))
  }

  ghost function Step(s: State, e: Event): State {
    match e
    case BeginRegistration(user, tenant, random, challenge, started) =>
      var h := HandleFor(s, user, tenant, random);
      var s' := s.(handles := s.handles[user := h]);
      if started then s'.(pending := s.pending[challenge := Ceremony(user, h, true)]) else s'
    case FinishRegistration(challenge, created) =>
      if challenge !in s.pending then s
      else
        var s' := s.(pending := s.pending - {challenge});
        if created.None? then s'
        else
          var (t, n) := Save(s.table, s.next, Owned(s.pending[challenge].user, created.value));
          s'.(table := t, next := n)
    case BeginLogin(user, challenge) =>
      if FindByUser(s.table, user) == {} then s
      else s.(pending := s.pending[challenge := Ceremony(user, "", true)])
    case BeginDiscoverable(challenge) => s.(pending := s.pending[challenge := Ceremony("", "", false)])
    case FinishLogin(challenge, _, _, _, confirmed) =>
      FinishWith(s, challenge, if challenge in s.pending then Resolve(s, s.pending[challenge], e) else None, confirmed)
  }

  // ---- Runs ----

  function Initial(): State { State(map[], map[], 0, map[]) }

  ghost function After(es: seq<Event>, n: nat): State
    requires n <= |es|
  {
    if n == 0 then Initial() else Step(After(es, n - 1), es[n - 1])
  }

  // ---- Handles never change ----

  /** Every stored handle is real, and every pending registration has its user's stored one. */
  predicate HandlesAgree(s: State) {
    && (forall u :: u in s.handles ==> s.handles[u] != "")
    && (forall ch :: ch in s.pending && s.pending[ch].handle != ""
          ==> s.pending[ch].user in s.handles && s.handles[s.pending[ch].user] == s.pending[ch].handle)
  }

  lemma HandleIsReal(s: State, e: Event)
    requires HandlesAgree(s) && e.BeginRegistration?
    ensures var h := HandleFor(s, e.user, e.tenant, e.random);
            && h != ""
            && (if e.user in s.handles then h == s.handles[e.user]
                else h == Handles.GenerateHandleWithTenant(e.tenant, e.random))
  {
    hide Base64Url.Raw;
  }

  lemma BeginKeepsHandles(s: State, e: Event)
    requires HandlesAgree(s) && e.BeginRegistration?
    ensures HandlesAgree(Step(s, e))
    ensures var h := HandleFor(s, e.user, e.tenant, e.random);
            && Step(s, e).handles == s.handles[e.user := h]
            && (if e.user in s.handles then h == s.handles[e.user]
                else h == Handles.GenerateHandleWithTenant(e.tenant, e.random))
  {
    HandleIsReal(s, e);
    hide HandleFor, Handles.GenerateHandleWithTenant;
  }

  lemma OthersKeepHandles(s: State, e: Event)
    requires HandlesAgree(s) && !e.BeginRegistration?
    ensures HandlesAgree(Step(s, e)) && Step(s, e).handles == s.handles
  {
    hide Resolve, Save, Count;
  }

  lemma StepKeepsHandles(s: State, e: Event)
    requires HandlesAgree(s)
    ensures HandlesAgree(Step(s, e))
    ensures forall u :: u in s.handles ==> u in Step(s, e).handles && Step(s, e).handles[u] == s.handles[u]
    ensures forall u :: u in Step(s, e).handles && u !in s.handles
              ==> e.BeginRegistration? && e.user == u
                  && Step(s, e).handles[u] == Handles.GenerateHandleWithTenant(e.tenant, e.random)
  {
    hide Resolve, Save, Count, HandleFor, HandlesAgree;
    if e.BeginRegistration? {
      BeginKeepsHandles(s, e);
    } else {
      OthersKeepHandles(s, e);
    }
  }

  lemma NoHandles()
    ensures HandlesAgree(Initial())
  {
  }

  lemma {:induction false} HandlesAlwaysAgree(es: seq<Event>, n: nat)
    requires n <= |es|
    ensures HandlesAgree(After(es, n))
  {
    hide Step, HandlesAgree;
    if n > 0 {
      HandlesAlwaysAgree(es, n - 1);
      StepKeepsHandles(After(es, n - 1), es[n - 1]);
    } else {
      NoHandles();
    }
  }

  /** Once assigned, a user's handle never changes. */
  lemma {:induction false} HandleIsStable(es: seq<Event>, m: nat, n: nat, user: string)
    requires m <= n <= |es| && user in After(es, m).handles
    ensures user in After(es, n).handles && After(es, n).handles[user] == After(es, m).handles[user]
  {
    hide Step, HandlesAgree;
    if n == m {
    } else {
      HandleIsStable(es, m, n - 1, user);
      HandlesAlwaysAgree(es, n - 1);
      StepKeepsHandles(After(es, n - 1), es[n - 1]);
    }
  }

  /** Event i assigned the handle: it began the user's first registration. */
  ghost predicate Assigned(es: seq<Event>, i: nat, user: string, handle: string) {
    && i < |es|
    && es[i].BeginRegistration? && es[i].user == user
    && user !in After(es, i).handles
    && handle == Handles.GenerateHandleWithTenant(es[i].tenant, es[i].random)
  }

  lemma {:induction false} HandleIsAssigned(es: seq<Event>, n: nat, user: string)
    requires n <= |es| && user in After(es, n).handles
    ensures exists i: nat :: i < n && Assigned(es, i, user, After(es, n).handles[user])
  {
    hide Step, HandlesAgree, Handles.GenerateHandleWithTenant;
    HandlesAlwaysAgree(es, n - 1);
    var s := After(es, n - 1);
    StepKeepsHandles(s, es[n - 1]);
    if user in s.handles {
      HandleIsAssigned(es, n - 1, user);
    } else {
      assert Assigned(es, n - 1, user, After(es, n).handles[user]);
    }
  }

  /**
   A stored handle was made when the user's first registration began; a parse recovers that
   registration's tenant exactly when it is nonempty and has no colon.
   */
  lemma HandleNamesFirstTenant(es: seq<Event>, n: nat, user: string)
    requires n <= |es| && user in After(es, n).handles
    ensures exists i: nat :: i < n && Assigned(es, i, user, After(es, n).handles[user])
              && (Handles.ParsesTo(After(es, n).handles[user], es[i].tenant) <==> es[i].tenant != "" && ':' !in es[i].tenant)
  {
    HandleIsAssigned(es, n, user);
    var i: nat :| i < n && Assigned(es, i, user, After(es, n).handles[user]);
    Handles.ParseRecoversTenant(es[i].tenant, es[i].random);
    hide After, Handles.GenerateHandleWithTenant, Handles.ParseHandle;
  }

  /** Handles are random: no two registrations draw the same bytes. */
  predicate FreshRandoms(es: seq<Event>) {
    forall i, j :: 0 <= i < j < |es| && es[i].BeginRegistration? && es[j].BeginRegistration?
             ==> es[i].random != es[j].random
  }

  lemma SameAssignment(es: seq<Event>, i: nat, j: nat, u: string, v: string, handle: string)
    requires FreshRandoms(es) && Assigned(es, i, u, handle) && Assigned(es, j, v, handle)
    ensures u == v
  {
    hide After, Handles.GenerateHandleWithTenant;
    Handles.HandlesAreDistinct(es[i].tenant, es[i].random, es[j].tenant, es[j].random);
  }

  /** A handle leads back to one user. */
  lemma HandleNamesOneUser(es: seq<Event>, n: nat)
    requires n <= |es| && FreshRandoms(es)
    ensures UniqueHandles(After(es, n).handles)
  {
    var h := After(es, n).handles;
    hide After, Assigned, FreshRandoms;
    forall u, v | u in h && v in h && h[u] == h[v] ensures u == v {
      HandleIsAssigned(es, n, u);
      HandleIsAssigned(es, n, v);
      var i: nat :| i < n && Assigned(es, i, u, h[u]);
      var j: nat :| j < n && Assigned(es, j, v, h[v]);
      SameAssignment(es, i, j, u, v, h[u]);
    }
  }

  /**
   The restore in FinishRegistration changes nothing for a registration ceremony. A login ceremony has no
   handle, so there it does exactly when its user has one.
   */
  lemma RestoreChangesNothing(es: seq<Event>, n: nat, challenge: string)
    requires n <= |es| && challenge in After(es, n).pending
    ensures var s := After(es, n);
            var cs := s.pending[challenge];
            RebuiltHandle(s, cs) == cs.handle <==> cs.handle != "" || cs.user !in s.handles
  {
    hide After;
    HandlesAlwaysAgree(es, n);
  }

  // ---- Ceremonies are single-use ----

  predicate Begins(e: Event, challenge: string) {
    && (e.BeginRegistration? || e.BeginLogin? || e.BeginDiscoverable?)
    && e.challenge == challenge
  }

  predicate Finishes(e: Event, challenge: string) {
    && (e.FinishRegistration? || e.FinishLogin?)
    && e.challenge == challenge
  }

  lemma {:induction false} TakenStaysTaken(es: seq<Event>, m: nat, n: nat, challenge: string)
    requires m <= n <= |es| && challenge !in After(es, m).pending
    requires forall i :: m <= i < n ==> !Begins(es[i], challenge)
    ensures challenge !in After(es, n).pending
  {
    hide Resolve, Save, Count, HandleFor;
    if n == m {
    } else {
      TakenStaysTaken(es, m, n - 1, challenge);
      assert !Begins(es[n - 1], challenge);
    }
  }

  lemma FinishTakes(s: State, e: Event, challenge: string)
    requires Finishes(e, challenge)
    ensures challenge !in Step(s, e).pending
  {
    hide Resolve, Save, Count, HandleFor;
  }

  /** A challenge finishes at most one ceremony, of either kind, each time it is issued. */
  lemma CeremonyIsSingleUse(es: seq<Event>, m: nat, n: nat, challenge: string)
    requires m < n < |es| && Finishes(es[m], challenge) && Finishes(es[n], challenge)
    requires challenge in After(es, m).pending && challenge in After(es, n).pending
    ensures exists i :: m < i < n && Begins(es[i], challenge)
  {
    hide Step;
    FinishTakes(After(es, m), es[m], challenge);
    assert challenge !in After(es, m + 1).pending;
    if forall i :: m + 1 <= i < n ==> !Begins(es[i], challenge) {
      TakenStaysTaken(es, m + 1, n, challenge);
      assert false;
    }
  }

  // ---- Credentials ----

  predicate Registers(s: State, e: Event) {
    e.FinishRegistration? && e.challenge in s.pending && e.created.Some?
  }

  ghost predicate Confirms(s: State, e: Event) {
    && e.FinishLogin? && e.challenge in s.pending && e.confirmed.Some?
    && Resolve(s, s.pending[e.challenge], e).Some?
  }

  /** The credentials users have: the last one registered, with the last count confirmed. */
  ghost function Keys(es: seq<Event>, n: nat): Keyring
    requires n <= |es|
  {
    if n == 0 then map[]
    else
      var k, s, e := Keys(es, n - 1), After(es, n - 1), es[n - 1];
      if Registers(s, e) then Register(k, Owned(s.pending[e.challenge].user, e.created.value))
      else if Confirms(s, e) then
        Counted(k, Resolve(s, s.pending[e.challenge], e).value.user, e.confirmed.value.0, e.confirmed.value.1)
      else k
  }

  lemma EmptyTable()
    ensures Represents(map[], 0, map[])
  {
  }

  /** In every reachable state the table holds exactly the keyring: at most one credential per user. */
  lemma {:induction false} TableIsKeyring(es: seq<Event>, n: nat)
    requires n <= |es|
    ensures Represents(After(es, n).table, After(es, n).next, Keys(es, n))
  {
    hide Represents, Save, Register, Count, Counted, Resolve, HandleFor;
    if n == 0 {
      EmptyTable();
    } else {
      TableIsKeyring(es, n - 1);
      var k, s, e := Keys(es, n - 1), After(es, n - 1), es[n - 1];
      if Registers(s, e) {
        SaveRegisters(s.table, s.next, k, Owned(s.pending[e.challenge].user, e.created.value));
      } else if Confirms(s, e) {
        CountCounts(s.table, s.next, k, Resolve(s, s.pending[e.challenge], e).value.user,
                    e.confirmed.value.0, e.confirmed.value.1);
      }
    }
  }

  lemma StoredOfKeys(es: seq<Event>, n: nat, user: string)
    requires n <= |es|
    ensures FindByUser(After(es, n).table, user) == if user in Keys(es, n) then {Keys(es, n)[user]} else {}
  {
    TableIsKeyring(es, n);
    hide After, Keys, Represents, FindByUser;
    UserFound(After(es, n).table, After(es, n).next, Keys(es, n), user);
  }

  /** Every ceremony and every credential of a user with an id belongs to a user who has a handle. */
  ghost predicate UsersKnown(s: State, k: Keyring) {
    && (forall ch :: ch in s.pending && s.pending[ch].user != "" ==> s.pending[ch].user in s.handles)
    && (forall u :: u in k && u != "" ==> u in s.handles)
  }

  lemma PendingKnownStep(s: State, e: Event, k: Keyring)
    requires UsersKnown(s, k) && (e.BeginLogin? && FindByUser(s.table, e.user) != {} ==> e.user in k)
    ensures UsersKnown(Step(s, e), k)
  {
    hide HandleFor, Save, Count, Resolve, FindByUser;
  }

  lemma KeysKnownStep(es: seq<Event>, n: nat)
    requires 0 < n <= |es| && UsersKnown(After(es, n - 1), Keys(es, n - 1))
    ensures forall u :: u in Keys(es, n) && u != "" ==> u in After(es, n - 1).handles
  {
    hide After, Resolve;
  }

  lemma {:induction false} UsersAreKnown(es: seq<Event>, n: nat)
    requires n <= |es|
    ensures UsersKnown(After(es, n), Keys(es, n))
  {
    hide Step, Represents, FindByUser, HandlesAgree, Register, Counted, Registers, Confirms;
    if n == 0 {
    } else {
      UsersAreKnown(es, n - 1);
      HandlesAlwaysAgree(es, n - 1);
      StoredOfKeys(es, n - 1, if es[n - 1].BeginLogin? then es[n - 1].user else "");
      var s, k := After(es, n - 1), Keys(es, n - 1);
      PendingKnownStep(s, es[n - 1], k);
      KeysKnownStep(es, n);
      StepKeepsHandles(s, es[n - 1]);
      hide Keys;
    }
  }

  /**
   Discoverable login: a registered raw key id leads to its owner, with exactly the owner's credential,
   unchanged by encoding, and with the stored handle, which every user with an id has.
   */
  lemma DiscoverableLogin(es: seq<Event>, n: nat, cs: Ceremony, e: Event, user: string)
    requires n <= |es| && e.FinishLogin? && !cs.named
    requires user in Keys(es, n) && Keys(es, n)[user].id == e.rawId
    ensures var s := After(es, n);
            && Resolve(s, cs, e) == Some(Login(user, if user in s.handles then s.handles[user] else e.userHandle,
                                               {Keys(es, n)[user]}))
            && (user != "" ==> user in s.handles && s.handles[user] != "")
  {
    TableIsKeyring(es, n);
    HandlesAlwaysAgree(es, n);
    UsersAreKnown(es, n);
    var s, k := After(es, n), Keys(es, n);
    hide After, Keys;
    LookupThroughEncoding(s.table, s.next, k, e.rawId, user);
    assert k[user].user == user;
    hide Represents, FindByKid, FindByUser;
  }

  /** Login by email: the user the email leads to, with exactly that user's credential; no one without it. */
  lemma NamedLogin(es: seq<Event>, n: nat, cs: Ceremony, e: Event)
    requires n <= |es| && e.FinishLogin? && cs.named
    ensures var k := Keys(es, n);
            Resolve(After(es, n), cs, e)
            == match e.resolved
               case Some(user) => (if user in k then Some(Login(user, "", {k[user]})) else None)
               case None => None
  {
    hide After, Keys;
    if e.resolved.Some? {
      StoredOfKeys(es, n, e.resolved.value);
    }
  }

  /** A ceremony stays as it is until its challenge is used again. */
  lemma {:induction false} CeremonyStays(es: seq<Event>, m: nat, n: nat, challenge: string)
    requires m <= n <= |es| && challenge in After(es, m).pending
    requires forall i :: m <= i < n ==> !Begins(es[i], challenge) && !Finishes(es[i], challenge)
    ensures challenge in After(es, n).pending && After(es, n).pending[challenge] == After(es, m).pending[challenge]
  {
    hide Resolve, Save, Count, HandleFor, FindByUser;
    if n == m {
    } else {
      CeremonyStays(es, m, n - 1, challenge);
      assert !Begins(es[n - 1], challenge) && !Finishes(es[n - 1], challenge);
    }
  }

  /** A login that comes to the user, with a confirmed credential and count, sets exactly that count and uses the ceremony up. */
  lemma LoginCounts(es: seq<Event>, n: nat, user: string)
    requires n < |es| && es[n].FinishLogin? && es[n].challenge in After(es, n).pending && es[n].confirmed.Some?
    requires user in Keys(es, n)
    requires var l := Resolve(After(es, n), After(es, n).pending[es[n].challenge], es[n]); l.Some? && l.value.user == user
    ensures var k, (id, count) := Keys(es, n), es[n].confirmed.value;
            && Keys(es, n + 1) == (if k[user].id == id then k[user := k[user].(signCount := count)] else k)
            && es[n].challenge !in After(es, n + 1).pending
  {
    FinishTakes(After(es, n), es[n], es[n].challenge);
    hide Resolve, Step, Register;
  }

  lemma LoginIsPending(s: State, e: Event)
    requires e.BeginDiscoverable? || (e.BeginLogin? && FindByUser(s.table, e.user) != {})
    ensures var s' := Step(s, e);
            && e.challenge in s'.pending
            && s'.pending[e.challenge] == if e.BeginLogin? then Ceremony(e.user, "", true) else Ceremony("", "", false)
  {
    hide FindByUser;
  }

  lemma NextState(es: seq<Event>, n: nat)
    requires n < |es|
    ensures After(es, n + 1) == Step(After(es, n), es[n])
  {
  }

  /**
   A user with a credential begins a login by email under a challenge not used again before the login is
   finished: if the email still leads there, a confirmed assertion sets exactly that user's count.
   */
  lemma EmailLoginCounts(es: seq<Event>, m: nat, n: nat, user: string, challenge: string)
    requires m < n < |es| && es[m] == BeginLogin(user, challenge) && user in Keys(es, m)
    requires forall i :: m < i < n ==> !Begins(es[i], challenge) && !Finishes(es[i], challenge)
    requires es[n].FinishLogin? && es[n].challenge == challenge && es[n].resolved == Some(user) && es[n].confirmed.Some?
    requires user in Keys(es, n)
    ensures Resolve(After(es, n), Ceremony(user, "", true), es[n]) == Some(Login(user, "", {Keys(es, n)[user]}))
    ensures var k, (id, count) := Keys(es, n), es[n].confirmed.value;
            Keys(es, n + 1) == (if k[user].id == id then k[user := k[user].(signCount := count)] else k)
  {
    hide After, Keys, Step, Resolve, FindByUser;
    StoredOfKeys(es, m, user);
    LoginIsPending(After(es, m), es[m]);
    NextState(es, m);
    CeremonyStays(es, m + 1, n, challenge);
    NamedLogin(es, n, Ceremony(user, "", true), es[n]);
    LoginCounts(es, n, user);
  }

  /** The same for a login begun without a user: the raw key id leads to its owner. */
  lemma DiscoverableLoginCounts(es: seq<Event>, m: nat, n: nat, user: string, challenge: string)
    requires m < n < |es| && es[m] == BeginDiscoverable(challenge)
    requires forall i :: m < i < n ==> !Begins(es[i], challenge) && !Finishes(es[i], challenge)
    requires es[n].FinishLogin? && es[n].challenge == challenge && es[n].confirmed.Some?
    requires user in Keys(es, n) && Keys(es, n)[user].id == es[n].rawId
    ensures var k, (id, count) := Keys(es, n), es[n].confirmed.value;
            Keys(es, n + 1) == (if k[user].id == id then k[user := k[user].(signCount := count)] else k)
  {
    hide After, Keys, Step, Resolve;
    LoginIsPending(After(es, m), es[m]);
    NextState(es, m);
    CeremonyStays(es, m + 1, n, challenge);
    DiscoverableLogin(es, n, Ceremony("", "", false), es[n], user);
    LoginCounts(es, n, user);
  }

  /** Event i registers a credential for the user. */
  ghost predicate RegistersFor(es: seq<Event>, i: nat, user: string)
    requires i < |es|
  {
    Registers(After(es, i), es[i]) && After(es, i).pending[es[i].challenge].user == user
  }

  predicate SameKey(c: Credential, d: Created) {
    c.id == d.id && c.publicKey == d.publicKey && c.backupEligible == d.backupEligible && c.backupState == d.backupState
  }

  lemma KeysStep(es: seq<Event>, n: nat, user: string)
    requires n < |es| && !RegistersFor(es, n, user)
    ensures user in Keys(es, n + 1) <==> user in Keys(es, n)
    ensures user in Keys(es, n) ==> Keys(es, n + 1)[user].(signCount := 0) == Keys(es, n)[user].(signCount := 0)
  {
    hide After, Resolve;
  }

  /**
   A registration takes exactly when no other user has that key id, and then lasts, key and flags
   unchanged, until the user's next registration; a refused one leaves the user with no credential.
   */
  lemma {:induction false} RegistrationLasts(es: seq<Event>, i: nat, n: nat, user: string)
    requires i < n <= |es| && RegistersFor(es, i, user)
    requires forall j :: i < j < n ==> !RegistersFor(es, j, user)
    ensures user in Keys(es, n) <==> !HeldByOther(Keys(es, i), user, es[i].created.value.id)
    ensures user in Keys(es, n) ==> SameKey(Keys(es, n)[user], es[i].created.value)
  {
    hide After, Resolve;
    if n == i + 1 {
    } else {
      RegistrationLasts(es, i, n - 1, user);
      KeysStep(es, n - 1, user);
      hide Keys;
    }
  }

  // ---- Where a credential's ceremony comes from ----

  /** Event j stores a ceremony under the challenge. */
  ghost predicate Stores(es: seq<Event>, j: nat, challenge: string)
    requires j < |es|
  {
    && Begins(es[j], challenge)
    && (es[j].BeginRegistration? ==> es[j].started)
    && (es[j].BeginLogin? ==> FindByUser(After(es, j).table, es[j].user) != {})
  }

  /** Event j is the last before n to do so. */
  ghost predicate StoresLast(es: seq<Event>, j: nat, n: nat, challenge: string)
    requires n <= |es|
  {
    j < n && Stores(es, j, challenge) && forall k :: j < k < n ==> !Stores(es, k, challenge)
  }

  ghost predicate ComesFrom(e: Event, cs: Ceremony) {
    && (e.BeginRegistration? <==> cs.handle != "")
    && (e.BeginDiscoverable? <==> !cs.named)
    && cs.user == if e.BeginRegistration? || e.BeginLogin? then e.user else ""
  }

  lemma CeremonyStep(es: seq<Event>, m: nat, challenge: string)
    requires m < |es| && challenge in After(es, m + 1).pending && HandlesAgree(After(es, m))
    ensures var cs := After(es, m + 1).pending[challenge];
            if Stores(es, m, challenge) then ComesFrom(es[m], cs)
            else challenge in After(es, m).pending && cs == After(es, m).pending[challenge]
  {
    var s, e := After(es, m), es[m];
    if e.BeginRegistration? {
      HandleIsReal(s, e);
    }
    hide HandleFor, Save, Resolve, HandlesAgree, FindByUser, Count;
  }

  lemma {:induction false} CeremonyOrigin(es: seq<Event>, n: nat, challenge: string)
    requires n <= |es| && challenge in After(es, n).pending
    ensures exists j: nat :: StoresLast(es, j, n, challenge) && ComesFrom(es[j], After(es, n).pending[challenge])
  {
    hide HandlesAgree, Step, Stores, ComesFrom;
    if n == 0 {
    } else {
      HandlesAlwaysAgree(es, n - 1);
      var m := n - 1;
      CeremonyStep(es, m, challenge);
      if Stores(es, m, challenge) {
        assert StoresLast(es, m, n, challenge);
      } else {
        CeremonyOrigin(es, m, challenge);
        var j: nat :| StoresLast(es, j, m, challenge) && ComesFrom(es[j], After(es, m).pending[challenge]);
        assert StoresLast(es, j, n, challenge);
      }
    }
  }

  /**
   A credential is registered under a challenge that BeginRegistration issued for its user exactly when
   the ceremony has a handle, which FinishRegistration does not check.
   */
  lemma RegisteredFromRegistration(es: seq<Event>, i: nat, user: string)
    requires i < |es| && RegistersFor(es, i, user)
    ensures After(es, i).pending[es[i].challenge].handle != ""
       <==> exists j: nat :: StoresLast(es, j, i, es[i].challenge) && es[j].BeginRegistration? && es[j].user == user
  {
    hide After, Stores;
    var ch := es[i].challenge;
    CeremonyOrigin(es, i, ch);
    var j: nat :| StoresLast(es, j, i, ch) && ComesFrom(es[j], After(es, i).pending[ch]);
    forall k: nat | StoresLast(es, k, i, ch) ensures k == j {
    }
  }

  // ---- Runs that fail ----

  /** A registration begun and finished with no other event in between. */
  lemma RegisterNow(es: seq<Event>, i: nat, e: Event, c: Created)
    requires i + 2 <= |es| && es[i] == e && e.BeginRegistration? && e.started
    requires es[i + 1] == FinishRegistration(e.challenge, Some(c))
    ensures RegistersFor(es, i + 1, e.user)
    ensures Keys(es, i + 2) == Register(Keys(es, i), Owned(e.user, c))
  {
    hide HandleFor, Register, Resolve, Save;
    assert After(es, i + 1) == Step(After(es, i), e);
    assert Keys(es, i + 1) == Keys(es, i);
  }

  lemma NoKeys(es: seq<Event>)
    ensures Keys(es, 0) == map[]
  {
  }

  /** A user with a credential who then registers a key id that another user holds ends up with none. */
  lemma RefusedRegistrationLosesTheOld(es: seq<Event>, b: seq<Event>, c: Created, d: Created, d': Created)
    requires |b| == 3 && forall i :: 0 <= i < 3 ==> b[i].BeginRegistration? && b[i].started
    requires b[0].user == b[2].user != b[1].user && c.id != d.id && d'.id == d.id
    requires es == [b[0], FinishRegistration(b[0].challenge, Some(c)), b[1], FinishRegistration(b[1].challenge, Some(d)),
                    b[2], FinishRegistration(b[2].challenge, Some(d'))]
    ensures FindByUser(After(es, 4).table, b[0].user) == {Owned(b[0].user, c)}
    ensures FindByUser(After(es, 6).table, b[0].user) == {}
    ensures FindByUser(After(es, 6).table, b[1].user) == {Owned(b[1].user, d)}
  {
    hide After, Keys, FindByUser, Step;
    var u, v := b[0].user, b[1].user;
    assert Keys(es, 0) == map[] by { NoKeys(es); }
    RegisterNow(es, 0, b[0], c);
    RegisterNow(es, 2, b[1], d);
    RegisterNow(es, 4, b[2], d');
    assert Keys(es, 2) == map[u := Owned(u, c)];
    assert Keys(es, 4) == map[u := Owned(u, c), v := Owned(v, d)];
    assert v in Keys(es, 4) && HeldByOther(Keys(es, 4), u, d'.id);
    assert Keys(es, 6) == map[v := Owned(v, d)];
    StoredOfKeys(es, 4, u);
    StoredOfKeys(es, 6, u);
    StoredOfKeys(es, 6, v);
  }

  lemma RealHandle(s: State, user: string)
    requires HandlesAgree(s) && user in s.handles
    ensures StoredHandle(s, user) != ""
  {
  }

  /** A user registers, then begins a login by email: the ceremony has no handle while the user has one. */
  lemma LoginAfterRegistration(es: seq<Event>, e: Event, c: Created, challenge: string)
    requires |es| >= 3 && e.BeginRegistration? && e.started
    requires es[0] == e && es[1] == FinishRegistration(e.challenge, Some(c)) && es[2] == BeginLogin(e.user, challenge)
    ensures var s := After(es, 3);
            && challenge in s.pending && s.pending[challenge] == Ceremony(e.user, "", true)
            && RebuiltHandle(s, s.pending[challenge]) != s.pending[challenge].handle
            && Keys(es, 3) == map[e.user := Owned(e.user, c)]
  {
    hide HandleFor, Resolve, Save, FindByUser, HandlesAgree;
    NoKeys(es);
    RegisterNow(es, 0, e, c);
    StoredOfKeys(es, 2, e.user);
    HandlesAlwaysAgree(es, 2);
    assert e.user in After(es, 1).handles;
    HandleIsStable(es, 1, 2, e.user);
    assert StoredHandle(After(es, 2), e.user) != "" by { RealHandle(After(es, 2), e.user); }
    assert After(es, 3) == Step(After(es, 2), es[2]);
  }

  /** That login ceremony then finishes a registration, which replaces the user's credential. */
  lemma LoginCeremonyRegisters(es: seq<Event>, e: Event, c: Created, d: Created, challenge: string)
    requires |es| == 4 && e.BeginRegistration? && e.started
    requires es[0] == e && es[1] == FinishRegistration(e.challenge, Some(c)) && es[2] == BeginLogin(e.user, challenge)
    requires es[3] == FinishRegistration(challenge, Some(d))
    ensures RegistersFor(es, 3, e.user) && After(es, 3).pending[challenge].handle == ""
    ensures FindByUser(After(es, 4).table, e.user) == {Owned(e.user, d)}
  {
    LoginAfterRegistration(es, e, c, challenge);
    hide After, FindByUser;
    assert Keys(es, 4) == map[e.user := Owned(e.user, d)];
    StoredOfKeys(es, 4, e.user);
  }

  // ---- The service object ----

  class PasskeyService {
    const creds: CredRepo
    var sessions: map<string, Ceremony>

    constructor (creds: CredRepo)
      ensures this.creds == creds && sessions == map[]
    {
      this.creds := creds;
      sessions := map[];
    }

    ghost function Current(): State
      reads this, creds
    {
      State(creds.handles, creds.table, creds.next, sessions)
    }

    method StoreSession(challenge: string, data: Ceremony)
      modifies this`sessions
      ensures sessions == Registry.Apply(old(sessions), Registry.Put(challenge, data, 0))
    {
      sessions := sessions[challenge := data];
    }

    method TakeSession(challenge: string) returns (data: Option<Ceremony>)
      modifies this`sessions
      ensures sessions == Registry.Apply(old(sessions), Registry.Take(challenge, 0))
      ensures data == if challenge in old(sessions) then Some(old(sessions)[challenge]) else None
    {
      if challenge !in sessions {
        assert sessions == sessions - {challenge};
        return None;
      }
      data := Some(sessions[challenge]);
      sessions := sessions - {challenge};
    }

    method FindOrCreateHandle(user: string, tenant: string, random: Random) returns (handle: string)
      modifies creds`handles
      ensures handle == HandleFor(old(Current()), user, tenant, random)
      ensures creds.handles == old(creds.handles)[user := handle]
    {
      handle := creds.FindHandleByUserID(user);
      if handle != "" {
        return;
      }
      handle := Handles.GenerateHandleWithTenant(tenant, random);
      creds.SaveUser(user, handle);
    }

    /** user is who the email or the hash led to; challenge is what the library drew, if it started. */
    method BeginRegistration(user: string, tenant: string, random: Random, challenge: string, started: bool)
      modifies this`sessions, creds`handles
      ensures Current() == Step(old(Current()), Event.BeginRegistration(user, tenant, random, challenge, started))
    {
      var handle := FindOrCreateHandle(user, tenant, random);
      if started {
        StoreSession(challenge, Ceremony(user, handle, true));
      }
    }

    /**
     created is what the library made of the response, for the ceremony's handle. The call succeeds
     exactly when the response is good and the store accepts the credential.
     */
    method FinishRegistration(challenge: string, created: Option<Created>) returns (handle: Option<string>, saved: bool)
      modifies this`sessions, creds
      ensures Current() == Step(old(Current()), Event.FinishRegistration(challenge, created))
      ensures handle == if challenge in old(sessions) then Some(old(sessions)[challenge].handle) else None
      ensures HandlesAgree(old(Current())) && handle.Some? && handle.value != ""
          ==> handle.value == RebuiltHandle(old(Current()), old(sessions)[challenge])
      ensures saved <==>
        && challenge in old(sessions) && created.Some?
        && !KidTaken(WithoutUser(old(creds.table), old(sessions)[challenge].user), Base64Url.Raw(created.value.id))
    {
      hide Save, Base64Url.Raw;
      var cs := TakeSession(challenge);
      if cs.None? {
        return None, false;
      }
      handle, saved := Some(cs.value.handle), false;
      if created.Some? {
        saved := creds.SaveCredential(Owned(cs.value.user, created.value));
      }
    }

    /** Begins only for a user with credentials; the library sees them without a handle. */
    method BeginLogin(user: string, challenge: string) returns (begun: bool)
      modifies this`sessions
      ensures Current() == Step(old(Current()), Event.BeginLogin(user, challenge))
      ensures begun <==> FindByUser(creds.table, user) != {}
    {
      var credentials := creds.FindCredentialsByUserID(user);
      if credentials == [] {
        return false;
      }
      assert credentials[0] in FindByUser(creds.table, user);
      StoreSession(challenge, Ceremony(user, "", true));
      return true;
    }

    method BeginLoginDiscoverable(challenge: string)
      modifies this`sessions
      ensures Current() == Step(old(Current()), Event.BeginDiscoverable(challenge))
    {
      StoreSession(challenge, Ceremony("", "", false));
    }

    /** The user to check the assertion against, with the credentials the library may match. */
    method ResolveLogin(cs: Ceremony, rawId: seq<Byte>, userHandle: string, resolved: Option<string>, ghost e: Event)
        returns (user: Option<string>, handle: string, credentials: seq<Credential>)
      requires UniqueKids(creds.table)
      requires e.FinishLogin? && e.rawId == rawId && e.userHandle == userHandle && e.resolved == resolved
      ensures Resolution(Current(), cs, e,
                         if user.None? then None else Some(Login(user.value, handle, set c | c in credentials)))
    {
      handle, credentials := "", [];
      if cs.named {
        if resolved.None? {
          return None, "", [];
        }
        credentials := creds.FindCredentialsByUserID(resolved.value);
        assert (set c | c in credentials) == FindByUser(creds.table, resolved.value);
        if credentials == [] {
          return None, "", [];
        }
        assert credentials[0] in FindByUser(creds.table, resolved.value);
        return resolved, "", credentials;
      }
      var found := creds.FindCredentialByKID(rawId);
      if found.Some? {
        handle := creds.FindHandleByUserID(found.value.user);
        if handle == "" {
          handle := userHandle;
        }
        credentials := creds.FindCredentialsByUserID(found.value.user);
        assert (set c | c in credentials) == FindByUser(creds.table, found.value.user);
        return Some(found.value.user), handle, credentials;
      }
      if u :| u in creds.handles && creds.handles[u] == userHandle {
        credentials := creds.FindCredentialsByUserID(u);
        assert (set c | c in credentials) == FindByUser(creds.table, u);
        return Some(u), userHandle, credentials;
      }
      return None, "", [];
    }

    /** confirmed is the credential and count of a validated assertion; who is that login is what was resolved. */
    method FinishLogin(challenge: string, rawId: seq<Byte>, userHandle: string, resolved: Option<string>,
                       confirmed: Option<(seq<Byte>, Counter)>)
        returns (user: Option<string>, ghost login: Option<Login>)
      requires UniqueKids(creds.table)
      modifies this`sessions, creds`table
      ensures var e := Event.FinishLogin(challenge, rawId, userHandle, resolved, confirmed);
              && (if challenge in old(sessions) then Resolution(old(Current()), old(sessions)[challenge], e, login)
                  else login.None?)
              && Current() == FinishWith(old(Current()), challenge, login, confirmed)
              && user == (if login.Some? && confirmed.Some? then Some(login.value.user) else None)
              && (UniqueHandles(old(creds.handles)) ==> Current() == Step(old(Current()), e))
    {
      hide Count, FindByKid, FindByUser;
      ghost var e := Event.FinishLogin(challenge, rawId, userHandle, resolved, confirmed);
      ghost var before := Current();
      login := None;
      var cs := TakeSession(challenge);
      if cs.None? {
        return None, None;
      }
      var handle, credentials;
      user, handle, credentials := ResolveLogin(cs.value, rawId, userHandle, resolved, e);
      login := if user.None? then None else Some(Login(user.value, handle, set c | c in credentials));
      assert Resolution(before, cs.value, e, login);
      if UniqueHandles(before.handles) {
        ResolutionIsUnique(before, cs.value, e, login);
      }
      if user.None? || confirmed.None? {
        user := None;
        return;
      }
      creds.UpdateSignCount(user.value, confirmed.value.0, confirmed.value.1);
    }
  }

  /** The element-wise conversion for the library: in order, and each as registered but for the authenticator id. */
  method WebAuthnCreds(creds: seq<Credential>) returns (out: seq<Shown>)
    ensures |out| == |creds| && forall i :: 0 <= i < |creds| ==> out[i] == Show(creds[i])
    ensures forall i, user, c :: 0 <= i < |creds| && creds[i] == Owned(user, c) ==> out[i].(aaguid := c.aaguid) == c
  {
    out := [];
    for i := 0 to |creds|
      invariant |out| == i
      invariant forall k :: 0 <= k < i ==> out[k] == Show(creds[k])
    {
      out := out + [Show(creds[i])];
    }
    forall i, user, c | 0 <= i < |creds| && creds[i] == Owned(user, c) ensures out[i].(aaguid := c.aaguid) == c {
      ShownAsRegistered(user, c);
    }
  }
}
