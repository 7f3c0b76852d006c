/**
 Refresh-token sessions: SessionAuthService over the sessions table. Tokens appear as their hashes, so
 that distinct hashes stand for fresh tokens under an injective hash. Store calls succeed and each
 service call is one event; the users who exist change between events.
 */
module Sessions {
  import opened Prelude

  type Hash = string

  datatype Row = Row(user: string, hash: Hash, expiresAt: int)

  /** The table is keyed by record ids; next is the first id never used. */
  datatype State = State(rows: map<nat, Row>, next: nat, users: set<string>)

  /** A None token says that signing the token pair failed. */
  datatype Event =
    | Issue(user: string, token: Option<Hash>, expiresAt: int)
    | Rotate(presented: Hash, token: Option<Hash>, expiresAt: int)
    | RevokeUser(user: string)
    | RevokeToken(hash: Hash)
    | Cleanup(now: int)
    | SetUsers(users: set<string>)

  // ---- The table ----

  function WithoutUser(rows: map<nat, Row>, user: string): map<nat, Row> {
    map id | id in rows && rows[id].user != user :: rows[id]
  }

  function WithoutHash(rows: map<nat, Row>, hash: Hash): map<nat, Row> {
    map id | id in rows && rows[id].hash != hash :: rows[id]
  }

  function Unexpired(rows: map<nat, Row>, now: int): map<nat, Row> {
    map id | id in rows && rows[id].expiresAt >= now :: rows[id]
  }

  predicate Holds(rows: map<nat, Row>, id: nat, hash: Hash) { id in rows && rows[id].hash == hash }

  /** The first row the store returns for the hash. */
  ghost function Find(rows: map<nat, Row>, hash: Hash): (row: Option<Row>)
    ensures row.Some? <==> exists id :: Holds(rows, id, hash)
    ensures row.Some? ==> row.value in rows.Values && row.value.hash == hash
  {
    if id :| Holds(rows, id, hash) then Some(rows[id]) else None
  }

  /** What the store may return for the hash: any row that has it, or none if there is none. */
  ghost predicate MayFind(rows: map<nat, Row>, hash: Hash, row: Option<Row>) {
    match row
    case None => forall id :: !Holds(rows, id, hash)
    case Some(r) => exists id :: Holds(rows, id, hash) && rows[id] == r
  }

  /** Deletes the user's sessions first, except for the empty user id. */
  function Inserted(s: State, row: Row): State {
    var kept := if row.user != "" then WithoutUser(s.rows, row.user) else s.rows;
    s.(rows := kept[s.next := row], next := s.next + 1)
  }

  // ---- Service calls ----

  ghost predicate Accepts(s: State, e: Event) {
    && e.Rotate?
    && var found := Find(s.rows, e.presented);
       found.Some? && found.value.user in s.users && e.token.Some?
  }

  /** The row an event adds. */
  ghost function Added(s: State, e: Event): Option<Row> {
    if e.Issue? && e.token.Some? then Some(Row(e.user, e.token.value, e.expiresAt))
    else if Accepts(s, e) then Some(Row(Find(s.rows, e.presented).value.user, e.token.value, e.expiresAt))
    else None
  }

  /** Rotate, given the row the store returned: it is revoked even where no new token follows. */
  function RotateWith(s: State, e: Event, found: Option<Row>): State
    requires e.Rotate?
  {
    if found.None? then s
    else
      var user := found.value.user;
      var s' := s.(rows := WithoutUser(s.rows, user));
      if user in s.users && e.token.Some? then Inserted(s', Row(user, e.token.value, e.expiresAt)) else s'
  }

  ghost function Step(s: State, e: Event): State {
    match e
    case Issue(user, token, expiresAt) =>
      if token.Some? then Inserted(s, Row(user, token.value, expiresAt)) else s
    case Rotate(presented, _, _) => RotateWith(s, e, Find(s.rows, presented))
    case RevokeUser(user) => s.(rows := WithoutUser(s.rows, user))
    case RevokeToken(hash) => s.(rows := WithoutHash(s.rows, hash))
    case Cleanup(now) => s.(rows := Unexpired(s.rows, now))
    case SetUsers(users) => s.(users := users)
  }

  /** A presentation that finds a session ends every session of its user, the empty user id included; a new one may follow. */
  lemma PresentationEndsAll(s: State, e: Event, id: nat)
    requires e.Rotate? && Find(s.rows, e.presented).Some? && id in Step(s, e).rows
    requires Step(s, e).rows[id].user == Find(s.rows, e.presented).value.user
    ensures Accepts(s, e) && id == s.next && Step(s, e).rows[id].hash == e.token.value
  {
    hide Find;
  }

  // ---- Runs ----

  function Initial(): State { State(map[], 0, {}) }

  ghost function After(es: seq<Event>, n: nat): State
    requires n <= |es|
  {
    if n == 0 then Initial() else Step(After(es, n - 1), es[n - 1])
  }

  predicate Mints(e: Event, hash: Hash) { (e.Issue? || e.Rotate?) && e.token == Some(hash) }

  /** Refresh tokens are random: no two events mint the same hash. */
  ghost predicate Fresh(es: seq<Event>) {
    forall i, j, h :: 0 <= i < j < |es| && Mints(es[i], h) ==> !Mints(es[j], h)
  }

  /** Every session belongs to a user with an id. */
  predicate NamedUsers(es: seq<Event>) { forall i :: 0 <= i < |es| && es[i].Issue? ==> es[i].user != "" }

  predicate OneHash(rows: map<nat, Row>) {
    forall id, id' :: id in rows && id' in rows && rows[id].hash == rows[id'].hash ==> id == id'
  }

  predicate OneSession(rows: map<nat, Row>) {
    forall id, id' :: id in rows && id' in rows && rows[id].user == rows[id'].user != "" ==> id == id'
  }

  predicate IdsUsed(s: State) { forall id :: id in s.rows ==> id < s.next }

  lemma StepKeepsSessions(s: State, e: Event)
    requires IdsUsed(s) && OneSession(s.rows)
    ensures IdsUsed(Step(s, e)) && OneSession(Step(s, e).rows)
  {
  }

  /** In every reachable state each user with a nonempty id has at most one session. */
  lemma {:induction false} OneSessionPerUser(es: seq<Event>, n: nat)
    requires n <= |es|
    ensures IdsUsed(After(es, n)) && OneSession(After(es, n).rows)
  {
    if n == 0 {
    } else {
      OneSessionPerUser(es, n - 1);
      StepKeepsSessions(After(es, n - 1), es[n - 1]);
    }
  }

  /** Where the empty id is used, nothing is revoked and sessions pile up. */
  lemma EmptyUserPilesUp(a: Hash, b: Hash)
    ensures var es := [Issue("", Some(a), 0), Issue("", Some(b), 0)];
            After(es, 2).rows == map[0 := Row("", a, 0), 1 := Row("", b, 0)]
  {
    var es := [Issue("", Some(a), 0), Issue("", Some(b), 0)];
    assert After(es, 1) == Inserted(Initial(), Row("", a, 0));
    assert After(es, 2) == Inserted(After(es, 1), Row("", b, 0));
  }

  // ---- Where rows come from ----

  /** Some event before n minted the hash. */
  ghost predicate MintedBefore(es: seq<Event>, n: nat, hash: Hash)
    requires n <= |es|
  {
    exists i :: 0 <= i < n && Mints(es[i], hash)
  }

  lemma StepRows(s: State, e: Event, id: nat)
    requires id in Step(s, e).rows
    ensures || (id in s.rows && Step(s, e).rows[id] == s.rows[id])
            || (id == s.next && Added(s, e) == Some(Step(s, e).rows[id]))
  {
  }

  lemma {:induction false} RowsAreMinted(es: seq<Event>, n: nat)
    requires n <= |es|
    ensures forall id :: id in After(es, n).rows ==> MintedBefore(es, n, After(es, n).rows[id].hash)
  {
    if n == 0 {
    } else {
      RowsAreMinted(es, n - 1);
      var s, s' := After(es, n - 1), After(es, n);
      forall id | id in s'.rows ensures MintedBefore(es, n, s'.rows[id].hash) {
        StepRows(s, es[n - 1], id);
        hide Step;
        if !(id in s.rows && s'.rows[id] == s.rows[id]) {
          assert Mints(es[n - 1], s'.rows[id].hash);
        }
      }
    }
  }

  lemma StepKeepsHashes(s: State, e: Event)
    requires OneHash(s.rows) && forall id :: id in s.rows ==> !Mints(e, s.rows[id].hash)
    ensures OneHash(Step(s, e).rows)
  {
    var s' := Step(s, e);
    forall id, id' | id in s'.rows && id' in s'.rows && s'.rows[id].hash == s'.rows[id'].hash ensures id == id' {
      StepRows(s, e, id);
      StepRows(s, e, id');
      hide Step;
    }
  }

  /** No two sessions share a hash. */
  lemma {:induction false} HashesAreUnique(es: seq<Event>, n: nat)
    requires n <= |es| && Fresh(es)
    ensures OneHash(After(es, n).rows)
  {
    if n == 0 {
    } else {
      HashesAreUnique(es, n - 1);
      OneSessionPerUser(es, n - 1);
      RowsAreMinted(es, n - 1);
      var s, e := After(es, n - 1), es[n - 1];
      forall id | id in s.rows ensures !Mints(e, s.rows[id].hash) {
        var k :| 0 <= k < n - 1 && Mints(es[k], s.rows[id].hash);
      }
      StepKeepsHashes(s, e);
    }
  }

  // ---- Single use ----

  ghost predicate Absent(rows: map<nat, Row>, hash: Hash) { forall id :: !Holds(rows, id, hash) }

  lemma PresentedIsGone(s: State, e: Event)
    requires e.Rotate? && OneHash(s.rows) && !Mints(e, e.presented)
    ensures Absent(Step(s, e).rows, e.presented)
  {
    forall id ensures !Holds(Step(s, e).rows, id, e.presented) {
      if Holds(Step(s, e).rows, id, e.presented) {
        StepRows(s, e, id);
      }
    }
  }

  lemma AbsentStep(s: State, e: Event, hash: Hash)
    requires Absent(s.rows, hash) && !Mints(e, hash)
    ensures Absent(Step(s, e).rows, hash)
  {
    var s' := Step(s, e);
    forall id ensures !Holds(s'.rows, id, hash) {
      if id in s'.rows {
        StepRows(s, e, id);
        assert !Holds(s.rows, id, hash);
      }
    }
  }

  lemma {:induction false} GoneForGood(es: seq<Event>, m: nat, n: nat, hash: Hash)
    requires m <= n <= |es| && Fresh(es)
    requires MintedBefore(es, m, hash) && Absent(After(es, m).rows, hash)
    ensures Absent(After(es, n).rows, hash)
  {
    if n == m {
    } else {
      GoneForGood(es, m, n - 1, hash);
      var k :| 0 <= k < m && Mints(es[k], hash);
      assert !Mints(es[n - 1], hash);
      AbsentStep(After(es, n - 1), es[n - 1], hash);
    }
  }

  lemma NextState(es: seq<Event>, n: nat)
    requires n < |es|
    ensures After(es, n + 1) == Step(After(es, n), es[n])
  {
  }

  lemma NotAccepted(s: State, e: Event)
    requires e.Rotate? && Absent(s.rows, e.presented)
    ensures !Accepts(s, e)
  {
  }

  /** Once issued, a token is good for one presentation: whatever came of it, no later one is accepted. */
  lemma PresentedAtMostOnce(es: seq<Event>, i: nat, j: nat)
    requires i < j < |es| && Fresh(es) && es[i].Rotate? && MintedBefore(es, i, es[i].presented)
    requires es[j].Rotate? && es[j].presented == es[i].presented
    ensures !Accepts(After(es, j), es[j])
  {
    hide Step, After, Accepts;
    var h := es[i].presented;
    HashesAreUnique(es, i);
    var k :| 0 <= k < i && Mints(es[k], h);
    assert !Mints(es[i], h);
    PresentedIsGone(After(es, i), es[i]);
    assert MintedBefore(es, i + 1, h);
    assert After(es, i + 1) == Step(After(es, i), es[i]) by { NextState(es, i); }
    GoneForGood(es, i + 1, j, h);
    NotAccepted(After(es, j), es[j]);
  }

  /** Over a whole run every refresh token is accepted at most once, empty user ids included. */
  lemma AcceptedAtMostOnce(es: seq<Event>, i: nat, j: nat)
    requires i < j < |es| && Fresh(es)
    requires Accepts(After(es, i), es[i]) && es[j].Rotate? && es[j].presented == es[i].presented
    ensures !Accepts(After(es, j), es[j])
  {
    hide Step, After;
    var s := After(es, i);
    var id :| Holds(s.rows, id, es[i].presented);
    RowsAreMinted(es, i);
    PresentedAtMostOnce(es, i, j);
  }

  // ---- Which tokens are live ----

  /** The events that end a session. */
  predicate Ends(e: Event, row: Row) {
    match e
    case Issue(user, token, _) => user == row.user && token.Some?
    case Rotate(presented, _, _) => presented == row.hash
    case RevokeUser(user) => user == row.user
    case RevokeToken(hash) => hash == row.hash
    case Cleanup(now) => row.expiresAt < now
    case SetUsers(_) => false
  }

  ghost predicate Stored(s: State, row: Row) { exists id :: id in s.rows && s.rows[id] == row }

  lemma Unended(s: State, e: Event, id: nat)
    requires IdsUsed(s) && OneSession(s.rows) && OneHash(s.rows)
    requires id in s.rows && s.rows[id].user != ""
    ensures id in Step(s, e).rows && Step(s, e).rows[id] == s.rows[id] <==> !Ends(e, s.rows[id])
  {
    if e.Rotate? && e.presented == s.rows[id].hash {
      assert Holds(s.rows, id, e.presented);
    }
  }

  lemma StepKeepsExactlyTheUnended(s: State, e: Event, row: Row)
    requires IdsUsed(s) && OneSession(s.rows) && OneHash(s.rows)
    requires row.user != "" && Added(s, e) != Some(row)
    ensures Stored(Step(s, e), row) <==> Stored(s, row) && !Ends(e, row)
  {
    if Stored(Step(s, e), row) {
      var id :| id in Step(s, e).rows && Step(s, e).rows[id] == row;
      StepRows(s, e, id);
      Unended(s, e, id);
    }
    if Stored(s, row) && !Ends(e, row) {
      var id :| id in s.rows && s.rows[id] == row;
      Unended(s, e, id);
      assert id in Step(s, e).rows && Step(s, e).rows[id] == row;
    }
  }

  lemma {:induction false} RowsAreNamed(es: seq<Event>, n: nat)
    requires n <= |es| && NamedUsers(es)
    ensures forall id :: id in After(es, n).rows ==> After(es, n).rows[id].user != ""
  {
    if n == 0 {
    } else {
      RowsAreNamed(es, n - 1);
      forall id | id in After(es, n).rows ensures After(es, n).rows[id].user != "" {
        StepRows(After(es, n - 1), es[n - 1], id);
      }
    }
  }

  lemma AddedIsNamed(es: seq<Event>, i: nat)
    requires i < |es| && NamedUsers(es) && Added(After(es, i), es[i]).Some?
    ensures Added(After(es, i), es[i]).value.user != ""
  {
    RowsAreNamed(es, i);
  }

  /** The session event i created is in the table exactly as long as no event after i has ended it. */
  lemma {:induction false} LivesUntilEnded(es: seq<Event>, i: nat, n: nat)
    requires i < n <= |es| && Fresh(es) && NamedUsers(es)
    requires Added(After(es, i), es[i]).Some?
    ensures Stored(After(es, n), Added(After(es, i), es[i]).value)
       <==> forall j :: i < j < n ==> !Ends(es[j], Added(After(es, i), es[i]).value)
  {
    var row := Added(After(es, i), es[i]).value;
    if n == i + 1 {
      var s, s' := After(es, i), After(es, n);
      assert s'.rows[s.next] == row;
    } else {
      LivesUntilEnded(es, i, n - 1);
      OneSessionPerUser(es, n - 1);
      HashesAreUnique(es, n - 1);
      AddedIsNamed(es, i);
      assert Mints(es[i], row.hash);
      StepKeepsExactlyTheUnended(After(es, n - 1), es[n - 1], row);
    }
  }

  /** Event i issued the token to the row's user, and nothing since has ended that session. */
  ghost predicate Latest(es: seq<Event>, i: nat, n: nat, row: Row)
    requires n <= |es|
  {
    && i < n
    && Added(After(es, i), es[i]) == Some(row)
    && forall j :: i < j < n ==> !Ends(es[j], row)
  }

  lemma {:induction false} Origin(es: seq<Event>, n: nat, row: Row) returns (i: nat)
    requires n <= |es| && Stored(After(es, n), row)
    ensures i < n && Added(After(es, i), es[i]) == Some(row)
  {
    var id :| id in After(es, n).rows && After(es, n).rows[id] == row;
    StepRows(After(es, n - 1), es[n - 1], id);
    if Added(After(es, n - 1), es[n - 1]) == Some(row) {
      i := n - 1;
    } else {
      i := Origin(es, n - 1, row);
    }
  }

  lemma {:induction false} StoredIsLatest(es: seq<Event>, n: nat, row: Row)
    requires n <= |es| && Fresh(es) && NamedUsers(es)
    ensures Stored(After(es, n), row) <==> exists i :: Latest(es, i, n, row)
  {
    if Stored(After(es, n), row) {
      var i := Origin(es, n, row);
      LivesUntilEnded(es, i, n);
      assert Latest(es, i, n, row);
    }
    if i :| Latest(es, i, n, row) {
      LivesUntilEnded(es, i, n);
    }
  }

  /** The users who exist: what the last change before n says. */
  function UsersAt(es: seq<Event>, n: nat): set<string>
    requires n <= |es|
  {
    if n == 0 then {} else if es[n - 1].SetUsers? then es[n - 1].users else UsersAt(es, n - 1)
  }

  lemma {:induction false} UsersAreLast(es: seq<Event>, n: nat)
    requires n <= |es|
    ensures After(es, n).users == UsersAt(es, n)
  {
    if n == 0 {
    } else {
      UsersAreLast(es, n - 1);
    }
  }

  /** The last event before n that minted the hash. */
  function MintedAt(es: seq<Event>, n: nat, hash: Hash): (i: Option<nat>)
    requires n <= |es|
    ensures i.Some? ==> i.value < n && Mints(es[i.value], hash)
    ensures i.None? ==> forall j :: 0 <= j < n ==> !Mints(es[j], hash)
  {
    if n == 0 then None else if Mints(es[n - 1], hash) then Some(n - 1) else MintedAt(es, n - 1, hash)
  }

  /** The user at the start of the rotation chain that event i continues. */
  function OwnerOf(es: seq<Event>, i: nat): string
    requires i < |es|
    decreases i
  {
    match es[i]
    case Issue(user, _, _) => user
    case Rotate(presented, _, _) =>
      (match MintedAt(es, i, presented)
       case Some(j) => OwnerOf(es, j)
       case None => "")
    case _ => ""
  }

  /** A new session holds the event's token and expiry, and belongs to the user its rotation chain was issued to. */
  lemma {:induction false} ChainKeepsOwner(es: seq<Event>, i: nat)
    requires i < |es| && Fresh(es) && Added(After(es, i), es[i]).Some?
    ensures es[i].Issue? || es[i].Rotate?
    ensures es[i].token.Some?
    ensures Added(After(es, i), es[i]).value == Row(OwnerOf(es, i), es[i].token.value, es[i].expiresAt)
    decreases i
  {
    if es[i].Rotate? {
      var h := es[i].presented;
      var row := Find(After(es, i).rows, h).value;
      var j := Origin(es, i, row);
      ChainKeepsOwner(es, j);
      hide After, Find;
      assert Mints(es[j], h);
      assert MintedAt(es, i, h) == Some(j);
    }
  }

  /**
   Rotate succeeds exactly for a token some earlier event issued to a user who still exists, where no
   later event issued that user another token, presented this one, revoked it, or cleaned it up.
   */
  lemma RotateIsHistory(es: seq<Event>, n: nat)
    requires n < |es| && Fresh(es) && NamedUsers(es) && es[n].Rotate? && es[n].token.Some?
    ensures Accepts(After(es, n), es[n])
       <==> exists i, row :: Latest(es, i, n, row) && row.hash == es[n].presented && row.user in UsersAt(es, n)
  {
    var s := After(es, n);
    UsersAreLast(es, n);
    HashesAreUnique(es, n);
    if Accepts(s, es[n]) {
      var row := Find(s.rows, es[n].presented).value;
      StoredIsLatest(es, n, row);
      var i :| Latest(es, i, n, row);
    }
    if i, row :| Latest(es, i, n, row) && row.hash == es[n].presented && row.user in s.users {
      StoredIsLatest(es, n, row);
      var id :| id in s.rows && s.rows[id] == row;
      assert Holds(s.rows, id, es[n].presented);
    }
  }

  // ---- The objects ----

  /** The sessions table behind SessionRepo. */
  class SessionRepo {
    var rows: map<nat, Row>
    var next: nat

    constructor ()
      ensures rows == map[] && next == 0
    {
      rows := map[];
      next := 0;
    }

    method Create(row: Row)
      modifies this
      ensures forall users :: State(rows, next, users) == Inserted(State(old(rows), old(next), users), row)
    {
      if row.user != "" {
        RevokeByUserID(row.user);
      }
      rows := rows[next := row];
      next := next + 1;
    }

    method FindByTokenHash(hash: Hash) returns (row: Option<Row>)
      ensures MayFind(rows, hash, row)
      ensures OneHash(rows) ==> row == Find(rows, hash)
    {
      if id :| id in rows && Holds(rows, id, hash) {
        return Some(rows[id]);
      }
      return None;
    }

    method RevokeByUserID(user: string)
      modifies this`rows
      ensures rows == WithoutUser(old(rows), user)
    {
      rows := map id | id in rows && rows[id].user != user :: rows[id];
    }

    method RevokeByTokenHash(hash: Hash)
      modifies this`rows
      ensures rows == WithoutHash(old(rows), hash)
    {
      rows := map id | id in rows && rows[id].hash != hash :: rows[id];
    }

    method CleanupExpired(now: int)
      modifies this`rows
      ensures rows == Unexpired(old(rows), now)
    {
      rows := map id | id in rows && !(rows[id].expiresAt < now) :: rows[id];
    }
  }

  class SessionAuthService {
    var users: set<string>
    const sessions: SessionRepo

    constructor (sessions: SessionRepo)
      ensures this.sessions == sessions && users == {}
    {
      this.sessions := sessions;
      users := {};
    }

    ghost function Current(): State
      reads this, sessions
    {
      State(sessions.rows, sessions.next, users)
    }

    /** token is what signing returned. */
    method IssueSession(user: string, token: Option<Hash>, expiresAt: int) returns (issued: Option<Hash>)
      modifies sessions
      ensures Current() == Step(old(Current()), Issue(user, token, expiresAt))
      ensures issued == token
    {
      if token.None? {
        return None;
      }
      sessions.Create(Row(user, token.value, expiresAt));
      return token;
    }

    /** found is the row the store returned; with distinct hashes there is only one. */
    method Rotate(presented: Hash, token: Option<Hash>, expiresAt: int) returns (issued: Option<Hash>, ghost found: Option<Row>)
      modifies sessions
      ensures var s, e := old(Current()), Event.Rotate(presented, token, expiresAt);
              && MayFind(s.rows, presented, found)
              && Current() == RotateWith(s, e, found)
              && issued == (if found.Some? && found.value.user in users then token else None)
              && (OneHash(s.rows) ==> Current() == Step(s, e) && issued == if Accepts(s, e) then token else None)
    {
      var row := sessions.FindByTokenHash(presented);
      found := row;
      if row.None? {
        return None, found;
      }
      sessions.RevokeByUserID(row.value.user);
      if row.value.user !in users {
        return None, found;
      }
      issued := IssueSession(row.value.user, token, expiresAt);
    }

    method RevokeAllForUser(user: string)
      modifies sessions
      ensures Current() == Step(old(Current()), RevokeUser(user))
    {
      sessions.RevokeByUserID(user);
    }
  }
}
