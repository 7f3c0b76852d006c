/**
 The passkey tables: passkey_users, which gives each user a handle, and passkey_credentials, which holds
 key ids and public keys in base64url under a unique index on the key id. The table is shown to hold a
 keyring: one credential per user, without encoding or rows.
 */
module Credentials {
  import opened Prelude
  import opened Base64Url

  /** Sign counts are unsigned 32-bit numbers. */
  type Counter = x: int | 0 <= x < 0x1_0000_0000

  /** A credential in the domain's terms; aaguid is hexadecimal text. */
  datatype Credential = Credential(
    user: string,
    id: seq<Byte>,
    publicKey: seq<Byte>,
    signCount: Counter,
    aaguid: string,
    backupEligible: bool,
    backupState: bool)

  datatype Row = Row(
    user: string,
    kid: string,
    publicKey: string,
    signCount: Counter,
    aaguid: string,
    backupEligible: bool,
    backupState: bool)

  type Table = map<nat, Row>

  // ---- The credential table ----

  function Encode(c: Credential): Row {
    Row(c.user, Raw(c.id), Raw(c.publicKey), c.signCount, c.aaguid, c.backupEligible, c.backupState)
  }

  /** A string that does not decode reads as no bytes. */
  function Decode(s: string): seq<Byte> {
    match ReadRaw(s)
    case Some(b) => b
    case None => []
  }

  /** The Go type in which the driver hands over a stored number. */
  datatype Number = Float64(n: nat) | Int64(n: nat) | Uint32(n: nat) | OtherNumber(n: nat)

  /** The three types mapCredentialRow knows are cut to 32 bits; any other leaves the count at zero. */
  function ReadCount(n: Number): Counter { if n.OtherNumber? then 0 else n.n % 0x1_0000_0000 }

  /** A sign count reads back exactly when it comes in one of the three types, or is zero. */
  lemma CountReadsBack(n: Number)
    requires n.n < 0x1_0000_0000
    ensures ReadCount(n) == n.n <==> !n.OtherNumber? || n.n == 0
  {
  }

  /** mapCredentialRow, for a driver that hands over counts as int64. */
  function FromRow(r: Row): Credential {
    Credential(r.user, Decode(r.kid), Decode(r.publicKey), ReadCount(Int64(r.signCount)), r.aaguid, r.backupEligible,
               r.backupState)
  }

  lemma RowRoundTrip(c: Credential)
    ensures FromRow(Encode(c)) == c
  {
    hide Raw, ReadRaw;
    ReadRawIsInverse(c.id);
    ReadRawIsInverse(c.publicKey);
  }

  lemma KidsDiffer(a: seq<Byte>, b: seq<Byte>)
    ensures Raw(a) == Raw(b) <==> a == b
  {
    ReadRawIsInverse(a);
    ReadRawIsInverse(b);
  }

  predicate HasKid(t: Table, id: nat, kid: string) { id in t && t[id].kid == kid }

  function WithoutUser(t: Table, user: string): Table { map id | id in t && t[id].user != user :: t[id] }

  predicate KidTaken(t: Table, kid: string) { exists id :: id in t && t[id].kid == kid }

  /** DELETE for the user, then CREATE, which the unique index refuses for a key id in use. */
  function Save(t: Table, next: nat, c: Credential): (Table, nat) {
    var kept := WithoutUser(t, c.user);
    if KidTaken(kept, Raw(c.id)) then (kept, next) else (kept[next := Encode(c)], next + 1)
  }

  function SetCount(r: Row, user: string, kid: string, count: Counter): Row {
    if r.user == user && r.kid == kid then r.(signCount := count) else r
  }

  function Count(t: Table, user: string, kid: seq<Byte>, count: Counter): Table {
    map id | id in t :: SetCount(t[id], user, Raw(kid), count)
  }

  ghost function FindByKid(t: Table, kid: seq<Byte>): (c: Option<Credential>)
  {
    if id :| HasKid(t, id, Raw(kid)) then Some(FromRow(t[id])) else None
  }

  function FindByUser(t: Table, user: string): set<Credential> {
    set id | id in t && t[id].user == user :: FromRow(t[id])
  }

  // ---- The keyring: one credential per user, no encoding, no rows ----

  type Keyring = map<string, Credential>

  predicate HeldByOther(k: Keyring, user: string, id: seq<Byte>) { exists u :: u in k && u != user && k[u].id == id }

  /** The user's credential is replaced, or lost when another user's has the same id. */
  function Register(k: Keyring, c: Credential): Keyring {
    if HeldByOther(k, c.user, c.id) then k - {c.user} else k[c.user := c]
  }

  function Counted(k: Keyring, user: string, id: seq<Byte>, count: Counter): Keyring {
    if user in k && k[user].id == id then k[user := k[user].(signCount := count)] else k
  }

  /** Every user has the credential of its own keyring entry, and key ids are not shared. */
  predicate Sound(k: Keyring) {
    && (forall u :: u in k ==> k[u].user == u)
    && (forall u, v :: u in k && v in k && k[u].id == k[v].id ==> u == v)
  }

  predicate Stored(t: Table, id: nat, c: Credential) { id in t && t[id] == Encode(c) }

  predicate RowsAreKeys(t: Table, next: nat, k: Keyring) {
    forall id :: id in t ==> id < next && t[id].user in k && t[id] == Encode(k[t[id].user])
  }

  ghost predicate KeysHaveRows(t: Table, k: Keyring) { forall u :: u in k ==> exists id :: Stored(t, id, k[u]) }

  predicate OneRowPerUser(t: Table) {
    forall id, id' :: id in t && id' in t && t[id].user == t[id'].user ==> id == id'
  }

  /** The table holds exactly the keyring: one row for each user's credential, and no other. */
  ghost predicate Represents(t: Table, next: nat, k: Keyring) {
    Sound(k) && RowsAreKeys(t, next, k) && KeysHaveRows(t, k) && OneRowPerUser(t)
  }

  lemma SameKid(t: Table, next: nat, k: Keyring, user: string, id: seq<Byte>)
    requires Represents(t, next, k)
    ensures KidTaken(WithoutUser(t, user), Raw(id)) <==> HeldByOther(k, user, id)
  {
    var kept := WithoutUser(t, user);
    if KidTaken(kept, Raw(id)) {
      var i :| i in kept && kept[i].kid == Raw(id);
      KidsDiffer(k[t[i].user].id, id);
    }
    if HeldByOther(k, user, id) {
      var u :| u in k && u != user && k[u].id == id;
      var i :| Stored(t, i, k[u]);
      assert i in kept && kept[i].kid == Raw(id);
    }
  }

  lemma UserIn(k: Keyring, u: string)
    requires Sound(k) && u in k
    ensures k[u].user == u
  {
  }

  lemma UserOf(c: Credential)
    ensures Encode(c).user == c.user
  {
  }

  lemma SaveKeepsKeys(t: Table, next: nat, k: Keyring, c: Credential)
    requires Represents(t, next, k)
    ensures KeysHaveRows(Save(t, next, c).0, Register(k, c))
  {
    hide Encode, OneRowPerUser, Sound, KidTaken, HeldByOther, Raw;
    SameKid(t, next, k, c.user, c.id);
    var t', k' := Save(t, next, c).0, Register(k, c);
    forall u | u in k' ensures exists id :: Stored(t', id, k'[u]) {
      if u == c.user {
        assert Stored(t', next, c);
      } else {
        var id :| Stored(t, id, k[u]);
        UserOf(k[u]);
        assert k[u].user == u by { UserIn(k, u); }
        assert Stored(t', id, k'[u]);
      }
    }
  }

  lemma RegisterIsSound(k: Keyring, c: Credential)
    requires Sound(k)
    ensures Sound(Register(k, c))
  {
  }

  lemma SaveKeepsRows(t: Table, next: nat, k: Keyring, c: Credential)
    requires RowsAreKeys(t, next, k) && OneRowPerUser(t)
    requires KidTaken(WithoutUser(t, c.user), Raw(c.id)) <==> HeldByOther(k, c.user, c.id)
    ensures RowsAreKeys(Save(t, next, c).0, Save(t, next, c).1, Register(k, c))
    ensures OneRowPerUser(Save(t, next, c).0)
  {
    UserOf(c);
    hide Encode, HeldByOther, KidTaken, Raw;
  }

  lemma SaveRegisters(t: Table, next: nat, k: Keyring, c: Credential)
    requires Represents(t, next, k)
    ensures Represents(Save(t, next, c).0, Save(t, next, c).1, Register(k, c))
  {
    hide Save, Register, Sound, RowsAreKeys, KeysHaveRows, OneRowPerUser, KidTaken, HeldByOther, Encode;
    SaveKeepsKeys(t, next, k, c);
    SameKid(t, next, k, c.user, c.id);
    RegisterIsSound(k, c);
    SaveKeepsRows(t, next, k, c);
  }

  lemma CountOfRow(c: Credential, user: string, kid: seq<Byte>, count: Counter)
    ensures SetCount(Encode(c), user, Raw(kid), count)
         == Encode(if c.user == user && c.id == kid then c.(signCount := count) else c)
  {
    KidsDiffer(c.id, kid);
    hide Raw;
  }

  lemma CountOfKey(t: Table, next: nat, k: Keyring, user: string, kid: seq<Byte>, count: Counter, id: nat)
    requires Sound(k) && RowsAreKeys(t, next, k) && id in t
    ensures var u := t[id].user;
            SetCount(t[id], user, Raw(kid), count) == Encode(Counted(k, user, kid, count)[u])
    ensures SetCount(t[id], user, Raw(kid), count).user == t[id].user
  {
    CountOfRow(k[t[id].user], user, kid, count);
    hide Encode;
  }

  lemma CountKeepsRows(t: Table, next: nat, k: Keyring, user: string, kid: seq<Byte>, count: Counter)
    requires Represents(t, next, k)
    ensures KeysHaveRows(Count(t, user, kid, count), Counted(k, user, kid, count))
    ensures OneRowPerUser(Count(t, user, kid, count))
  {
    hide Encode, Raw, Sound, RowsAreKeys;
    var t', k' := Count(t, user, kid, count), Counted(k, user, kid, count);
    forall u | u in k' ensures exists id :: Stored(t', id, k'[u]) {
      var id :| Stored(t, id, k[u]);
      CountOfRow(k[u], user, kid, count);
      assert k[u].user == u by { UserIn(k, u); }
      assert Stored(t', id, k'[u]);
    }
  }

  lemma CountCounts(t: Table, next: nat, k: Keyring, user: string, kid: seq<Byte>, count: Counter)
    requires Represents(t, next, k)
    ensures Represents(Count(t, user, kid, count), next, Counted(k, user, kid, count))
  {
    var t', k' := Count(t, user, kid, count), Counted(k, user, kid, count);
    hide Encode, SetCount, KeysHaveRows, OneRowPerUser;
    assert RowsAreKeys(t', next, k') by {
      forall id | id in t' ensures t'[id].user in k' && t'[id] == Encode(k'[t'[id].user]) {
        CountOfKey(t, next, k, user, kid, count, id);
      }
    }
    CountKeepsRows(t, next, k, user, kid, count);
  }

  lemma KidOf(c: Credential)
    ensures Encode(c).kid == Raw(c.id)
  {
  }

  lemma KidOfRow(t: Table, next: nat, k: Keyring, kid: seq<Byte>)
    requires Sound(k) && RowsAreKeys(t, next, k)
    ensures forall id :: HasKid(t, id, Raw(kid)) ==>
              && t[id].user in k && FromRow(t[id]) == k[t[id].user]
              && k[t[id].user].id == kid && k[t[id].user].user == t[id].user
  {
    forall id | HasKid(t, id, Raw(kid)) ensures FromRow(t[id]) == k[t[id].user] && k[t[id].user].id == kid {
      var c := k[t[id].user];
      RowRoundTrip(c);
      KidsDiffer(c.id, kid);
      KidOf(c);
      hide Encode, FromRow, Raw;
    }
  }

  lemma FoundByKid(t: Table, next: nat, k: Keyring, kid: seq<Byte>)
    requires Represents(t, next, k)
    ensures var found := FindByKid(t, kid);
            found.Some? ==> found.value.id == kid && found.value.user in k && found.value == k[found.value.user]
  {
    hide Encode, FromRow, Raw, KeysHaveRows, OneRowPerUser;
    if id :| HasKid(t, id, Raw(kid)) {
      KidOfRow(t, next, k, kid);
    }
  }

  /** The unique index. */
  predicate UniqueKids(t: Table) {
    forall id, id' :: id in t && id' in t && t[id].kid == t[id'].kid ==> id == id'
  }

  lemma KidsAreUnique(t: Table, next: nat, k: Keyring)
    requires Represents(t, next, k)
    ensures UniqueKids(t)
  {
    forall id, id' | id in t && id' in t && t[id].kid == t[id'].kid ensures id == id' {
      var c, c' := k[t[id].user], k[t[id'].user];
      KidsDiffer(c.id, c'.id);
    }
  }

  lemma UserFound(t: Table, next: nat, k: Keyring, user: string)
    requires Represents(t, next, k)
    ensures FindByUser(t, user) == if user in k then {k[user]} else {}
  {
    hide Encode, FromRow, Raw;
    if user in k {
      var id :| Stored(t, id, k[user]);
      RowRoundTrip(k[user]);
      UserOf(k[user]);
      assert FromRow(t[id]) in FindByUser(t, user);
    }
  }

  /** Lookup by raw key id finds the owner's credential unchanged, and by user exactly that one. */
  lemma LookupThroughEncoding(t: Table, next: nat, k: Keyring, kid: seq<Byte>, user: string)
    requires Represents(t, next, k)
    ensures var found := FindByKid(t, kid);
            && (found.Some? ==> found.value.id == kid && found.value.user in k && found.value == k[found.value.user])
            && (user in k && k[user].id == kid ==> found == Some(k[user]))
    ensures FindByUser(t, user) == if user in k then {k[user]} else {}
  {
    FoundByKid(t, next, k, kid);
    UserFound(t, next, k, user);
    if user in k && k[user].id == kid {
      var id :| Stored(t, id, k[user]);
      KidOf(k[user]);
      assert HasKid(t, id, Raw(kid));
    }
    hide Encode, FromRow, Raw, RowsAreKeys, KeysHaveRows, OneRowPerUser;
  }

  // ---- The repository object ----

  class CredRepo {
    var handles: map<string, string>
    var table: Table
    var next: nat

    constructor ()
      ensures handles == map[] && table == map[] && next == 0
    {
      handles := map[];
      table := map[];
      next := 0;
    }

    method SaveUser(user: string, handle: string)
      modifies this`handles
      ensures handles == old(handles)[user := handle]
    {
      handles := handles[user := handle];
    }

    /** An empty handle stands for none. */
    method FindHandleByUserID(user: string) returns (handle: string)
      ensures handle == if user in handles then handles[user] else ""
    {
      if user in handles {
        return handles[user];
      }
      return "";
    }

    /** The two statements of SaveCredential; the second fails on a key id that is in use. */
    method SaveCredential(c: Credential) returns (saved: bool)
      modifies this`table, this`next
      ensures (table, next) == Save(old(table), old(next), c)
      ensures saved <==> !KidTaken(WithoutUser(old(table), c.user), Raw(c.id))
    {
      table := map id | id in table && table[id].user != c.user :: table[id];
      var row := Row(c.user, Raw(c.id), Raw(c.publicKey), c.signCount, c.aaguid, c.backupEligible, c.backupState);
      if exists id :: id in table && table[id].kid == row.kid {
        return false;
      }
      table := table[next := row];
      next := next + 1;
      return true;
    }

    method FindCredentialsByUserID(user: string) returns (found: seq<Credential>)
      ensures forall c :: c in found <==> c in FindByUser(table, user)
    {
      var ids := set id | id in table && table[id].user == user;
      ghost var seen: set<nat> := {};
      found := [];
      while ids != {}
        invariant seen + ids == set id | id in table && table[id].user == user
        invariant forall c :: c in found <==> exists id :: id in seen && c == FromRow(table[id])
        decreases |ids|
      {
        var id :| id in ids;
        found := found + [FromRow(table[id])];
        ids, seen := ids - {id}, seen + {id};
      }
    }

    /** LIMIT 1: any row with the key id. */
    method FindCredentialByKID(kid: seq<Byte>) returns (found: Option<Credential>)
      requires UniqueKids(table)
      ensures found == FindByKid(table, kid)
    {
      if id :| id in table && HasKid(table, id, Raw(kid)) {
        return Some(FromRow(table[id]));
      }
      return None;
    }

    method UpdateSignCount(user: string, kid: seq<Byte>, count: Counter)
      modifies this`table
      ensures table == Count(old(table), user, kid, count)
    {
      var kid64 := Raw(kid);
      table := map id | id in table :: SetCount(table[id], user, kid64, count);
    }
  }
}
