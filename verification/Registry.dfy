/**
 A mutex-guarded map whose entries are stored once and taken once: WebAuthn ceremonies and OAuth states.
 Every locked section is one operation, so a sequence of operations is any interleaving of callers.
 */
module Registry {
  /** at is the time the caller reads in or right after its locked section. */
  datatype Op<T> = Put(key: string, data: T, at: int) | Take(key: string, at: int)

  function Apply<T>(live: map<string, T>, op: Op<T>): map<string, T> {
    match op
    case Put(key, data, _) => live[key := data]
    case Take(key, _) => live - {key}
  }

  /** The map after the first n operations. */
  function After<T>(ops: seq<Op<T>>, n: nat): map<string, T>
    requires n <= |ops|
  {
    if n == 0 then map[] else Apply(After(ops, n - 1), ops[n - 1])
  }

  predicate Redeems<T>(ops: seq<Op<T>>, n: nat)
    requires n < |ops|
  {
    ops[n].Take? && ops[n].key in After(ops, n)
  }

  /** Operation i stored the key, and no operation in between touched it. */
  predicate Untouched<T>(ops: seq<Op<T>>, i: nat, n: nat, key: string)
    requires n <= |ops|
  {
    && i < n
    && ops[i].Put? && ops[i].key == key
    && forall j :: i < j < n ==> ops[j].key != key
  }

  /** An entry is there exactly when the last operation on its key stored it, and holds what that one stored. */
  lemma {:induction false} LiveIsIssuedMinusSpent<T>(ops: seq<Op<T>>, n: nat, key: string)
    requires n <= |ops|
    ensures key in After(ops, n) <==> exists i: nat :: Untouched(ops, i, n, key)
    ensures forall i: nat :: Untouched(ops, i, n, key) ==> After(ops, n)[key] == ops[i].data
  {
    if n == 0 {
    } else {
      var m := n - 1;
      LiveIsIssuedMinusSpent(ops, m, key);
      if ops[m].key == key {
        forall i: nat ensures Untouched(ops, i, n, key) <==> i == m && ops[i].Put? {
          if i < m {
            assert ops[m].key == key;
          }
        }
        assert Untouched(ops, m, n, key) <==> ops[m].Put?;
      } else {
        forall i: nat ensures Untouched(ops, i, n, key) <==> Untouched(ops, i, m, key) {
        }
        assert key in After(ops, n) <==> key in After(ops, m);
        if i: nat :| Untouched(ops, i, m, key) {
          assert Untouched(ops, i, n, key);
        }
      }
    }
  }

  /** Keys are random: no two operations store the same one. */
  predicate FreshKeys<T>(ops: seq<Op<T>>) {
    forall i, j :: 0 <= i < j < |ops| && ops[i].Put? && ops[j].Put? ==> ops[i].key != ops[j].key
  }

  /** Between two redemptions of one key the key was stored again; a fresh key is redeemed at most once. */
  lemma RedeemedOncePerIssue<T>(ops: seq<Op<T>>, m: nat, n: nat)
    requires m < n < |ops| && Redeems(ops, m) && Redeems(ops, n) && ops[m].key == ops[n].key
    ensures exists i :: m < i < n && ops[i].Put? && ops[i].key == ops[n].key
    ensures !FreshKeys(ops)
  {
    var key := ops[n].key;
    LiveIsIssuedMinusSpent(ops, n, key);
    var i: nat :| Untouched(ops, i, n, key);
    LiveIsIssuedMinusSpent(ops, m, key);
    var k: nat :| Untouched(ops, k, m, key);
    assert m < i;
  }

  /** With fresh keys the live keys are those stored so far without those taken since they were stored. */
  lemma LiveKeys<T>(ops: seq<Op<T>>, n: nat, key: string)
    requires n <= |ops| && FreshKeys(ops)
    ensures key in After(ops, n)
       <==> exists i: nat :: i < n && ops[i].Put? && ops[i].key == key
                     && !exists j :: i < j < n && ops[j].Take? && ops[j].key == key
  {
    LiveIsIssuedMinusSpent(ops, n, key);
    if i: nat :| i < n && ops[i].Put? && ops[i].key == key && !exists j :: i < j < n && ops[j].Take? && ops[j].key == key {
      assert Untouched(ops, i, n, key);
    }
    if i: nat :| Untouched(ops, i, n, key) {
      assert i < n && ops[i].Put? && ops[i].key == key;
    }
  }
}
