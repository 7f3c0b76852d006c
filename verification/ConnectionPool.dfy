/**
 The pool object: the fill loop of NewPool and the drain loop of Close, run by one caller. The
 interleaving of all callers is the subject of PoolProtocol, whose initial state NewPool reaches.
 */
module ConnectionPool {
  import opened Prelude
  import P = PoolProtocol

  const DEFAULT_CONNS := 10

  /** What the database side has seen: how often each opened connection was closed, and its target. */
  class Driver {
    var closes: seq<nat>
    var selected: seq<P.Target>

    ghost predicate Valid()
      reads this
    {
      |closes| == |selected|
    }

    constructor ()
      ensures Valid() && closes == []
    {
      closes, selected := [], [];
    }

    /** Dial, sign in and select the default target; a failure after the dial closes the connection. */
    method Connect(made: P.Made, default: P.Target) returns (c: Option<P.Conn>)
      requires Valid()
      modifies this
      ensures Valid()
      ensures c == if made == P.Fresh then Some(|old(closes)|) else None
      ensures closes == old(closes) + (match made case Fresh => [0] case NoDial => [] case NoSetup => [1])
      ensures selected == old(selected) + (if made == P.NoDial then [] else [default])
    {
      match made {
        case NoDial => c := None;
        case NoSetup =>
          c := None;
          closes, selected := closes + [1], selected + [default];
        case Fresh =>
          c := Some(|closes|);
          closes, selected := closes + [0], selected + [default];
      }
    }

    method Disconnect(c: P.Conn)
      requires Valid() && c < |closes|
      modifies this
      ensures Valid() && closes == old(closes)[c := old(closes)[c] + 1] && selected == old(selected)
    {
      closes := closes[c := closes[c] + 1];
    }
  }

  class Pool {
    const driver: Driver
    const maxConns: nat
    var conns: seq<P.Conn>
    var closed: bool
    var sealed: bool

    /** The channel holds distinct open connections. */
    ghost predicate Valid()
      reads this, driver
    {
      && driver.Valid()
      && (sealed ==> closed)
      && (forall i :: 0 <= i < |conns| ==> conns[i] < |driver.closes| && driver.closes[conns[i]] == 0)
      && (forall i, j :: 0 <= i < j < |conns| ==> conns[i] != conns[j])
    }

    constructor (driver: Driver, maxConns: nat)
      requires driver.Valid()
      ensures Valid() && this.driver == driver && this.maxConns == maxConns && conns == [] && !closed && !sealed
    {
      this.driver, this.maxConns := driver, maxConns;
      conns, closed, sealed := [], false, false;
    }

    /** The protocol state of a pool nobody uses yet. */
    ghost function View(): P.State
      reads this, driver
    {
      P.State(maxConns, conns, closed, sealed, sealed, driver.closes, driver.selected, map[], 0)
    }

    /**
     Close: the flag, then drain until the channel is empty, then the channel. Exactly the
     connections in the channel are closed, each once; a second Close does nothing.
     */
    method Close()
      requires Valid()
      modifies this, driver
      ensures Valid() && closed
      ensures old(closed) ==> conns == old(conns) && sealed == old(sealed) && driver.closes == old(driver.closes)
      ensures !old(closed) ==> sealed && conns == [] && |driver.closes| == |old(driver.closes)|
      ensures !old(closed) ==> forall i :: 0 <= i < |old(conns)| ==> driver.closes[old(conns)[i]] == 1
      ensures forall c :: 0 <= c < |old(driver.closes)| && c !in old(conns) ==> driver.closes[c] == old(driver.closes[c])
      ensures driver.selected == old(driver.selected)
    {
      if closed {
        return;
      }
      closed := true;
      ghost var all, before := conns, driver.closes;
      ghost var k := 0;
      while conns != []
        invariant 0 <= k <= |all| && conns == all[k..] && closed && !sealed
        invariant driver.Valid() && |driver.closes| == |before| && driver.selected == old(driver.selected)
        invariant forall i :: 0 <= i < k ==> driver.closes[all[i]] == 1
        invariant forall i :: k <= i < |all| ==> driver.closes[all[i]] == 0
        invariant forall c :: 0 <= c < |before| && c !in all ==> driver.closes[c] == before[c]
        decreases |conns|
      {
        var conn := conns[0];
        assert conn == all[k];
        conns := conns[1..];
        driver.Disconnect(conn);
        k := k + 1;
      }
      sealed := true;
    }

    /**
     The fill loop of NewPool. It succeeds exactly when every dial does, and then leaves the initial
     state of the protocol. On a failure everything opened so far has been closed exactly once.
     */
    method Fill(dials: seq<P.Made>, default: P.Target) returns (ok: bool)
      requires Valid() && conns == [] && !closed && !sealed && driver.closes == []
      requires |dials| >= maxConns
      modifies this, driver
      ensures Valid()
      ensures ok <==> forall i :: 0 <= i < maxConns ==> dials[i] == P.Fresh
      ensures ok ==> View() == P.Initial(maxConns, default)
      ensures !ok ==> forall c :: 0 <= c < |driver.closes| ==> driver.closes[c] == 1
    {
      var i := 0;
      while i < maxConns
        invariant 0 <= i <= maxConns
        invariant Valid() && !closed && !sealed
        invariant forall j :: 0 <= j < i ==> dials[j] == P.Fresh
        invariant conns == seq(i, j => j) && driver.closes == seq(i, j => 0)
        invariant driver.selected == seq(i, j => default)
      {
        var conn := driver.Connect(dials[i], default);
        if conn.None? {
          ghost var open := conns;
          assert i !in open;
          assert |driver.closes| == i || (|driver.closes| == i + 1 && driver.closes[i] == 1);
          Close();
          forall c | 0 <= c < |driver.closes| ensures driver.closes[c] == 1 {
            assert c < i ==> open[c] == c;
          }
          return false;
        }
        conns := conns + [conn.value];
        i := i + 1;
      }
      ok := true;
    }
  }

  datatype Config = Config(endpoint: string, maxConns: int)

  /**
   NewPool: a nonpositive size means ten, an empty endpoint is refused. A pool comes out exactly when
   the endpoint is set and all dials succeed; otherwise no connection is left open.
   */
  method NewPool(cfg: Config, driver: Driver, dials: seq<P.Made>, default: P.Target) returns (p: Option<Pool>)
    requires driver.Valid() && driver.closes == []
    requires |dials| >= if cfg.maxConns <= 0 then 10 else cfg.maxConns
    modifies driver
    ensures driver.Valid()
    ensures var n := if cfg.maxConns <= 0 then 10 else cfg.maxConns;
            && (p.Some? <==> cfg.endpoint != "" && forall i :: 0 <= i < n ==> dials[i] == P.Fresh)
            && (p.Some? ==> fresh(p.value) && p.value.driver == driver && p.value.View() == P.Initial(n, default))
    ensures p.None? ==> forall c :: 0 <= c < |driver.closes| ==> driver.closes[c] == 1
  {
    var n := if cfg.maxConns <= 0 then DEFAULT_CONNS else cfg.maxConns;
    if cfg.endpoint == "" {
      return None;
    }
    var pool := new Pool(driver, n);
    var ok := pool.Fill(dials, default);
    p := if ok then Some(pool) else None;
  }
}
