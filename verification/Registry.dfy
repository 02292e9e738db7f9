/**
 The registry of hub/ws_router.py: one live connection per device, the newest one
 superseding its predecessor, whose own late unregister must not evict its successor.
 */
module Registry {
  import opened Prelude
  import AC = AgentConnection

  type Connection = AC.AgentConnection

  /** Who is registered, and whose pending calls have been failed. */
  datatype Board = Board(conns: map<string, Connection>, failed: set<Connection>)

  datatype Event = Register(conn: Connection) | Unregister(conn: Connection)

  predicate IsCurrent(conns: map<string, Connection>, c: Connection) {
    c.deviceId in conns && conns[c.deviceId] == c
  }

  function After(b: Board, e: Event): Board {
    match e
    case Register(c) =>
      Board(b.conns[c.deviceId := c],
            if c.deviceId in b.conns && b.conns[c.deviceId] != c then b.failed + {b.conns[c.deviceId]} else b.failed)
    case Unregister(c) =>
      Board(if IsCurrent(b.conns, c) then b.conns - {c.deviceId} else b.conns, b.failed + {c})
  }

  function Run(es: seq<Event>): Board {
    if es == [] then Board(map[], {}) else After(Run(es[..|es| - 1]), es[|es| - 1])
  }

  class Registry {
    var conns: map<string, Connection>
    ghost var failed: set<Connection>

    ghost function View(): Board
      reads this
    {
      Board(conns, failed)
    }

    /** Every connection counted as failed really had close_pending run on it. */
    ghost predicate Valid()
      reads this, failed
    {
      forall c :: c in failed ==> c.closed
    }

    constructor ()
      ensures Valid() && View() == Run([])
    {
      conns, failed := map[], {};
    }

    method Register(c: Connection)
      requires Valid()
      modifies this, if c.deviceId in conns then {conns[c.deviceId]} else {}
      ensures Valid() && View() == After(old(View()), Event.Register(c))
      ensures c.deviceId in old(conns) && old(conns)[c.deviceId] != c ==>
        old(conns)[c.deviceId].View() == AC.ClosePending(old(conns[c.deviceId].View()), "superseded by new connection")
      ensures old(IsCurrent(conns, c)) ==> c.View() == old(c.View())
    {
      if c.deviceId in conns && conns[c.deviceId] != c {
        var previous := conns[c.deviceId];
        previous.FailPending("superseded by new connection");
        failed := failed + {previous};
      }
      conns := conns[c.deviceId := c];
    }

    method Unregister(c: Connection)
      requires Valid()
      modifies this, c
      ensures Valid() && View() == After(old(View()), Event.Unregister(c))
      ensures c.View() == AC.ClosePending(old(c.View()), "agent disconnected")
    {
      if c.deviceId in conns && conns[c.deviceId] == c {
        conns := conns - {c.deviceId};
      }
      c.FailPending("agent disconnected");
      failed := failed + {c};
    }

    method Get(deviceId: string) returns (c: Option<Connection>)
      ensures c == if deviceId in conns then Some(conns[deviceId]) else None
    {
      if deviceId in conns { c := Some(conns[deviceId]); } else { c := None; }
    }
  }

  // ----- after any sequence of calls -----

  /** Event i is the latest registration of device d. */
  predicate IsLatestRegistration(es: seq<Event>, d: string, i: int) {
    && 0 <= i < |es| && es[i].Register? && es[i].conn.deviceId == d
    && forall j :: i < j < |es| ==> !(es[j].Register? && es[j].conn.deviceId == d)
  }

  predicate UnregisteredAfter(es: seq<Event>, c: Connection, i: int) {
    exists j :: 0 <= i < j < |es| && es[j] == Unregister(c)
  }

  /** A device maps to its most recently registered connection, unless exactly that one has left since. */
  lemma {:induction false} MapsToLatest(es: seq<Event>, d: string)
    ensures d in Run(es).conns ==>
      exists i :: IsLatestRegistration(es, d, i) && Run(es).conns[d] == es[i].conn && !UnregisteredAfter(es, es[i].conn, i)
    ensures forall i :: IsLatestRegistration(es, d, i) && !UnregisteredAfter(es, es[i].conn, i) ==>
      d in Run(es).conns && Run(es).conns[d] == es[i].conn
  {
    if es != [] {
      var n := |es| - 1;
      var front, e := es[..n], es[n];
      MapsToLatest(front, d);
      if d in Run(es).conns {
        if e == Register(Run(es).conns[d]) && e.conn.deviceId == d {
          assert IsLatestRegistration(es, d, n);
        } else {
          assert d in Run(front).conns && Run(front).conns[d] == Run(es).conns[d];
          var i :| IsLatestRegistration(front, d, i) && Run(front).conns[d] == front[i].conn && !UnregisteredAfter(front, front[i].conn, i);
          LatestExtends(es, d, i);
        }
      }
      forall i | IsLatestRegistration(es, d, i) && !UnregisteredAfter(es, es[i].conn, i)
        ensures d in Run(es).conns && Run(es).conns[d] == es[i].conn
      {
        if i < n {
          assert IsLatestRegistration(front, d, i);
          assert forall j :: 0 <= j < n ==> front[j] == es[j];
          assert !UnregisteredAfter(front, es[i].conn, i);
          assert es[n] != Unregister(es[i].conn);
          assert !(es[n].Register? && es[n].conn.deviceId == d);
        }
      }
    }
  }

  lemma LatestExtends(es: seq<Event>, d: string, i: int)
    requires es != [] && var front := es[..|es| - 1];
      && IsLatestRegistration(front, d, i) && !UnregisteredAfter(front, front[i].conn, i)
      && d in Run(front).conns && Run(front).conns[d] == front[i].conn
    requires d in Run(es).conns && !(es[|es| - 1].Register? && es[|es| - 1].conn.deviceId == d)
    ensures IsLatestRegistration(es, d, i) && !UnregisteredAfter(es, es[i].conn, i)
  {
    var front := es[..|es| - 1];
    forall j | i < j < |es|
      ensures !(es[j].Register? && es[j].conn.deviceId == d) && es[j] != Unregister(es[i].conn)
    {
      if j < |front| { assert es[j] == front[j]; }
    }
  }

  /** A connection that was replaced can unregister as late as it likes: the map does not change. */
  lemma LateUnregisterIsHarmless(b: Board, c: Connection)
    requires !IsCurrent(b.conns, c)
    ensures After(b, Unregister(c)).conns == b.conns
  {
  }

  /** Every connection that left the map, however it left, has had its pending calls failed. */
  lemma {:induction false} LeaversAreFailed(es: seq<Event>, k: nat)
    requires k < |es|
    ensures IsCurrent(Run(es).conns, es[k].conn) || es[k].conn in Run(es).failed
  {
    var n := |es| - 1;
    if k < n {
      assert es[..n][k] == es[k];
      LeaversAreFailed(es[..n], k);
    }
  }
}
