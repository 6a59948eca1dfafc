/**
 * The two counters the root endpoint `/` (whose docstring calls it a health
 * check) derives from the room table: the number of rooms and the number of
 * connections summed over all rooms.
 */
module Counters {
  import opened Rooms

  /** The number of rooms currently in the table. */
  function ActiveRooms(t: Table): (n: nat)
    ensures n == |t.Keys|
    ensures n == 0 <==> t == map[]
  {
    |t|
  }

  /** The sum of the sizes of all rooms, taken in an unspecified key order. */
  ghost function TotalConnections(t: Table): (n: nat)
    ensures forall k :: k in t ==> |t[k]| <= n
  {
    if t == map[] then 0
    else
      var k :| k in t;
      var rest := t - {k};
      assert forall j :: j in t && j != k ==> j in rest && rest[j] == t[j];
      |t[k]| + TotalConnections(rest)
  }

  /** Every (document, connection) membership recorded in the table. */
  ghost function Memberships(t: Table): set<(DocId, Conn)>
  {
    set d, c | d in t && c in t[d] :: (d, c)
  }

  /** The sum does not depend on which key is taken first. */
  lemma {:induction false} TotalConnectionsRemove(t: Table, k: DocId)
    requires k in t
    ensures TotalConnections(t) == |t[k]| + TotalConnections(t - {k})
    decreases |t|
  {
    var j :| j in t && TotalConnections(t) == |t[j]| + TotalConnections(t - {j});
    if j != k {
      assert t - {j} - {k} == t - {k} - {j};
      assert |t - {j}| < |t|;
      TotalConnectionsRemove(t - {j}, k);
      assert |t - {k}| < |t|;
      TotalConnectionsRemove(t - {k}, j);
    }
  }

  /** Replacing (or adding) the room for `k` changes the sum by the difference in sizes. */
  lemma TotalConnectionsUpdate(t: Table, k: DocId, s: set<Conn>)
    ensures TotalConnections(t[k := s]) + |Room(t, k)| == TotalConnections(t) + |s|
  {
    TotalConnectionsRemove(t[k := s], k);
    assert t[k := s] - {k} == t - {k};
    if k in t {
      TotalConnectionsRemove(t, k);
    } else {
      assert t - {k} == t;
    }
  }

  /** Deleting the room for `k` lowers the sum by that room's size. */
  lemma TotalConnectionsDelete(t: Table, k: DocId)
    ensures TotalConnections(t - {k}) + |Room(t, k)| == TotalConnections(t)
  {
    if k in t {
      TotalConnectionsRemove(t, k);
    } else {
      assert t - {k} == t;
    }
  }

  /** The memberships of one room, paired with its document id. */
  ghost function Paired(d: DocId, s: set<Conn>): set<(DocId, Conn)>
  {
    set c | c in s :: (d, c)
  }

  lemma {:induction false} PairedSize(d: DocId, s: set<Conn>)
    ensures |Paired(d, s)| == |s|
    decreases |s|
  {
    if s != {} {
      var c :| c in s;
      PairedSize(d, s - {c});
      assert Paired(d, s) == Paired(d, s - {c}) + {(d, c)};
    }
  }

  /** The total is the number of memberships, counted once per (document, connection). */
  lemma {:induction false} TotalConnectionsCountsMemberships(t: Table)
    ensures TotalConnections(t) == |Memberships(t)|
    decreases |t|
  {
    if t != map[] {
      var k :| k in t;
      TotalConnectionsRemove(t, k);
      assert |t - {k}| < |t|;
      TotalConnectionsCountsMemberships(t - {k});
      PairedSize(k, t[k]);
      assert Memberships(t) == Memberships(t - {k}) + Paired(k, t[k]);
      assert Memberships(t - {k}) !! Paired(k, t[k]);
    } else {
      assert Memberships(t) == {};
    }
  }

  /** When no room is empty, there are at least as many connections as rooms. */
  lemma {:induction false} RoomsAtMostConnections(t: Table)
    requires NoEmptyRooms(t)
    ensures ActiveRooms(t) <= TotalConnections(t)
    decreases |t|
  {
    if t != map[] {
      var k :| k in t;
      TotalConnectionsRemove(t, k);
      assert |t - {k}| == |t| - 1;
      RoomsAtMostConnections(t - {k});
      assert t[k] != {};
    }
  }

  /** Creating a room on demand adds one room for a new id and never a connection. */
  lemma CountersAfterGetOrCreate(t: Table, d: DocId)
    ensures ActiveRooms(AfterGetOrCreate(t, d)) == ActiveRooms(t) + (if d in t then 0 else 1)
    ensures TotalConnections(AfterGetOrCreate(t, d)) == TotalConnections(t)
  {
    if d !in t {
      var r := t[d := {}];
      assert |r| == |t| + 1 by {
        assert r.Keys == t.Keys + {d};
      }
      assert TotalConnections(r) == TotalConnections(t) by {
        TotalConnectionsUpdate(t, d, {});
      }
      assert AfterGetOrCreate(t, d) == r;
    }
  }

  /** A join adds a connection to the total only for a connection not yet in the room. */
  lemma TotalConnectionsAfterJoin(t: Table, d: DocId, c: Conn)
    ensures TotalConnections(AfterJoin(t, d, c)) == TotalConnections(t) + (if c in Room(t, d) then 0 else 1)
  {
    var room := Room(t, d);
    TotalConnectionsUpdate(t, d, room + {c});
    if c in room {
      assert room + {c} == room;
    } else {
      assert |room + {c}| == |room| + 1;
    }
  }

  /** A join adds a room only for a new document and a connection only for a new member. */
  lemma CountersAfterJoin(t: Table, d: DocId, c: Conn)
    ensures ActiveRooms(AfterJoin(t, d, c)) == ActiveRooms(t) + (if d in t then 0 else 1)
    ensures TotalConnections(AfterJoin(t, d, c)) == TotalConnections(t) + (if c in Room(t, d) then 0 else 1)
  {
    var r := AfterJoin(t, d, c);
    if d in t {
      assert r.Keys == t.Keys;
    } else {
      assert r.Keys == t.Keys + {d};
    }
    TotalConnectionsAfterJoin(t, d, c);
  }

  /** A leave removes a connection from the total only for a member of the room. */
  lemma TotalConnectionsAfterLeave(t: Table, d: DocId, c: Conn)
    ensures TotalConnections(AfterLeave(t, d, c)) == TotalConnections(t) - (if c in Room(t, d) then 1 else 0)
  {
    if d in t {
      if t[d] - {c} == {} {
        TotalConnectionsDelete(t, d);
      } else {
        TotalConnectionsUpdate(t, d, t[d] - {c});
      }
    }
  }

  /** A leave drops the room only when it empties and a connection only for a member. */
  lemma CountersAfterLeave(t: Table, d: DocId, c: Conn)
    ensures ActiveRooms(AfterLeave(t, d, c)) == ActiveRooms(t) - (if d in t && t[d] - {c} == {} then 1 else 0)
    ensures TotalConnections(AfterLeave(t, d, c)) == TotalConnections(t) - (if c in Room(t, d) then 1 else 0)
  {
    var r := AfterLeave(t, d, c);
    if d in t && t[d] - {c} == {} {
      assert r.Keys == t.Keys - {d};
    } else {
      assert r.Keys == t.Keys;
    }
    TotalConnectionsAfterLeave(t, d, c);
  }

  /** A broadcast keeps every room and loses exactly the recipients whose send failed. */
  lemma CountersAfterBroadcast(t: Table, d: DocId, sender: Conn, failed: set<Conn>)
    ensures ActiveRooms(AfterBroadcast(t, d, sender, failed)) == ActiveRooms(t)
    ensures TotalConnections(AfterBroadcast(t, d, sender, failed))
            == TotalConnections(t) - |Recipients(t, d, sender) * failed|
  {
    if d in t {
      var pruned := Recipients(t, d, sender) * failed;
      TotalConnectionsUpdate(t, d, t[d] - pruned);
      assert t[d] == (t[d] - pruned) + pruned;
      assert |t[d]| == |t[d] - pruned| + |pruned|;
    }
  }
}
