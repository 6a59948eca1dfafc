/**
 * The relay's room table as a value: a map from a document id to the set of
 * connections in that document's room. Each function below is the effect of
 * one in-place update of the table (see module Relay), stated on values so
 * that lemmas can relate several updates.
 */
module Rooms {

  /** A connection is opaque; only its identity matters. */
  type Conn = nat

  /** A document id, the key of a room. */
  type DocId = string

  /** The relay treats every payload as opaque bytes. */
  newtype Byte = x: int | 0 <= x < 256

  type Payload = seq<Byte>

  type Table = map<DocId, set<Conn>>

  /** The members of the room for `d`, or no one when the room does not exist. */
  function Room(t: Table, d: DocId): set<Conn>
  {
    if d in t then t[d] else {}
  }

  /** Every room in the table has at least one member. */
  ghost predicate NoEmptyRooms(t: Table)
  {
    forall d :: d in t ==> t[d] != {}
  }

  /** Every key other than `d` is present in `r` exactly when in `t`, with the same room. */
  ghost predicate SameElsewhere(t: Table, r: Table, d: DocId)
  {
    forall k :: k != d ==> (k in r <==> k in t) && Room(r, k) == Room(t, k)
  }

  /** Two updates that each leave every key but `d` alone leave them alone together. */
  lemma SameElsewhereTrans(t: Table, u: Table, r: Table, d: DocId)
    requires SameElsewhere(t, u, d) && SameElsewhere(u, r, d)
    ensures SameElsewhere(t, r, d)
  {
  }

  /** The table after looking up the room for `d`, installing an empty one if absent. */
  function AfterGetOrCreate(t: Table, d: DocId): (r: Table)
    ensures d in r && r[d] == Room(t, d)
    ensures r.Keys == t.Keys + {d}
    ensures d in t ==> r == t
    ensures d !in t ==> r[d] == {}
    ensures SameElsewhere(t, r, d)
  {
    if d in t then t else t[d := {}]
  }

  /** The table after connection `c` joins the room for `d`. */
  function AfterJoin(t: Table, d: DocId, c: Conn): (r: Table)
    ensures d in r && c in r[d]
    ensures r[d] == Room(t, d) + {c}
    ensures r.Keys == t.Keys + {d}
    ensures SameElsewhere(t, r, d)
    ensures NoEmptyRooms(t) ==> NoEmptyRooms(r)
  {
    t[d := Room(t, d) + {c}]
  }

  /** The table after connection `c` leaves the room for `d`; a room left empty is deleted. */
  function AfterLeave(t: Table, d: DocId, c: Conn): (r: Table)
    ensures c !in Room(r, d)
    ensures Room(r, d) == Room(t, d) - {c}
    ensures d in r <==> d in t && t[d] - {c} != {}
    ensures d !in t ==> r == t
    ensures SameElsewhere(t, r, d)
    ensures NoEmptyRooms(t) ==> NoEmptyRooms(r)
  {
    if d in t then
      var room := t[d] - {c};
      if |room| == 0 then t - {d} else t[d := room]
    else
      t
  }

  /** The members a payload from `sender` is forwarded to. */
  function Recipients(t: Table, d: DocId, sender: Conn): (r: set<Conn>)
    ensures sender !in r
    ensures forall c :: c in r <==> c in Room(t, d) && c != sender
  {
    Room(t, d) - {sender}
  }

  /**
   * The table after `sender` broadcast to its room and the sends to the
   * members in `failed` threw: those recipients are discarded. A room emptied
   * this way keeps its key.
   */
  function AfterBroadcast(t: Table, d: DocId, sender: Conn, failed: set<Conn>): (r: Table)
    ensures r.Keys == t.Keys
    ensures Room(r, d) == Room(t, d) - (failed - {sender})
    ensures sender in Room(t, d) ==> sender in Room(r, d)
    ensures forall c :: c in Room(t, d) && c !in Room(r, d) ==> c in failed && c != sender
    ensures SameElsewhere(t, r, d)
    ensures NoEmptyRooms(t) && sender in Room(t, d) ==> NoEmptyRooms(r)
  {
    if d in t then t[d := t[d] - (Recipients(t, d, sender) * failed)] else t
  }

  /** In a table with no empty room, joining a room one was not in and then leaving restores the table. */
  lemma JoinLeaveRoundTrip(t: Table, d: DocId, c: Conn)
    requires NoEmptyRooms(t)
    requires c !in Room(t, d)
    ensures AfterLeave(AfterJoin(t, d, c), d, c) == t
  {
  }

  /**
   * Pruning does not delete rooms, so a broadcast from a sender that an
   * earlier broadcast already pruned can leave an empty room behind: two
   * members whose sends to each other both fail.
   */
  lemma BroadcastCanLeaveEmptyRoom()
    ensures var t0 := AfterJoin(AfterJoin(map[], "doc", 1), "doc", 2);
            var t1 := AfterBroadcast(t0, "doc", 1, {2});
            var t2 := AfterBroadcast(t1, "doc", 2, {1});
            NoEmptyRooms(t0) && "doc" in t2 && t2["doc"] == {} && !NoEmptyRooms(t2)
  {
  }
}
