/**
 * The relay server's room table, updated in place as its WebSocket handler
 * does: a connection joins its document's room, every binary frame it sends
 * is forwarded to the other members of that room, members whose send failed
 * are pruned, and the connection is removed again when its handler exits.
 * Each operation is one atomic step; sends and their failures are inputs.
 */
module Relay {
  import opened Rooms

  /** One forwarded frame: the payload `payload` sent to connection `to`. */
  datatype Send = Send(to: Conn, payload: Payload)

  /** One frame received from a connection, with the recipients whose send to them throws. */
  datatype Frame = Frame(data: Payload, failed: set<Conn>)

  /** Every connection whose send failed during any of `frames`. */
  function AllFailed(frames: seq<Frame>): set<Conn>
  {
    if frames == [] then {} else AllFailed(frames[..|frames| - 1]) + frames[|frames| - 1].failed
  }

  /** The room a handler has after joining and broadcasting `frames`, as seen before it leaves. */
  lemma RoomAfterFrame(before: set<Conn>, ws: Conn, frames: seq<Frame>, i: nat, room: set<Conn>)
    requires i < |frames|
    requires room == (before + {ws}) - (AllFailed(frames[..i]) - {ws})
    ensures room - (frames[i].failed - {ws}) == (before + {ws}) - (AllFailed(frames[..i + 1]) - {ws})
  {
    assert frames[..i + 1][..i] == frames[..i];
    assert AllFailed(frames[..i + 1]) == AllFailed(frames[..i]) + frames[i].failed;
  }

  /** The connections that a sequence of sends went to. */
  function Targets(sends: seq<Send>): set<Conn>
  {
    set i | 0 <= i < |sends| :: sends[i].to
  }

  /**
   * The forwarding loop of a broadcast: every member of `room` other than
   * `sender` is sent `data` once; those in `failed` are collected as
   * disconnected.
   */
  method Deliver(room: set<Conn>, sender: Conn, data: Payload, failed: set<Conn>)
    returns (sends: seq<Send>, disconnected: set<Conn>)
    ensures Targets(sends) == room - {sender}
    ensures sender !in Targets(sends)
    ensures forall i, j :: 0 <= i < j < |sends| ==> sends[i].to != sends[j].to
    ensures forall i :: 0 <= i < |sends| ==> sends[i].payload == data
    ensures disconnected == (room - {sender}) * failed
  {
    sends, disconnected := [], {};
    var pending := room;
    while pending != {}
      invariant pending <= room
      invariant Targets(sends) == (room - pending) - {sender}
      invariant forall i, j :: 0 <= i < j < |sends| ==> sends[i].to != sends[j].to
      invariant forall i :: 0 <= i < |sends| ==> sends[i].payload == data
      invariant disconnected == ((room - pending) - {sender}) * failed
      decreases pending
    {
      var client :| client in pending;
      if client != sender {
        assert Targets(sends + [Send(client, data)]) == Targets(sends) + {client} by {
          var s' := sends + [Send(client, data)];
          assert forall i :: 0 <= i < |sends| ==> s'[i] == sends[i];
          assert s'[|sends|].to == client;
        }
        assert forall i :: 0 <= i < |sends| ==> sends[i].to in Targets(sends);
        sends := sends + [Send(client, data)];
        if client in failed {
          disconnected := disconnected + {client};
        }
      }
      pending := pending - {client};
    }
  }

  /** The table of rooms, keyed by document id. */
  class RoomTable {
    var rooms: Table

    /** The table keeps no empty room between complete operations. */
    ghost predicate Valid()
      reads this
    {
      NoEmptyRooms(rooms)
    }

    constructor ()
      ensures rooms == map[]
      ensures Valid()
    {
      rooms := map[];
    }

    /** Returns the room for `doc`, installing an empty one first when there is none. */
    method GetOrCreate(doc: DocId) returns (room: set<Conn>)
      modifies this
      ensures rooms == AfterGetOrCreate(old(rooms), doc)
      ensures room == rooms[doc] && room == Room(old(rooms), doc)
    {
      if doc !in rooms {
        rooms := rooms[doc := {}];
      }
      room := rooms[doc];
    }

    /** Adds `c` to the room for `doc`, creating the room on demand. */
    method Join(doc: DocId, c: Conn)
      modifies this
      ensures rooms == AfterJoin(old(rooms), doc, c)
      ensures old(Valid()) ==> Valid()
    {
      var room := GetOrCreate(doc);
      rooms := rooms[doc := room + {c}];
    }

    /** Removes `c` from the room for `doc`; a room left empty is deleted. */
    method Leave(doc: DocId, c: Conn)
      modifies this
      ensures rooms == AfterLeave(old(rooms), doc, c)
      ensures old(Valid()) ==> Valid()
    {
      if doc in rooms {
        rooms := rooms[doc := rooms[doc] - {c}];
        if |rooms[doc]| == 0 {
          rooms := rooms - {doc};
        }
      }
    }

    /**
     * Forwards `data` from `sender` to the rest of its room, then discards
     * the recipients whose send failed.
     */
    method Broadcast(doc: DocId, sender: Conn, data: Payload, failed: set<Conn>)
      returns (sends: seq<Send>)
      modifies this
      ensures Targets(sends) == Recipients(old(rooms), doc, sender)
      ensures forall i, j :: 0 <= i < j < |sends| ==> sends[i].to != sends[j].to
      ensures forall i :: 0 <= i < |sends| ==> sends[i].payload == data
      ensures rooms == AfterBroadcast(old(rooms), doc, sender, failed)
      ensures old(Valid()) && sender in Room(old(rooms), doc) ==> Valid()
    {
      var disconnected;
      sends, disconnected := Deliver(Room(rooms, doc), sender, data, failed);
      if doc in rooms {
        assert rooms[doc] - (disconnected - disconnected) == rooms[doc];
        assert rooms[doc := rooms[doc]] == rooms;
      }
      var pending := disconnected;
      while pending != {}
        invariant pending <= disconnected
        invariant disconnected != {} ==> doc in old(rooms)
        invariant doc in old(rooms) ==>
                    rooms == old(rooms)[doc := old(rooms)[doc] - (disconnected - pending)]
        invariant doc !in old(rooms) ==> rooms == old(rooms)
        decreases pending
      {
        var client :| client in pending;
        rooms := rooms[doc := rooms[doc] - {client}];
        pending := pending - {client};
        assert rooms[doc] == old(rooms)[doc] - (disconnected - pending);
      }
      ghost var before := old(rooms);
      assert disconnected == Recipients(before, doc, sender) * failed;
      if doc in before {
        assert disconnected - pending == disconnected;
      }
    }

    /**
     * The lifetime of one connection's handler: it joins the room for `doc`,
     * broadcasts each received frame in order, and is removed from the room
     * when it exits, however it exits.
     */
    method Serve(doc: DocId, ws: Conn, frames: seq<Frame>)
      modifies this
      ensures ws !in Room(rooms, doc)
      ensures Room(rooms, doc) == Room(old(rooms), doc) - {ws} - AllFailed(frames)
      ensures doc in rooms <==> Room(rooms, doc) != {}
      ensures SameElsewhere(old(rooms), rooms, doc)
      ensures old(Valid()) ==> Valid()
    {
      Join(doc, ws);
      assert frames[..0] == [];
      var i := 0;
      while i < |frames|
        invariant 0 <= i <= |frames|
        invariant doc in rooms && ws in rooms[doc]
        invariant rooms[doc] == (Room(old(rooms), doc) + {ws}) - (AllFailed(frames[..i]) - {ws})
        invariant SameElsewhere(old(rooms), rooms, doc)
        invariant old(Valid()) ==> Valid()
      {
        ghost var prev := rooms;
        RoomAfterFrame(Room(old(rooms), doc), ws, frames, i, rooms[doc]);
        var _ := Broadcast(doc, ws, frames[i].data, frames[i].failed);
        SameElsewhereTrans(old(rooms), prev, rooms, doc);
        i := i + 1;
      }
      assert frames[..i] == frames;
      ghost var prev := rooms;
      assert prev[doc] - {ws} == Room(old(rooms), doc) - {ws} - AllFailed(frames);
      Leave(doc, ws);
      SameElsewhereTrans(old(rooms), prev, rooms, doc);
    }
  }
}
