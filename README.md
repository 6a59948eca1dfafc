# CollabX relay: the room table

The CollabX backend is a WebSocket relay for CRDT updates. It keeps one
in-memory table, `rooms`, from a document id to the set of connections in
that document's room. A connection joins its room when its handler starts.
Every binary frame it sends is forwarded unchanged to the other members of the
room. Members whose send throws are discarded from the room after the
forwarding loop. The connection is removed when its handler exits, and
`remove_connection` deletes the room whenever it is empty after the removal.
The root endpoint `/`, whose docstring calls it a health check, reports the
number of rooms and the number of connections summed over all rooms.

This project models that table and proves what each update does to it.

- `rooms.dfy`, module `Rooms`: the table as a value (`map<string, set<nat>>`,
  connections are opaque `nat` ids). One function per update gives the table
  after it: `AfterGetOrCreate`, `AfterJoin`, `AfterLeave` and `AfterBroadcast`.
  Their contracts state membership, that a room left empty by a leave is deleted, and that no
  other room changes. Two lemmas relate several updates.
- `counters.dfy`, module `Counters`: `ActiveRooms`, and `TotalConnections` as
  the sum of room sizes taken in an unspecified key order. Lemmas show the sum
  does not depend on that order, that it equals the number of (document,
  connection) memberships, and how each update changes both counters.
- `relay.dfy`, module `Relay`: class `RoomTable` whose `rooms` field the methods
  update in place (`GetOrCreate`, `Join`, `Leave`, `Broadcast`). Each method's
  contract ties the new table to the matching function of the old one. `Deliver`
  is the forwarding loop of a broadcast. `Serve` is one handler's lifetime: join,
  broadcast each frame, leave.

A send that throws is an input: `failed` is the set of connections whose send
would throw. Only recipients can fail, so the sender is never pruned. Under
`RoomTable.Valid()` no room in the table is empty. `Join` keeps it because it
creates the room and adds the member in one step. `Leave` keeps it. A broadcast
keeps it when the sender is still in its room.

Pruning after a broadcast never deletes a room key; only `remove_connection`
does (backend/main.py:36-42 against 80-82). So a room can be left empty while
its key stays. Suppose two members each had their send to the other fail: the
second broadcast comes from a sender the first one already pruned.
`Rooms.BroadcastCanLeaveEmptyRoom` exhibits this. The model keeps the behaviour
as written. The empty key disappears once the handlers of the pruned
connections exit and call `remove_connection`.

## Model

| member | source | states |
|---|---|---|
| Rooms.AfterGetOrCreate | backend/main.py:29-33 | the room for the id exists afterwards and holds the old members; an existing id leaves the table unchanged (so repeating it changes nothing); a new id gets exactly one new key with an empty room; every other key and room is unchanged |
| Rooms.AfterJoin | backend/main.py:60-61 | the connection is in the room for the id, which is the old room plus that connection; the key set grows by at most that id; every other room is unchanged; a table with no empty room keeps none |
| Rooms.AfterLeave | backend/main.py:36-42 | the connection is no longer in the room; the room is the old room minus it; the key remains exactly when the id was present and the reduced room is non-empty; an absent id leaves the table unchanged; other rooms are untouched; a table with no empty room keeps none |
| Rooms.Recipients | backend/main.py:72-73 | a connection is a recipient exactly when it is in the sender's room and is not the sender; the sender never is |
| Rooms.AfterBroadcast | backend/main.py:71-82 | the key set is unchanged; the room loses exactly the failed members other than the sender; a sender in the room stays in it; every removed member had failed and is not the sender; other rooms are unchanged; with the sender in its room, no room becomes empty |
| Rooms.JoinLeaveRoundTrip | backend/main.py:29-42 | for a table with no empty room, joining a room one was not in and then leaving it restores the table exactly, including deleting a room the join created |
| Rooms.BroadcastCanLeaveEmptyRoom | backend/main.py:80-82 | starting from two joins to one room, two broadcasts whose sends to each other fail leave that room's key mapped to an empty set |
| Relay.Deliver | backend/main.py:71-78 | the payload goes to exactly the room's members other than the sender, once each, and unchanged; the sender never receives its own payload; the disconnected set is exactly the recipients whose send failed |
| Relay.RoomTable.constructor | backend/main.py:26 | the table starts with no rooms |
| Relay.RoomTable.GetOrCreate | backend/main.py:29-33 | the table becomes `AfterGetOrCreate` of the old table, and the returned set is the stored room, which holds the old members |
| Relay.RoomTable.Join | backend/main.py:60-61 | the table becomes `AfterJoin` of the old table; the no-empty-room invariant is kept |
| Relay.RoomTable.Leave | backend/main.py:36-42 | the table becomes `AfterLeave` of the old table; the invariant is kept |
| Relay.RoomTable.Broadcast | backend/main.py:68-82 | the payload is sent unchanged to exactly the recipients (the room minus the sender); each recipient is sent the payload once; the table becomes `AfterBroadcast` of the old table; the invariant is kept when the sender is in its room |
| Relay.RoomTable.Serve | backend/main.py:59-90 | after a handler joins, broadcasts any number of frames and exits, its room is exactly the old room minus its own connection minus every connection whose send failed during any frame; the key remains exactly when that room is non-empty; other rooms are unchanged; the invariant is kept; its loop invariant keeps the sender in its room across every broadcast |
| Relay.RoomAfterFrame | backend/main.py:80-82 | pruning one more frame's failed recipients (never the handler's own connection) extends the set of pruned connections by exactly that frame's failures |
| Counters.ActiveRooms | backend/main.py:99 | the room count is the number of keys in the table, and is zero exactly when the table is empty |
| Counters.TotalConnections | backend/main.py:100 | the total connection count is at least the size of every single room |
| Counters.TotalConnectionsRemove | backend/main.py:100 | the sum of room sizes equals any one room's size plus the sum over the remaining rooms, whatever the iteration order |
| Counters.TotalConnectionsUpdate | backend/main.py:100 | replacing or adding one room changes the total by the difference in that room's size |
| Counters.TotalConnectionsDelete | backend/main.py:100 | deleting one room lowers the total by that room's size |
| Counters.TotalConnectionsCountsMemberships | backend/main.py:100 | the total equals the number of distinct (document, connection) memberships |
| Counters.RoomsAtMostConnections | backend/main.py:99-100 | with no empty room, the active room count is at most the total connection count |
| Counters.CountersAfterGetOrCreate | backend/main.py:29-33 | creating a room on demand adds one room exactly when the id was absent and leaves the total connection count unchanged |
| Counters.TotalConnectionsAfterJoin | backend/main.py:100 | a join adds one connection to the total exactly when the connection was not already in that room |
| Counters.CountersAfterJoin | backend/main.py:99-100 | a join adds one room exactly when the id was absent, and one connection exactly when the connection was not already a member |
| Counters.TotalConnectionsAfterLeave | backend/main.py:100 | a leave removes one connection from the total exactly when the connection was a member of that room |
| Counters.CountersAfterLeave | backend/main.py:99-100 | a leave removes one room exactly when the id was present and the room empties, and one connection exactly when it was a member |
| Counters.CountersAfterBroadcast | backend/main.py:99-100 | a broadcast keeps the room count and lowers the total by the number of recipients whose send failed |

## Left out

- The FastAPI application, its decorators, the `/health` route and the shape of the HTTP responses are framework wiring. The counters are modelled as functions of the table.
- Async/await and real WebSocket I/O (`accept`, `receive_bytes`, `send_bytes`) are not modelled. A failing send is the `failed` input. The frames a connection sends are the finite sequence `frames` of `Serve`. A connection that never disconnects is not represented.
- Interleaving of concurrent handlers is not modelled: each of `Join`, `Leave` and `Broadcast` is one atomic step on the shared table. `Serve` runs one handler's steps back to back. In the source a handler keeps its own reference to the room set. If that room's key is deleted and recreated by other connections, its later broadcasts and prunes act on a set that is no longer in the table. The model always looks the room up by id.
- Relay.RoomTable.GetOrCreate: it returns the room as a value rather than a reference to the stored set. `Join` writes the enlarged set back under the same key, which is what `room.add` does to the shared set.
- The order in which a Python set is iterated is not modelled. `Deliver` visits the members in an arbitrary order, and its contract holds for every order.
- Logging and the specific exception classes are side effects. Only the fact that `remove_connection` runs on every exit path is kept, as the final `Leave` of `Serve`.
- The CRDT payload contents are opaque bytes that the relay never inspects.
- The client-side synchronisation engine (transport reconnection, edit diffing, document session, zone registry) is not part of this model. Its source is not among the modelled files.
