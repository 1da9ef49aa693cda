// The transport's room table: each room key maps to the sockets joined to it.
// A room is created by the first join and dropped as soon as its last socket
// leaves, so a key that is present always has at least one occupant.

module Rooms {
  import opened Domain

  type RoomTable = map<RoomKey, set<SocketId>>

  ghost predicate NoEmptyRooms(rooms: RoomTable) {
    forall r :: r in rooms ==> rooms[r] != {}
  }

  /** The occupants of a room; a room that is not in the table has none. */
  function Members(rooms: RoomTable, r: RoomKey): set<SocketId> {
    if r in rooms then rooms[r] else {}
  }

  /** `socket.join(room)`: adds the socket, creating the room if needed. */
  function Join(rooms: RoomTable, r: RoomKey, s: SocketId): (rooms': RoomTable)
    ensures Members(rooms', r) == Members(rooms, r) + {s}
    ensures forall q :: q != r ==> Members(rooms', q) == Members(rooms, q)
    ensures NoEmptyRooms(rooms) ==> NoEmptyRooms(rooms')
  {
    rooms[r := Members(rooms, r) + {s}]
  }

  /** `socket.leave(room)`: removes the socket and drops the room once empty. */
  function Leave(rooms: RoomTable, r: RoomKey, s: SocketId): (rooms': RoomTable)
    ensures Members(rooms', r) == Members(rooms, r) - {s}
    ensures forall q :: q != r ==> Members(rooms', q) == Members(rooms, q)
    ensures NoEmptyRooms(rooms) ==> NoEmptyRooms(rooms')
  {
    var left := Members(rooms, r) - {s};
    if left == {} then rooms - {r} else rooms[r := left]
  }

  /** What the transport does when a socket closes: it leaves every room. */
  function LeaveAll(rooms: RoomTable, s: SocketId): (rooms': RoomTable)
    ensures forall q :: Members(rooms', q) == Members(rooms, q) - {s}
    ensures NoEmptyRooms(rooms')
  {
    map q | q in rooms && rooms[q] - {s} != {} :: rooms[q] - {s}
  }

  /** Joining a room twice leaves the same table as joining it once. */
  lemma JoinIdempotent(rooms: RoomTable, r: RoomKey, s: SocketId)
    ensures Join(Join(rooms, r, s), r, s) == Join(rooms, r, s)
  {
  }

  /**
   * Leaving undoes a join of a socket that was not in the room, for a table
   * the transport keeps (no empty rooms).
   */
  lemma LeaveUndoesJoin(rooms: RoomTable, r: RoomKey, s: SocketId)
    requires NoEmptyRooms(rooms) && s !in Members(rooms, r)
    ensures Leave(Join(rooms, r, s), r, s) == rooms
  {
    var after := Leave(Join(rooms, r, s), r, s);
    assert after.Keys == rooms.Keys by {
      forall q ensures q in after <==> q in rooms {
        assert Members(after, q) == Members(rooms, q);
      }
    }
    forall q | q in rooms ensures after[q] == rooms[q] {
      assert Members(after, q) == Members(rooms, q);
    }
  }

  /**
   * Join, leave, join on the same room and socket ends with the socket in
   * the room exactly once, beside the occupants that were there before.
   */
  lemma JoinLeaveJoin(rooms: RoomTable, r: RoomKey, s: SocketId)
    requires NoEmptyRooms(rooms) && s !in Members(rooms, r)
    ensures Join(Leave(Join(rooms, r, s), r, s), r, s) == Join(rooms, r, s)
    ensures Members(Join(rooms, r, s), r) - {s} == Members(rooms, r)
  {
    LeaveUndoesJoin(rooms, r, s);
  }
}
