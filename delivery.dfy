// Emissions: what the gateway hands to the transport. A direct emission goes
// to one socket; a room emission goes to the occupants the transport resolves
// at that moment, which the model records alongside the room key.

module Delivery {
  import opened Domain
  import opened Sessions
  import opened Rooms

  datatype Target =
    | Direct(socket: SocketId)
    | Broadcast(room: RoomKey, sockets: set<SocketId>)

  /**
   * The payload of an emission. Domain-event payloads are passed through
   * unchanged (Forwarded); the two presence replies carry the lists computed
   * by the gateway; the join, leave and typing signals carry nothing.
   */
  datatype Payload =
    | Empty
    | Forwarded
    | GroupPresence(onlineUsers: seq<User>, offlineUsers: seq<User>)
    | FriendList(friends: seq<Friendship>)

  datatype Emission = Emission(target: Target, event: string, payload: Payload)

  predicate Reaches(e: Emission, s: SocketId) {
    match e.target
    case Direct(t) => t == s
    case Broadcast(_, sockets) => s in sockets
  }

  /** How many of the emissions reach socket `s`. */
  function DeliveryCount(log: seq<Emission>, s: SocketId): (n: nat)
    ensures n <= |log|
    ensures n == 0 <==> forall i :: 0 <= i < |log| ==> !Reaches(log[i], s)
  {
    if log == [] then 0
    else DeliveryCount(log[..|log| - 1], s) + (if Reaches(log[|log| - 1], s) then 1 else 0)
  }

  lemma {:induction false} DeliveryCountAppend(a: seq<Emission>, b: seq<Emission>, s: SocketId)
    ensures DeliveryCount(a + b, s) == DeliveryCount(a, s) + DeliveryCount(b, s)
    decreases |b|
  {
    if b != [] {
      var init := b[..|b| - 1];
      assert (a + b)[..|a + b| - 1] == a + init;
      DeliveryCountAppend(a, init, s);
    } else {
      assert a + b == a;
    }
  }

  /** `socket && socket.emit(event, payload)` for the user's registered socket. */
  function Notify(sessions: Registry, u: UserId, event: string, payload: Payload): (r: seq<Emission>)
    ensures |r| <= 1
    ensures forall e :: e in r ==> e.event == event && e.payload == payload
    ensures forall s :: DeliveryCount(r, s) == (if SocketOf(sessions, u) == Some(s) then 1 else 0)
  {
    if u in sessions then [Emission(Direct(sessions[u]), event, payload)] else []
  }

  /**
   * A direct emission to the user's socket, skipped when that socket is
   * already an occupant of room `r` and so hears the room's copy.
   */
  function NotifyOutside(sessions: Registry, rooms: RoomTable, r: RoomKey, u: UserId, event: string): (out: seq<Emission>)
    ensures forall e :: e in out ==> e.event == event
    ensures forall s :: DeliveryCount(out, s)
                        == (if SocketOf(sessions, u) == Some(s) && s !in Members(rooms, r) then 1 else 0)
  {
    if u in sessions && sessions[u] !in Members(rooms, r)
    then [Emission(Direct(sessions[u]), event, Forwarded)]
    else []
  }

  /** `server.to(room).emit(event, payload)`: every current occupant. */
  function RoomBroadcast(rooms: RoomTable, r: RoomKey, event: string): (out: seq<Emission>)
    ensures forall e :: e in out ==> e.event == event
    ensures forall s :: DeliveryCount(out, s) == (if s in Members(rooms, r) then 1 else 0)
  {
    [Emission(Broadcast(r, Members(rooms, r)), event, Forwarded)]
  }

  /** `client.to(room).emit(event)`: every current occupant except the sender. */
  function PeerBroadcast(rooms: RoomTable, r: RoomKey, client: SocketId, event: string): (out: seq<Emission>)
    ensures forall e :: e in out ==> e.event == event
    ensures forall s :: DeliveryCount(out, s) == (if s in Members(rooms, r) && s != client then 1 else 0)
  {
    [Emission(Broadcast(r, Members(rooms, r) - {client}), event, Empty)]
  }
}
