// The real-time gateway: connection lifecycle, room membership requested by
// clients, presence queries, and the domain-event handlers. The session
// registry, the transport's open sockets and room table, and the log of
// everything emitted are the object's state; each handler changes exactly
// the parts its `modifies` clause names.

module Gateway {
  import opened Domain
  import opened Sessions
  import opened Rooms
  import opened Delivery
  import opened Presence
  import opened FanOut

  class MessagingGateway {
    /** The session registry: one live socket per user id. */
    var sessions: Registry
    /** The transport's open sockets, each with the user it authenticated as. */
    var connected: map<SocketId, UserId>
    /** The transport's room table. */
    var rooms: RoomTable
    /** Every emission handed to the transport, in order. */
    var log: seq<Emission>

    ghost predicate Valid()
      reads this
    {
      && Consistent(sessions, connected)
      && NoEmptyRooms(rooms)
      && (forall r :: r in rooms ==> rooms[r] <= connected.Keys)
    }

    constructor ()
      ensures Valid()
      ensures sessions == map[] && connected == map[] && rooms == map[] && log == []
    {
      sessions, connected, rooms, log := map[], map[], map[], [];
    }

    // ------------------------------------------------------------ lifecycle

    /**
     * A socket authenticated as `user` opens: it is registered for the user,
     * displacing any earlier socket of theirs, and is sent `connected`.
     */
    method HandleConnection(socket: SocketId, user: UserId)
      requires Valid() && socket !in connected
      modifies this`sessions, this`connected, this`log
      ensures Valid()
      ensures sessions == Register(old(sessions), user, socket)
      ensures connected == old(connected)[socket := user]
      ensures log == old(log) + [Emission(Direct(socket), "connected", Empty)]
    {
      RegisterKeepsConsistent(sessions, connected, user, socket);
      connected := connected[socket := user];
      sessions := Register(sessions, user, socket);
      log := log + [Emission(Direct(socket), "connected", Empty)];
    }

    /**
     * A socket closes: its user's registry entry is removed, whichever socket
     * it held, and the transport takes the socket out of every room.
     */
    method HandleDisconnect(socket: SocketId)
      requires Valid() && socket in connected
      modifies this`sessions, this`connected, this`rooms
      ensures Valid()
      ensures sessions == Deregister(old(sessions), old(connected)[socket])
      ensures connected == old(connected) - {socket}
      ensures rooms == LeaveAll(old(rooms), socket)
      ensures forall r :: socket !in Members(rooms, r)
    {
      DeregisterKeepsConsistent(sessions, connected, socket);
      sessions := Deregister(sessions, connected[socket]);
      rooms := LeaveAll(rooms, socket);
      connected := connected - {socket};
      forall r | r in rooms ensures rooms[r] <= connected.Keys {
        assert Members(rooms, r) == Members(old(rooms), r) - {socket};
      }
    }

    // ------------------------------------------------------------ presence

    /**
     * `getOnlineGroupUsers`: for a group that was found, the requesting socket
     * alone is sent its members split into online and offline, in member order.
     */
    method HandleGetOnlineGroupUsers(client: SocketId, group: Option<Group>)
      requires Valid()
      modifies this`log
      ensures Valid()
      ensures group.None? ==> log == old(log)
      ensures group.Some? ==>
        log == old(log) + [Emission(Direct(client), "onlineGroupUsersReceived",
                                    GroupPresence(OnlineUsers(group.value.users, sessions),
                                                  OfflineUsers(group.value.users, sessions)))]
    {
      if group.None? {
        return;
      }
      var users := group.value.users;
      var onlineUsers, offlineUsers := [], [];
      var i := 0;
      while i < |users|
        invariant 0 <= i <= |users|
        invariant onlineUsers == OnlineUsers(users[..i], sessions)
        invariant offlineUsers == OfflineUsers(users[..i], sessions)
      {
        var user := users[i];
        var socket := SocketOf(sessions, user.id);
        if socket.Some? {
          onlineUsers := onlineUsers + [user];
        } else {
          offlineUsers := offlineUsers + [user];
        }
        assert users[..i + 1][..i] == users[..i];
        i := i + 1;
      }
      assert users[..|users|] == users;
      log := log + [Emission(Direct(client), "onlineGroupUsersReceived", GroupPresence(onlineUsers, offlineUsers))];
    }

    /**
     * `getOnlineFriends`: the requesting socket is sent those of its user's
     * friendships whose other party is online.
     */
    method HandleFriendListRetrieve(client: SocketId, friends: seq<Friendship>)
      requires Valid() && client in connected
      modifies this`log
      ensures Valid()
      ensures log == old(log) + [Emission(Direct(client), "getOnlineFriends",
                                          FriendList(OnlineFriends(friends, connected[client], sessions)))]
    {
      var user := connected[client];
      var onlineFriends := OnlineFriends(friends, user, sessions);
      log := log + [Emission(Direct(client), "getOnlineFriends", FriendList(onlineFriends))];
    }

    // ------------------------------------------------------------ rooms requested by clients

    /** `onConversationJoin`: the client joins the room and its other occupants hear `userJoin`. */
    method OnConversationJoin(client: SocketId, conversationId: int)
      requires Valid() && client in connected
      modifies this`rooms, this`log
      ensures Valid()
      ensures rooms == Join(old(rooms), ConversationRoom(conversationId), client)
      ensures log == old(log) + PeerBroadcast(rooms, ConversationRoom(conversationId), client, "userJoin")
    {
      var room := ConversationRoom(conversationId);
      rooms := Join(rooms, room, client);
      log := log + PeerBroadcast(rooms, room, client, "userJoin");
    }

    /**
     * `onConversationLeave` as written: it calls `join`, not `leave`, so the
     * client ends up in the room it asked to leave; the others hear `userLeave`.
     */
    method OnConversationLeave(client: SocketId, conversationId: int)
      requires Valid() && client in connected
      modifies this`rooms, this`log
      ensures Valid()
      ensures rooms == Join(old(rooms), ConversationRoom(conversationId), client)
      ensures client in Members(rooms, ConversationRoom(conversationId))
      ensures log == old(log) + PeerBroadcast(rooms, ConversationRoom(conversationId), client, "userLeave")
    {
      var room := ConversationRoom(conversationId);
      rooms := Join(rooms, room, client);
      log := log + PeerBroadcast(rooms, room, client, "userLeave");
    }

    /**
     * `onConversationLeave` as its name and its `userLeave` signal intend: the
     * client leaves the room and the remaining occupants hear `userLeave`.
     */
    method OnConversationLeaveIntended(client: SocketId, conversationId: int)
      requires Valid() && client in connected
      modifies this`rooms, this`log
      ensures Valid()
      ensures rooms == Leave(old(rooms), ConversationRoom(conversationId), client)
      ensures client !in Members(rooms, ConversationRoom(conversationId))
      ensures log == old(log) + PeerBroadcast(rooms, ConversationRoom(conversationId), client, "userLeave")
    {
      var room := ConversationRoom(conversationId);
      rooms := Leave(rooms, room, client);
      log := log + PeerBroadcast(rooms, room, client, "userLeave");
    }

    /** `onGroupJoin`: the client joins the group's room and its other occupants hear `userGroupJoin`. */
    method OnGroupJoin(client: SocketId, groupId: int)
      requires Valid() && client in connected
      modifies this`rooms, this`log
      ensures Valid()
      ensures rooms == Join(old(rooms), GroupRoom(groupId), client)
      ensures log == old(log) + PeerBroadcast(rooms, GroupRoom(groupId), client, "userGroupJoin")
    {
      var room := GroupRoom(groupId);
      rooms := Join(rooms, room, client);
      log := log + PeerBroadcast(rooms, room, client, "userGroupJoin");
    }

    /** `onGroupLeave` as written: like `onConversationLeave`, it joins the room. */
    method OnGroupLeave(client: SocketId, groupId: int)
      requires Valid() && client in connected
      modifies this`rooms, this`log
      ensures Valid()
      ensures rooms == Join(old(rooms), GroupRoom(groupId), client)
      ensures client in Members(rooms, GroupRoom(groupId))
      ensures log == old(log) + PeerBroadcast(rooms, GroupRoom(groupId), client, "userGroupLeave")
    {
      var room := GroupRoom(groupId);
      rooms := Join(rooms, room, client);
      log := log + PeerBroadcast(rooms, room, client, "userGroupLeave");
    }

    /** `onGroupLeave` as intended: the client leaves the group's room. */
    method OnGroupLeaveIntended(client: SocketId, groupId: int)
      requires Valid() && client in connected
      modifies this`rooms, this`log
      ensures Valid()
      ensures rooms == Leave(old(rooms), GroupRoom(groupId), client)
      ensures client !in Members(rooms, GroupRoom(groupId))
      ensures log == old(log) + PeerBroadcast(rooms, GroupRoom(groupId), client, "userGroupLeave")
    {
      var room := GroupRoom(groupId);
      rooms := Leave(rooms, room, client);
      log := log + PeerBroadcast(rooms, room, client, "userGroupLeave");
    }

    /** `onTypingStart`: the conversation room's occupants other than the sender hear it. */
    method OnTypingStart(client: SocketId, conversationId: int)
      requires Valid()
      modifies this`log
      ensures Valid()
      ensures log == old(log) + PeerBroadcast(rooms, ConversationRoom(conversationId), client, "onTypingStart")
    {
      log := log + PeerBroadcast(rooms, ConversationRoom(conversationId), client, "onTypingStart");
    }

    /** `onTypingStop`: the conversation room's occupants other than the sender hear it. */
    method OnTypingStop(client: SocketId, conversationId: int)
      requires Valid()
      modifies this`log
      ensures Valid()
      ensures log == old(log) + PeerBroadcast(rooms, ConversationRoom(conversationId), client, "onTypingStop")
    {
      log := log + PeerBroadcast(rooms, ConversationRoom(conversationId), client, "onTypingStop");
    }

    // ------------------------------------------------------------ conversation events

    /** `message.create` */
    method HandleMessageCreateEvent(m: Message)
      requires Valid()
      modifies this`log
      ensures Valid()
      ensures log == old(log) + MessageCreatePlan(sessions, m)
    {
      var conversation := m.conversation;
      var authorSocket := SocketOf(sessions, m.author.id);
      var recipientSocket :=
        if m.author.id == conversation.creator.id
        then SocketOf(sessions, conversation.recipient.id)
        else SocketOf(sessions, conversation.creator.id);
      if authorSocket.Some? {
        log := log + [Emission(Direct(authorSocket.value), "onMessage", Forwarded)];
      }
      if recipientSocket.Some? {
        log := log + [Emission(Direct(recipientSocket.value), "onMessage", Forwarded)];
      }
    }

    /** `conversation.create` */
    method HandleConversationCreateEvent(c: Conversation)
      requires Valid()
      modifies this`log
      ensures Valid()
      ensures log == old(log) + ConversationCreatePlan(sessions, c)
    {
      var recipientSocket := SocketOf(sessions, c.recipient.id);
      if recipientSocket.Some? {
        log := log + [Emission(Direct(recipientSocket.value), "onConversation", Forwarded)];
      }
    }

    /**
     * `message.delete`: `conversation` is the result of looking the payload's
     * conversation id up; `userId` is the deleter.
     */
    method HandleMessageDelete(conversation: Option<Conversation>, userId: UserId)
      requires Valid()
      modifies this`log
      ensures Valid()
      ensures log == old(log) + MessageDeletePlan(sessions, conversation, userId)
    {
      if conversation.None? {
        return;
      }
      var c := conversation.value;
      var recipientSocket :=
        if c.creator.id == userId then SocketOf(sessions, c.recipient.id) else SocketOf(sessions, c.creator.id);
      if recipientSocket.Some? {
        log := log + [Emission(Direct(recipientSocket.value), "onMessageDelete", Forwarded)];
      }
    }

    /** `message.update` */
    method HandleMessageUpdate(m: Message)
      requires Valid()
      modifies this`log
      ensures Valid()
      ensures log == old(log) + MessageUpdatePlan(sessions, m)
    {
      var conversation := m.conversation;
      var recipientSocket :=
        if m.author.id == conversation.creator.id
        then SocketOf(sessions, conversation.recipient.id)
        else SocketOf(sessions, conversation.creator.id);
      if recipientSocket.Some? {
        log := log + [Emission(Direct(recipientSocket.value), "onMessageUpdate", Forwarded)];
      }
    }

    // ------------------------------------------------------------ group events

    /** `group.message.create`: every occupant of the group's room, nobody looked up. */
    method HandleGroupMessageCreate(groupId: int)
      requires Valid()
      modifies this`log
      ensures Valid()
      ensures log == old(log) + RoomBroadcast(rooms, GroupRoom(groupId), "onGroupMessage")
    {
      log := log + RoomBroadcast(rooms, GroupRoom(groupId), "onGroupMessage");
    }

    /** `group.message.update`: every occupant of the group's room. */
    method HandleGroupMessageUpdate(groupId: int)
      requires Valid()
      modifies this`log
      ensures Valid()
      ensures log == old(log) + RoomBroadcast(rooms, GroupRoom(groupId), "onGroupMessageUpdate")
    {
      log := log + RoomBroadcast(rooms, GroupRoom(groupId), "onGroupMessageUpdate");
    }

    /**
     * `group.create`: each listed member, one by one, if online. The class
     * invariant makes the registry injective, so a group with distinct member
     * ids reaches each online member's socket exactly once.
     */
    method HandleGroupCreate(g: Group)
      requires Valid()
      modifies this`log
      ensures Valid()
      ensures log == old(log) + GroupCreatePlan(g.users, sessions)
      ensures DistinctIds(g.users) ==>
        forall s :: DeliveryCount(log[|old(log)|..], s) == if s in MemberSockets(g.users, sessions) then 1 else 0
    {
      var users := g.users;
      var i := 0;
      while i < |users|
        invariant 0 <= i <= |users|
        invariant log == old(log) + GroupCreatePlan(users[..i], sessions)
      {
        var socket := SocketOf(sessions, users[i].id);
        if socket.Some? {
          log := log + [Emission(Direct(socket.value), "onGroupCreate", Forwarded)];
        }
        assert users[..i + 1][..i] == users[..i];
        i := i + 1;
      }
      assert users[..|users|] == users;
      assert log[|old(log)|..] == GroupCreatePlan(users, sessions);
      ConsistentIsInjective(sessions, connected);
      forall s | DistinctIds(users)
        ensures DeliveryCount(log[|old(log)|..], s) == if s in MemberSockets(users, sessions) then 1 else 0
      {
        GroupCreateDeliversOnce(users, sessions, s);
      }
    }

    /** `group.user.add` */
    method HandleGroupUserAdd(groupId: int, user: User)
      requires Valid()
      modifies this`log
      ensures Valid()
      ensures log == old(log) + GroupUserAddPlan(sessions, rooms, groupId, user)
    {
      var recipientSocket := SocketOf(sessions, user.id);
      log := log + RoomBroadcast(rooms, GroupRoom(groupId), "onGroupReceivedNewUser");
      if recipientSocket.Some? {
        log := log + [Emission(Direct(recipientSocket.value), "onGroupUserAdd", Forwarded)];
      }
    }

    /**
     * `group.user.remove`: the removed user's socket, if any, is told and
     * leaves the room before the room hears of the removal.
     */
    method HandleGroupUserRemove(groupId: int, user: User)
      requires Valid()
      modifies this`rooms, this`log
      ensures Valid()
      ensures rooms == GroupUserRemoveRooms(sessions, old(rooms), groupId, user.id)
      ensures log == old(log) + GroupUserRemovePlan(sessions, old(rooms), groupId, user.id)
    {
      var room := GroupRoom(groupId);
      var removedUserSocket := SocketOf(sessions, user.id);
      if removedUserSocket.Some? {
        log := log + [Emission(Direct(removedUserSocket.value), "onGroupRemove", Forwarded)];
        rooms := Leave(rooms, room, removedUserSocket.value);
      }
      log := log + RoomBroadcast(rooms, room, "onGroupRecipientRemoved");
    }

    /**
     * `group.owner.update` as written: returns Crashed when the new owner is
     * online and the room does not exist, after the room broadcast.
     */
    method HandleGroupOwnerUpdate(g: Group) returns (outcome: Outcome)
      requires Valid()
      modifies this`log
      ensures Valid()
      ensures outcome == GroupOwnerUpdateAsWritten(sessions, rooms, g).0
      ensures log == old(log) + GroupOwnerUpdateAsWritten(sessions, rooms, g).1
    {
      var room := GroupRoom(g.id);
      var newOwnerSocket := SocketOf(sessions, g.owner.id);
      log := log + RoomBroadcast(rooms, room, "onGroupOwnerUpdate");
      if newOwnerSocket.Some? {
        if room !in rooms {
          return Crashed(ReadingHasOfUndefined);
        }
        if newOwnerSocket.value !in rooms[room] {
          log := log + [Emission(Direct(newOwnerSocket.value), "onGroupOwnerUpdate", Forwarded)];
        }
      }
      return Done;
    }

    /** `group.owner.update` with a missing room read as an empty one. */
    method HandleGroupOwnerUpdateIntended(g: Group)
      requires Valid()
      modifies this`log
      ensures Valid()
      ensures log == old(log) + GroupOwnerUpdatePlan(sessions, rooms, g)
    {
      var room := GroupRoom(g.id);
      var newOwnerSocket := SocketOf(sessions, g.owner.id);
      log := log + RoomBroadcast(rooms, room, "onGroupOwnerUpdate");
      if newOwnerSocket.Some? && newOwnerSocket.value !in Members(rooms, room) {
        log := log + [Emission(Direct(newOwnerSocket.value), "onGroupOwnerUpdate", Forwarded)];
      }
    }

    /**
     * `group.user.leave` as written: emits nothing, and throws whenever the
     * group's room does not exist.
     */
    method HandleGroupUserLeave(groupId: int, userId: UserId) returns (outcome: Outcome)
      requires Valid()
      ensures (outcome, []) == GroupUserLeaveAsWritten(sessions, rooms, groupId, userId)
      ensures Valid()
    {
      var roomExists := GroupRoom(groupId) in rooms;
      var leftUserSocket := SocketOf(sessions, userId);
      if leftUserSocket.Some? && !roomExists {
        return Crashed(ReadingHasOfUndefined);
      }
      if leftUserSocket.None? && !roomExists {
        return Crashed(ReadingEmitOfUndefined);
      }
      return Done;
    }

    /**
     * `group.user.leave` as intended, read from the handler's comment and the
     * bodies of its unreachable branches.
     */
    method HandleGroupUserLeaveIntended(groupId: int, userId: UserId)
      requires Valid()
      modifies this`log
      ensures Valid()
      ensures log == old(log) + GroupUserLeavePlan(sessions, rooms, groupId, userId)
    {
      var room := GroupRoom(groupId);
      var socketsInRoom := Members(rooms, room);
      var leftUserSocket := SocketOf(sessions, userId);
      if leftUserSocket.Some? && leftUserSocket.value !in socketsInRoom {
        log := log + [Emission(Direct(leftUserSocket.value), "onGroupParticipantLeft", Forwarded)];
      }
      if socketsInRoom != {} {
        log := log + RoomBroadcast(rooms, room, "onGroupParticipantLeft");
      }
    }
  }
}
