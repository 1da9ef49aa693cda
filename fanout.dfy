// The delivery rules of the gateway's domain-event handlers, as functions of
// the session registry and the room table at the moment the event arrives.
// Each handler method of MessagingGateway appends exactly the emissions one
// of these functions gives; the lemmas say who ends up notified, and how often.

module FanOut {
  import opened Domain
  import opened Sessions
  import opened Rooms
  import opened Delivery

  /** The TypeErrors the group handlers raise when they dereference a missing value. */
  const ReadingHasOfUndefined := "TypeError: Cannot read properties of undefined (reading 'has')"
  const ReadingEmitOfUndefined := "TypeError: Cannot read properties of undefined (reading 'emit')"

  predicate IsSocketOf(sessions: Registry, u: UserId, s: SocketId) {
    SocketOf(sessions, u) == Some(s)
  }

  // ---------------------------------------------------------------- conversations

  /**
   * The party told about an action by `actor`: the recipient when the creator
   * acted, the creator otherwise.
   */
  function Counterparty(c: Conversation, actor: UserId): (other: UserId)
    ensures IsParty(c, other)
    ensures IsParty(c, actor) && c.creator.id != c.recipient.id ==> other != actor
  {
    if actor == c.creator.id then c.recipient.id else c.creator.id
  }

  /** `message.create`: the author's socket and the other party's socket. */
  function MessageCreatePlan(sessions: Registry, m: Message): (r: seq<Emission>)
    ensures forall e :: e in r ==> e.event == "onMessage"
  {
    Notify(sessions, m.author.id, "onMessage", Forwarded)
    + Notify(sessions, Counterparty(m.conversation, m.author.id), "onMessage", Forwarded)
  }

  /**
   * When the author is one of two distinct parties, each party's live socket
   * gets `onMessage` exactly once and no other socket gets anything.
   */
  lemma MessageCreateReachesBothParties(sessions: Registry, m: Message, s: SocketId)
    requires Injective(sessions)
    requires IsParty(m.conversation, m.author.id)
    requires m.conversation.creator.id != m.conversation.recipient.id
    ensures DeliveryCount(MessageCreatePlan(sessions, m), s)
         == if IsSocketOf(sessions, m.conversation.creator.id, s)
               || IsSocketOf(sessions, m.conversation.recipient.id, s) then 1 else 0
  {
    var other := Counterparty(m.conversation, m.author.id);
    DeliveryCountAppend(Notify(sessions, m.author.id, "onMessage", Forwarded),
                        Notify(sessions, other, "onMessage", Forwarded), s);
  }

  /** `message.update`: only the author's counterparty. */
  function MessageUpdatePlan(sessions: Registry, m: Message): (r: seq<Emission>)
    ensures forall e :: e in r ==> e.event == "onMessageUpdate"
  {
    Notify(sessions, Counterparty(m.conversation, m.author.id), "onMessageUpdate", Forwarded)
  }

  /**
   * An update reaches the live socket of the party who is not the author,
   * once, and never the author.
   */
  lemma MessageUpdateReachesCounterpartyOnly(sessions: Registry, m: Message, s: SocketId)
    requires Injective(sessions)
    requires IsParty(m.conversation, m.author.id)
    requires m.conversation.creator.id != m.conversation.recipient.id
    ensures DeliveryCount(MessageUpdatePlan(sessions, m), s)
         == if (IsSocketOf(sessions, m.conversation.creator.id, s)
                || IsSocketOf(sessions, m.conversation.recipient.id, s))
               && !IsSocketOf(sessions, m.author.id, s) then 1 else 0
  {
  }

  /**
   * `message.delete`: the conversation is looked up by id; an unresolved one
   * drops the event, otherwise the deleter's counterparty is told.
   */
  function MessageDeletePlan(sessions: Registry, conversation: Option<Conversation>, deleter: UserId): (r: seq<Emission>)
    ensures conversation.None? ==> r == []
    ensures forall e :: e in r ==> e.event == "onMessageDelete"
  {
    match conversation
    case None => []
    case Some(c) => Notify(sessions, Counterparty(c, deleter), "onMessageDelete", Forwarded)
  }

  lemma MessageDeleteReachesCounterpartyOnly(sessions: Registry, c: Conversation, deleter: UserId, s: SocketId)
    requires Injective(sessions)
    requires IsParty(c, deleter) && c.creator.id != c.recipient.id
    ensures DeliveryCount(MessageDeletePlan(sessions, Some(c), deleter), s)
         == if (IsSocketOf(sessions, c.creator.id, s) || IsSocketOf(sessions, c.recipient.id, s))
               && !IsSocketOf(sessions, deleter, s) then 1 else 0
  {
  }

  /** `conversation.create`: only the recipient's socket. */
  function ConversationCreatePlan(sessions: Registry, c: Conversation): (r: seq<Emission>)
    ensures forall e :: e in r ==> e.event == "onConversation"
  {
    Notify(sessions, c.recipient.id, "onConversation", Forwarded)
  }

  /**
   * Only the recipient's live socket is notified, once; the creator is never
   * notified of the conversation they opened.
   */
  lemma ConversationCreateSkipsCreator(sessions: Registry, c: Conversation, s: SocketId)
    requires Injective(sessions) && c.creator.id != c.recipient.id
    ensures DeliveryCount(ConversationCreatePlan(sessions, c), s)
         == if IsSocketOf(sessions, c.recipient.id, s) then 1 else 0
    ensures IsSocketOf(sessions, c.creator.id, s) ==> DeliveryCount(ConversationCreatePlan(sessions, c), s) == 0
  {
  }

  // ---------------------------------------------------------------- group.create

  /** `group.create`: one direct emission per listed member that is online. */
  function GroupCreatePlan(users: seq<User>, sessions: Registry): (r: seq<Emission>)
    ensures forall e :: e in r ==> e.event == "onGroupCreate"
  {
    if users == [] then []
    else GroupCreatePlan(users[..|users| - 1], sessions)
         + Notify(sessions, users[|users| - 1].id, "onGroupCreate", Forwarded)
  }

  /** The live sockets of the listed members. */
  function MemberSockets(users: seq<User>, sessions: Registry): set<SocketId> {
    set u | u in users && u.id in sessions :: sessions[u.id]
  }

  /**
   * Each online member's socket receives exactly one `onGroupCreate`;
   * offline members, and sockets of non-members, receive nothing.
   */
  lemma {:induction false} GroupCreateDeliversOnce(users: seq<User>, sessions: Registry, s: SocketId)
    requires Injective(sessions) && DistinctIds(users)
    ensures DeliveryCount(GroupCreatePlan(users, sessions), s)
         == if s in MemberSockets(users, sessions) then 1 else 0
  {
    if users != [] {
      var init, last := users[..|users| - 1], users[|users| - 1];
      assert users == init + [last];
      GroupCreateDeliversOnce(init, sessions, s);
      DeliveryCountAppend(GroupCreatePlan(init, sessions),
                          Notify(sessions, last.id, "onGroupCreate", Forwarded), s);
      if IsSocketOf(sessions, last.id, s) {
        assert s in MemberSockets(users, sessions);
        forall u | u in init && u.id in sessions ensures sessions[u.id] != s {
          var k :| 0 <= k < |init| && init[k] == u;
          assert users[k] == u;
        }
      } else {
        assert s in MemberSockets(users, sessions) <==> s in MemberSockets(init, sessions);
      }
    }
  }

  // ---------------------------------------------------------------- group.user.add

  /** `group.user.add`: the room hears of the new member, who is also told directly. */
  function GroupUserAddPlan(sessions: Registry, rooms: RoomTable, groupId: int, user: User): (r: seq<Emission>)
    ensures r != [] && r[0].event == "onGroupReceivedNewUser"
    ensures forall e :: e in r[1..] ==> e.event == "onGroupUserAdd"
  {
    RoomBroadcast(rooms, GroupRoom(groupId), "onGroupReceivedNewUser")
    + Notify(sessions, user.id, "onGroupUserAdd", Forwarded)
  }

  /**
   * Every occupant hears `onGroupReceivedNewUser` once, through the leading
   * broadcast; the added user's socket hears `onGroupUserAdd` once, through
   * what follows; so a new member who is online and not yet in the room is
   * told exactly once.
   */
  lemma GroupUserAddReaches(sessions: Registry, rooms: RoomTable, groupId: int, user: User, s: SocketId)
    ensures var plan := GroupUserAddPlan(sessions, rooms, groupId, user);
      && DeliveryCount(plan[..1], s) == (if s in Members(rooms, GroupRoom(groupId)) then 1 else 0)
      && DeliveryCount(plan[1..], s) == (if IsSocketOf(sessions, user.id, s) then 1 else 0)
      && DeliveryCount(plan, s)
         == (if s in Members(rooms, GroupRoom(groupId)) then 1 else 0)
          + (if IsSocketOf(sessions, user.id, s) then 1 else 0)
  {
    var plan := GroupUserAddPlan(sessions, rooms, groupId, user);
    var broadcast := RoomBroadcast(rooms, GroupRoom(groupId), "onGroupReceivedNewUser");
    var notice := Notify(sessions, user.id, "onGroupUserAdd", Forwarded);
    assert plan[..1] == broadcast && plan[1..] == notice;
    DeliveryCountAppend(broadcast, notice, s);
  }

  // ---------------------------------------------------------------- group.user.remove

  /** The room table after `group.user.remove`: the removed user's socket has left the room. */
  function GroupUserRemoveRooms(sessions: Registry, rooms: RoomTable, groupId: int, userId: UserId): (r: RoomTable)
    ensures Members(r, GroupRoom(groupId))
         == Members(rooms, GroupRoom(groupId)) - (if userId in sessions then {sessions[userId]} else {})
    ensures forall q :: q != GroupRoom(groupId) ==> Members(r, q) == Members(rooms, q)
  {
    match SocketOf(sessions, userId)
    case Some(s) => Leave(rooms, GroupRoom(groupId), s)
    case None => rooms
  }

  /**
   * `group.user.remove`: the removed user, if online, is told directly and
   * leaves the room; the room as it stands afterwards then hears of the removal.
   */
  function GroupUserRemovePlan(sessions: Registry, rooms: RoomTable, groupId: int, userId: UserId): (r: seq<Emission>)
    ensures r != [] && r[|r| - 1].event == "onGroupRecipientRemoved"
    ensures forall e :: e in r[..|r| - 1] ==> e.event == "onGroupRemove"
  {
    Notify(sessions, userId, "onGroupRemove", Forwarded)
    + RoomBroadcast(GroupUserRemoveRooms(sessions, rooms, groupId, userId), GroupRoom(groupId), "onGroupRecipientRemoved")
  }

  /**
   * The broadcast always happens, last, and excludes the removed user's
   * socket; that socket gets exactly one emission, the direct `onGroupRemove`,
   * which comes first; every other occupant gets exactly one.
   */
  lemma GroupUserRemoveExcludesRemoved(sessions: Registry, rooms: RoomTable, groupId: int, userId: UserId, s: SocketId)
    ensures var plan := GroupUserRemovePlan(sessions, rooms, groupId, userId);
      && plan != []
      && plan[|plan| - 1].event == "onGroupRecipientRemoved"
      && plan[|plan| - 1].target
         == Broadcast(GroupRoom(groupId), Members(rooms, GroupRoom(groupId)) - (if userId in sessions then {sessions[userId]} else {}))
      && (IsSocketOf(sessions, userId, s) ==> plan[0] == Emission(Direct(s), "onGroupRemove", Forwarded))
      && DeliveryCount(plan, s)
         == if IsSocketOf(sessions, userId, s) || s in Members(rooms, GroupRoom(groupId)) then 1 else 0
  {
    var after := GroupUserRemoveRooms(sessions, rooms, groupId, userId);
    DeliveryCountAppend(Notify(sessions, userId, "onGroupRemove", Forwarded),
                        RoomBroadcast(after, GroupRoom(groupId), "onGroupRecipientRemoved"), s);
  }

  // ---------------------------------------------------------------- group.owner.update

  /**
   * `group.owner.update` as written: the room always hears; then, for an
   * online new owner, the room's socket set is read even when the room does
   * not exist, which throws after the broadcast.
   */
  function GroupOwnerUpdateAsWritten(sessions: Registry, rooms: RoomTable, g: Group): (r: (Outcome, seq<Emission>))
    ensures r.0.Crashed? <==> g.owner.id in sessions && GroupRoom(g.id) !in rooms
  {
    var room := GroupRoom(g.id);
    var broadcast := RoomBroadcast(rooms, room, "onGroupOwnerUpdate");
    match SocketOf(sessions, g.owner.id)
    case None => (Done, broadcast)
    case Some(s) =>
      if room !in rooms then (Crashed(ReadingHasOfUndefined), broadcast)
      else if s !in rooms[room] then (Done, broadcast + [Emission(Direct(s), "onGroupOwnerUpdate", Forwarded)])
      else (Done, broadcast)
  }

  /**
   * `group.owner.update` as intended: a room that does not exist has no
   * occupants, so an online new owner outside the room is told directly.
   */
  function GroupOwnerUpdatePlan(sessions: Registry, rooms: RoomTable, g: Group): (r: seq<Emission>)
    ensures forall e :: e in r ==> e.event == "onGroupOwnerUpdate"
  {
    RoomBroadcast(rooms, GroupRoom(g.id), "onGroupOwnerUpdate")
    + NotifyOutside(sessions, rooms, GroupRoom(g.id), g.owner.id, "onGroupOwnerUpdate")
  }

  /**
   * No socket hears of the new owner twice: occupants hear once through the
   * room, and an online new owner hears exactly once whether or not they are
   * in the room.
   */
  lemma GroupOwnerUpdateDeliversOnce(sessions: Registry, rooms: RoomTable, g: Group, s: SocketId)
    ensures DeliveryCount(GroupOwnerUpdatePlan(sessions, rooms, g), s)
         == if s in Members(rooms, GroupRoom(g.id)) || IsSocketOf(sessions, g.owner.id, s) then 1 else 0
  {
    var room := GroupRoom(g.id);
    DeliveryCountAppend(RoomBroadcast(rooms, room, "onGroupOwnerUpdate"),
                        NotifyOutside(sessions, rooms, room, g.owner.id, "onGroupOwnerUpdate"), s);
  }

  /** Whenever the code as written does not throw, it delivers the intended plan. */
  lemma GroupOwnerUpdateAsWrittenAgrees(sessions: Registry, rooms: RoomTable, g: Group)
    requires g.owner.id !in sessions || GroupRoom(g.id) in rooms
    ensures GroupOwnerUpdateAsWritten(sessions, rooms, g) == (Done, GroupOwnerUpdatePlan(sessions, rooms, g))
  {
    var room := GroupRoom(g.id);
    var broadcast := RoomBroadcast(rooms, room, "onGroupOwnerUpdate");
    match SocketOf(sessions, g.owner.id)
    case None =>
      assert GroupOwnerUpdatePlan(sessions, rooms, g) == broadcast + [] == broadcast;
    case Some(t) =>
      assert Members(rooms, room) == rooms[room];
      assert broadcast + [] == broadcast;
  }

  /**
   * The input that shows the defect: new owner 5 is online on socket 50 and
   * nobody has joined `group-9`. The code throws and socket 50 hears nothing;
   * the intended rule tells socket 50 once.
   */
  lemma GroupOwnerUpdateCrashExample()
    ensures var g := Group(9, User(1, "c@example.com"), User(5, "o@example.com"), []);
      var asWritten := GroupOwnerUpdateAsWritten(map[5 := 50], map[], g);
      && asWritten.0 == Crashed(ReadingHasOfUndefined)
      && DeliveryCount(asWritten.1, 50) == 0
      && DeliveryCount(GroupOwnerUpdatePlan(map[5 := 50], map[], g), 50) == 1
  {
    var g := Group(9, User(1, "c@example.com"), User(5, "o@example.com"), []);
    GroupOwnerUpdateDeliversOnce(map[5 := 50], map[], g, 50);
  }

  // ---------------------------------------------------------------- group.user.leave

  /**
   * `group.user.leave` as written. Its first test reads the room's socket set
   * exactly when the room does not exist; its second calls `emit` on the
   * leaving user's socket exactly when the user is offline; its third repeats
   * the first and is never reached. So it throws whenever the room does not
   * exist and otherwise emits nothing.
   */
  function GroupUserLeaveAsWritten(sessions: Registry, rooms: RoomTable, groupId: int, userId: UserId): (r: (Outcome, seq<Emission>))
    ensures r.1 == []
    ensures r.0.Crashed? <==> GroupRoom(groupId) !in rooms
  {
    var online := userId in sessions;
    var roomExists := GroupRoom(groupId) in rooms;
    if online && !roomExists then (Crashed(ReadingHasOfUndefined), [])
    else if !online && !roomExists then (Crashed(ReadingEmitOfUndefined), [])
    else (Done, [])
  }

  /**
   * `group.user.leave` as intended, read from the handler's comment (no room:
   * tell the leaving user if online) together with the bodies of its
   * unreachable branches (a leaving user inside the room hears only the
   * room's copy; one outside it is told directly and the room hears too):
   * the leaving user, if online and not in the room, is told directly; a
   * room with occupants hears of the departure.
   */
  function GroupUserLeavePlan(sessions: Registry, rooms: RoomTable, groupId: int, userId: UserId): (r: seq<Emission>)
    ensures forall e :: e in r ==> e.event == "onGroupParticipantLeft"
  {
    var room := GroupRoom(groupId);
    NotifyOutside(sessions, rooms, room, userId, "onGroupParticipantLeft")
    + (if Members(rooms, room) != {} then RoomBroadcast(rooms, room, "onGroupParticipantLeft") else [])
  }

  /**
   * The leaving user, when online, hears exactly once; so does every
   * occupant of the room; nobody else hears anything.
   */
  lemma GroupUserLeaveDeliversOnce(sessions: Registry, rooms: RoomTable, groupId: int, userId: UserId, s: SocketId)
    ensures DeliveryCount(GroupUserLeavePlan(sessions, rooms, groupId, userId), s)
         == if s in Members(rooms, GroupRoom(groupId)) || IsSocketOf(sessions, userId, s) then 1 else 0
  {
    var room := GroupRoom(groupId);
    var broadcast := if Members(rooms, room) != {} then RoomBroadcast(rooms, room, "onGroupParticipantLeft") else [];
    DeliveryCountAppend(NotifyOutside(sessions, rooms, room, userId, "onGroupParticipantLeft"), broadcast, s);
  }

  /**
   * The input that shows the defect: user 7 is online on socket 70 and has
   * left group 3, whose room nobody has joined. The code throws and socket 70
   * hears nothing; the intended rule tells socket 70 once. Had the room
   * existed, the code would still have told nobody.
   */
  lemma GroupUserLeaveCrashExample()
    ensures GroupUserLeaveAsWritten(map[7 := 70], map[], 3, 7) == (Crashed(ReadingHasOfUndefined), [])
    ensures DeliveryCount(GroupUserLeavePlan(map[7 := 70], map[], 3, 7), 70) == 1
    ensures GroupUserLeaveAsWritten(map[7 := 70], map[GroupRoom(3) := {70, 80}], 3, 7) == (Done, [])
    ensures DeliveryCount(GroupUserLeavePlan(map[7 := 70], map[GroupRoom(3) := {70, 80}], 3, 7), 80) == 1
  {
    GroupUserLeaveDeliversOnce(map[7 := 70], map[], 3, 7, 70);
    GroupUserLeaveDeliversOnce(map[7 := 70], map[GroupRoom(3) := {70, 80}], 3, 7, 80);
  }
}
