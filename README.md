# Real-time chat gateway: fan-out rules and group recipients

A Dafny model of two parts of a NestJS chat backend.

The first is the `MessagingGateway`, a socket.io gateway with three kinds of work:

- It keeps a session registry that maps each user id to one live socket.
- It moves client sockets in and out of rooms named `conversation-{id}` and `group-{id}`.
- It answers domain events and client messages by emitting to specific sockets or whole rooms.

The second is the `GroupRecipientService`. It checks requests to add or remove group members and then saves the new member list.

The gateway is the class `Gateway.MessagingGateway`. Its state has four parts:

- `sessions`: the registry, one socket per user. A later connection overwrites an earlier one, and removal is by user id.
- `connected`: the transport's open sockets, each with its authenticated user.
- `rooms`: the transport's room table. A room is dropped when its last socket leaves.
- `log`: every emission in order. A room emission records the occupant set the transport resolved at that moment.

`Valid()` states two invariants:

- The registry points only at open sockets of the right user, so no socket is registered for two users.
- Rooms are never empty and hold only open sockets.

Most domain-event handlers append exactly the emissions of a pure plan function in module `FanOut`, and the lemmas there count, for every socket, how many emissions reach it. The two group-message handlers append a single `Delivery.RoomBroadcast`, and the as-written `group.user.leave` handler appends nothing. Every handler requires and keeps `Valid()`, which supplies the injective registry the `FanOut` delivery lemmas assume. Presence queries are the functions of module `Presence`. The recipient service's guard chains are the functions `AddRecipient` and `RemoveRecipient`. The class `GroupRecipients.GroupRecipientService` stores each result.

Modules: `Domain` (records and room keys), `Sessions` (registry), `Rooms` (room table), `Delivery` (emissions and delivery counts), `Presence`, `FanOut`, `Gateway`, `GroupRecipients`.

## Model

| member | source | states |
|---|---|---|
| Sessions.SocketOf | src/gateway/gateway.ts:81 | a lookup finds a socket exactly when the user is registered, and it is the registered one |
| Sessions.Register | src/gateway/gateway.ts:59 | after registering, the user maps to the new socket and every other user's entry is unchanged |
| Sessions.Deregister | src/gateway/gateway.ts:66 | after removal the user is offline and every other user's entry is unchanged |
| Sessions.ConsistentIsInjective | src/gateway/gateway.ts:57-67 | a registry that points only at its users' own open sockets never holds one socket for two users |
| Sessions.RegisterKeepsConsistent | src/gateway/gateway.ts:57-61 | registering a freshly opened socket keeps the registry consistent, even when it displaces the user's older socket |
| Sessions.DeregisterKeepsConsistent | src/gateway/gateway.ts:63-67 | closing a socket and removing its user's entry keeps the registry consistent with the open sockets |
| Sessions.StaleDisconnectDropsNewerSocket | src/gateway/gateway.ts:59-66 | when a user's older socket closes, the user is reported offline although their newer socket is still open |
| Rooms.Join | src/gateway/gateway.ts:100 | joining adds exactly the socket to that room, leaves other rooms alone, and never creates an empty room |
| Rooms.Leave | src/gateway/gateway.ts:247 | leaving removes exactly the socket from that room, leaves other rooms alone, and drops the room once empty |
| Rooms.JoinIdempotent | src/gateway/gateway.ts:100 | joining a room twice gives the same table as joining once |
| Rooms.LeaveUndoesJoin | src/gateway/gateway.ts:247 | leaving right after joining a room the socket was not in restores the table exactly |
| Rooms.JoinLeaveJoin | src/gateway/gateway.ts:100 | join, leave, join ends with the socket in the room once, beside the earlier occupants |
| Delivery.Notify | src/gateway/gateway.ts:167-168 | a direct emission carrying the given event and payload reaches the user's registered socket once and no other socket, and nothing is sent to an offline user |
| Delivery.RoomBroadcast | src/gateway/gateway.ts:207 | a room emission of the given event reaches each current occupant once and nobody else |
| Delivery.PeerBroadcast | src/gateway/gateway.ts:102 | a client's room emission of the given event reaches each occupant other than the sender once |
| Delivery.NotifyOutside | src/gateway/gateway.ts:269-271 | the direct copy of the given event reaches the user's socket once only when that socket is not a room occupant, and reaches no other socket |
| Presence.PresenceMembership | src/gateway/gateway.ts:78-83 | a member is in the online list exactly when they are in the group and have a socket, and in the offline list exactly when they have none |
| Presence.PresencePartition | src/gateway/gateway.ts:80-83 | the online and offline lists together hold the member list exactly, with multiplicity |
| Presence.OnlineKeepsOrder | src/gateway/gateway.ts:80-83 | the online list keeps member order: the online part of a concatenation is the concatenation of online parts |
| Presence.OfflineKeepsOrder | src/gateway/gateway.ts:80-83 | the offline list keeps member order in the same way |
| Presence.FriendOf | src/gateway/gateway.ts:325-327 | the other party of a friendship is the sender when the user is the receiver, and the receiver when the user is only the sender |
| Presence.OnlineFriends | src/gateway/gateway.ts:323-329 | a friendship is kept exactly when it is in the list and its other party has a socket |
| Presence.OnlineFriendsKeepsOrder | src/gateway/gateway.ts:323-329 | the filtered friend list keeps the original order |
| Presence.OnlineFriendsExample | src/gateway/gateway.ts:313-332 | with one online and one offline friend, only the online friendship is returned |
| FanOut.Counterparty | src/gateway/gateway.ts:162-165 | the party told is always a party, and never the actor when the actor is one of two distinct parties |
| FanOut.MessageCreatePlan | src/gateway/gateway.ts:167-168 | every emission is an `onMessage` |
| FanOut.MessageCreateReachesBothParties | src/gateway/gateway.ts:154-169 | each party's live socket gets `onMessage` exactly once and no other socket gets anything, whichever party wrote |
| FanOut.MessageUpdatePlan | src/gateway/gateway.ts:201 | every emission is an `onMessageUpdate` |
| FanOut.MessageUpdateReachesCounterpartyOnly | src/gateway/gateway.ts:191-202 | only the live socket of the party who did not write gets `onMessageUpdate`, once |
| FanOut.MessageDeletePlan | src/gateway/gateway.ts:179-188 | an unresolved conversation drops the event with no emission; every emission is an `onMessageDelete` |
| FanOut.MessageDeleteReachesCounterpartyOnly | src/gateway/gateway.ts:183-188 | only the live socket of the party who did not delete gets `onMessageDelete`, once |
| FanOut.ConversationCreatePlan | src/gateway/gateway.ts:173-174 | every emission is an `onConversation` |
| FanOut.ConversationCreateSkipsCreator | src/gateway/gateway.ts:171-175 | only the recipient's live socket gets `onConversation`, once; the creator's socket never does |
| FanOut.GroupCreatePlan | src/gateway/gateway.ts:213-216 | every emission is an `onGroupCreate` |
| FanOut.GroupCreateDeliversOnce | src/gateway/gateway.ts:210-217 | each online member's socket gets exactly one `onGroupCreate`, and every other socket none |
| FanOut.GroupUserAddPlan | src/gateway/gateway.ts:231-234 | the room's `onGroupReceivedNewUser` comes first and everything after it is `onGroupUserAdd` |
| FanOut.GroupUserAddReaches | src/gateway/gateway.ts:226-235 | the leading `onGroupReceivedNewUser` reaches each occupant once, the following `onGroupUserAdd` reaches the added user's live socket once, and the total is their sum |
| FanOut.GroupUserRemoveRooms | src/gateway/gateway.ts:244-248 | after a removal the removed user's socket is out of the group room and other rooms are unchanged |
| FanOut.GroupUserRemovePlan | src/gateway/gateway.ts:244-249 | the last emission is the room's `onGroupRecipientRemoved` and every earlier one is `onGroupRemove` |
| FanOut.GroupUserRemoveExcludesRemoved | src/gateway/gateway.ts:237-249 | the removed user's socket gets only the direct `onGroupRemove`, first; the room broadcast comes last, always happens and excludes them; every other occupant gets it once |
| FanOut.GroupOwnerUpdateAsWritten | src/gateway/gateway.ts:256-273 | the handler throws exactly when the new owner is online and the room does not exist |
| FanOut.GroupOwnerUpdatePlan | src/gateway/gateway.ts:268-271 | every emission is an `onGroupOwnerUpdate` |
| FanOut.GroupOwnerUpdateDeliversOnce | src/gateway/gateway.ts:267-272 | with a missing room read as empty, each occupant and the online new owner hear exactly once and nobody twice |
| FanOut.GroupOwnerUpdateAsWrittenAgrees | src/gateway/gateway.ts:268-272 | whenever the handler does not throw, it emits exactly the intended plan |
| FanOut.GroupOwnerUpdateCrashExample | src/gateway/gateway.ts:269 | an online new owner and a room nobody joined: the handler throws and the owner hears nothing |
| FanOut.GroupUserLeaveAsWritten | src/gateway/gateway.ts:289-310 | the handler never emits, and throws exactly when the room does not exist |
| FanOut.GroupUserLeavePlan | src/gateway/gateway.ts:282-300 | every emission is an `onGroupParticipantLeft` |
| FanOut.GroupUserLeaveDeliversOnce | src/gateway/gateway.ts:282-300 | under the rule read from the comment (no room: tell the leaving user if online) and the bodies of the unreachable branches (a user inside the room hears only the room's copy, one outside is told directly and the room hears too), the leaving user when online and each occupant hear exactly once, and nobody else hears |
| FanOut.GroupUserLeaveCrashExample | src/gateway/gateway.ts:289-305 | an online leaving user and no room: the handler throws; with a room, it still tells nobody |
| Gateway.MessagingGateway.constructor | src/gateway/gateway.ts:43-52 | the gateway starts with no sessions, sockets, rooms or emissions |
| Gateway.MessagingGateway.HandleConnection | src/gateway/gateway.ts:57-61 | registers the socket for its user, overwriting any earlier socket, and sends it `connected`; keeps the invariant |
| Gateway.MessagingGateway.HandleDisconnect | src/gateway/gateway.ts:63-67 | removes the user's registry entry and the socket from every room; keeps the invariant |
| Gateway.MessagingGateway.HandleGetOnlineGroupUsers | src/gateway/gateway.ts:69-85 | a missing group emits nothing; otherwise only the requester gets the online and offline partitions |
| Gateway.MessagingGateway.HandleFriendListRetrieve | src/gateway/gateway.ts:313-332 | only the requester gets the friendships whose other party is online |
| Gateway.MessagingGateway.OnConversationJoin | src/gateway/gateway.ts:92-103 | the client joins the conversation room and the other occupants get `userJoin` |
| Gateway.MessagingGateway.OnConversationLeave | src/gateway/gateway.ts:105-114 | as written: the client ends up in the room it asked to leave, and the others get `userLeave` |
| Gateway.MessagingGateway.OnConversationLeaveIntended | src/gateway/gateway.ts:105-114 | as intended: the client is out of the room and the remaining occupants get `userLeave` |
| Gateway.MessagingGateway.OnGroupJoin | src/gateway/gateway.ts:116-125 | the client joins the group room and the other occupants get `userGroupJoin` |
| Gateway.MessagingGateway.OnGroupLeave | src/gateway/gateway.ts:127-136 | as written: the client ends up in the group room it asked to leave |
| Gateway.MessagingGateway.OnGroupLeaveIntended | src/gateway/gateway.ts:127-136 | as intended: the client is out of the group room and the rest get `userGroupLeave` |
| Gateway.MessagingGateway.OnTypingStart | src/gateway/gateway.ts:138-144 | the conversation room's occupants other than the sender get `onTypingStart` |
| Gateway.MessagingGateway.OnTypingStop | src/gateway/gateway.ts:146-152 | the conversation room's occupants other than the sender get `onTypingStop` |
| Gateway.MessagingGateway.HandleMessageCreateEvent | src/gateway/gateway.ts:154-169 | appends exactly the `message.create` plan |
| Gateway.MessagingGateway.HandleConversationCreateEvent | src/gateway/gateway.ts:171-175 | appends exactly the `conversation.create` plan |
| Gateway.MessagingGateway.HandleMessageDelete | src/gateway/gateway.ts:177-189 | appends exactly the `message.delete` plan, nothing for an unresolved conversation |
| Gateway.MessagingGateway.HandleMessageUpdate | src/gateway/gateway.ts:191-202 | appends exactly the `message.update` plan |
| Gateway.MessagingGateway.HandleGroupMessageCreate | src/gateway/gateway.ts:204-208 | the group room's occupants get `onGroupMessage` |
| Gateway.MessagingGateway.HandleGroupMessageUpdate | src/gateway/gateway.ts:219-224 | the group room's occupants get `onGroupMessageUpdate` |
| Gateway.MessagingGateway.HandleGroupCreate | src/gateway/gateway.ts:210-217 | the member loop appends exactly the `group.create` plan; with distinct member ids, the invariant's injective registry makes it reach each online member's socket exactly once and no other socket |
| Gateway.MessagingGateway.HandleGroupUserAdd | src/gateway/gateway.ts:226-235 | appends the room announcement and then the direct notice to the added user |
| Gateway.MessagingGateway.HandleGroupUserRemove | src/gateway/gateway.ts:237-254 | moves the removed user's socket out of the room and appends the `group.user.remove` plan; keeps the invariant |
| Gateway.MessagingGateway.HandleGroupOwnerUpdate | src/gateway/gateway.ts:256-273 | as written: the broadcast is emitted, then the handler throws for an online owner and a missing room |
| Gateway.MessagingGateway.HandleGroupOwnerUpdateIntended | src/gateway/gateway.ts:256-273 | as intended: appends the plan in which each recipient hears once |
| Gateway.MessagingGateway.HandleGroupUserLeave | src/gateway/gateway.ts:275-311 | as written: emits nothing and throws whenever the room does not exist |
| Gateway.MessagingGateway.HandleGroupUserLeaveIntended | src/gateway/gateway.ts:282-300 | as intended: appends the plan in which the leaving user and each occupant hear once |
| GroupRecipients.AddRecipient | src/groups/services/group-recipient.service.ts:21-31 | fails in guard order: group not found, then unknown e-mail (400), then non-creator issuer (403), then already a member (400) |
| GroupRecipients.AddRecipientSucceeds | src/groups/services/group-recipient.service.ts:27-33 | the add succeeds exactly when every guard passes; the new list is the old one with the recipient appended |
| GroupRecipients.AddRecipientKeepsIdsDistinct | src/groups/services/group-recipient.service.ts:29-32 | a successful add never gives the member list a duplicate id |
| GroupRecipients.Without | src/groups/services/group-recipient.service.ts:54 | a member survives removal exactly when their id differs from the removed id |
| GroupRecipients.WithoutKeepsOrder | src/groups/services/group-recipient.service.ts:54 | removal keeps the remaining members in their original order |
| GroupRecipients.WithoutAbsentId | src/groups/services/group-recipient.service.ts:54 | removing an id that no member has leaves the list unchanged |
| GroupRecipients.WithoutKeepsIdsDistinct | src/groups/services/group-recipient.service.ts:54 | removal keeps member ids distinct |
| GroupRecipients.RemoveRecipient | src/groups/services/group-recipient.service.ts:42-55 | fails in guard order: group not found, then non-creator issuer, then the creator removing themself (400); on success no member has the removed id and every other member remains |
| GroupRecipients.RemoveRecipientKeepsCreator | src/groups/services/group-recipient.service.ts:49-54 | a successful removal never removes the creator |
| GroupRecipients.GroupRecipientService.constructor | src/groups/services/group-recipient.service.ts:15-20 | the service starts over a store of groups, each saved under its own id |
| GroupRecipients.GroupRecipientService.AddGroupRecipient | src/groups/services/group-recipient.service.ts:21-34 | saves the grown group under its id only on success; a failure saves nothing; member ids stay distinct |
| GroupRecipients.GroupRecipientService.RemoveGroupRecipient | src/groups/services/group-recipient.service.ts:42-56 | saves the filtered group under its id only on success; a failure saves nothing; member ids stay distinct |

## Left out

- The socket.io transport, the `@WebSocketGateway` CORS and ping settings, and the `console.log` calls are not modelled. The transport appears only through its room table and the `join`, `leave` and room-emit operations.
- The room socket.io gives each socket under its own id is not modelled. Room names are the datatype `RoomKey`, not formatted strings.
- The `createMessage` handler (src/gateway/gateway.ts:87-90) is a stub with no effect and is not modelled.
- The `onlineUsers` list computed at src/gateway/gateway.ts:250-252 is discarded, because its emit is commented out, so it is not modelled.
- Event payloads are forwarded unchanged (`Forwarded`), and their contents are not modelled. Handlers take the ids they read as parameters.
- The awaited lookups are given as input values, not as async calls. These are `findGroupById`, the conversation `findById`, `getFriends` and the e-mail lookup `findUser`. `parseInt(data.groupId)` is taken as already done.
- Interleaving between a suspended handler and a disconnect is not modelled. Each handler is one atomic step over the state at the moment it emits.
- The session manager's internals are not modelled. The registry is an abstract map with overwrite semantics.
- Several sockets per user are not modelled. A multi-device registry would keep a set of sockets per user, but the code registers and removes by user id, so the model keeps one socket per user.
- The `if (user)` test in the friends handler is not modelled as a branch. The model requires the requesting socket to be open, and an open socket always carries its authenticated user.
- An idempotent join, which would not repeat `userJoin` when the socket is already in the room, is not modelled. The code emits `userJoin` on every join, and the model follows the code.
- The persistence behind `saveGroup` and its errors are not modelled. The HTTP status codes of `GroupNotFoundException` and `NotGroupOwnerException` are not modelled either, because those classes are not part of this model. They appear as the failures `GroupNotFound` and `NotGroupOwner`.
- FanOut.MessageCreateReachesBothParties: states delivery counts only when the author is one of two distinct parties. In a conversation with oneself, the author's socket gets `onMessage` twice. `FanOut.MessageCreatePlan` shows this, but no lemma states it.

## Findings

| source | as written | input that shows it | evidently intended | confidence | as-written member | corrected member |
|---|---|---|---|---|---|---|
| src/gateway/gateway.ts:289-310 | the first test reads `socketsInRoom.has` only when `socketsInRoom` is undefined; the second calls `leftUserSocket.emit` only when `leftUserSocket` is undefined; the third repeats the first. So the handler throws whenever the room is missing and emits nothing otherwise | user 7 online on socket 70, group 3 with no room: TypeError, socket 70 hears nothing; with room {70, 80}: nobody hears anything | tell the leaving user directly if online and not in the room, and broadcast to the room if it has occupants (read from the comment at lines 282-286 together with the bodies of the unreachable branches at lines 291-300) | not executed | `FanOut.GroupUserLeaveAsWritten`, `FanOut.GroupUserLeaveCrashExample`, `Gateway.MessagingGateway.HandleGroupUserLeave` | `FanOut.GroupUserLeaveDeliversOnce`, `Gateway.MessagingGateway.HandleGroupUserLeaveIntended` |
| src/gateway/gateway.ts:269 | `socketsInRoom.has` is called when the room does not exist and the new owner is online | owner 5 online on socket 50, group 9 with no room: TypeError after the broadcast, socket 50 hears nothing | treat a missing room as empty, so the new owner gets the direct notice (comment at line 267) | not executed | `FanOut.GroupOwnerUpdateAsWritten`, `FanOut.GroupOwnerUpdateCrashExample`, `Gateway.MessagingGateway.HandleGroupOwnerUpdate` | `FanOut.GroupOwnerUpdateDeliversOnce`, `FanOut.GroupOwnerUpdateAsWrittenAgrees`, `Gateway.MessagingGateway.HandleGroupOwnerUpdateIntended` |
| src/gateway/gateway.ts:111, src/gateway/gateway.ts:133 | the leave handlers call `client.join` | socket 1 sends `onConversationLeave` for conversation 4: afterwards socket 1 is in `conversation-4` | `client.leave`, matching the handler names and the `userLeave`/`userGroupLeave` signals | not executed | `Gateway.MessagingGateway.OnConversationLeave`, `Gateway.MessagingGateway.OnGroupLeave` | `Gateway.MessagingGateway.OnConversationLeaveIntended`, `Gateway.MessagingGateway.OnGroupLeaveIntended`, `Rooms.LeaveUndoesJoin` |
