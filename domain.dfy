// Domain records the gateway and the group services read: users, two-party
// conversations, messages, groups and friendships, plus the room keys under
// which the real-time transport groups sockets.

module Domain {

  type UserId = int
  type SocketId = int

  datatype Option<T> = None | Some(value: T)

  datatype User = User(id: UserId, email: string)

  /** A two-party conversation: the user who opened it and the other party. */
  datatype Conversation = Conversation(id: int, creator: User, recipient: User)

  datatype Message = Message(id: int, author: User, conversation: Conversation)

  /** A group as the data layer returns it: creator and owner are separate fields. */
  datatype Group = Group(id: int, creator: User, owner: User, users: seq<User>)

  datatype Friendship = Friendship(sender: User, receiver: User)

  /**
   * The transport's room names `conversation-{id}` and `group-{id}`. The two
   * prefixes never collide, which the two constructors make structural.
   */
  datatype RoomKey = ConversationRoom(conversationId: int) | GroupRoom(groupId: int)

  /** How a handler ended: normally, or by a JavaScript TypeError. */
  datatype Outcome = Done | Crashed(error: string)

  predicate IsParty(c: Conversation, u: UserId) {
    u == c.creator.id || u == c.recipient.id
  }

  /** No two entries of a member list share a user id. */
  ghost predicate DistinctIds(users: seq<User>) {
    forall i, j :: 0 <= i < j < |users| ==> users[i].id != users[j].id
  }

  /** Some entry of the member list has the given id (`users.find(u => u.id === id)`). */
  predicate HasMember(users: seq<User>, id: UserId) {
    exists i :: 0 <= i < |users| && users[i].id == id
  }
}
