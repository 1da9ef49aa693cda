// Presence queries: which members of a group, and which friends of a user,
// currently have a socket in the session registry.

module Presence {
  import opened Domain
  import opened Sessions

  /** The members with a registered socket, in member-list order. */
  function OnlineUsers(users: seq<User>, sessions: Registry): seq<User> {
    if users == [] then []
    else
      var last := users[|users| - 1];
      OnlineUsers(users[..|users| - 1], sessions) + (if last.id in sessions then [last] else [])
  }

  /** The members without a registered socket, in member-list order. */
  function OfflineUsers(users: seq<User>, sessions: Registry): seq<User> {
    if users == [] then []
    else
      var last := users[|users| - 1];
      OfflineUsers(users[..|users| - 1], sessions) + (if last.id in sessions then [] else [last])
  }

  /**
   * A member is listed online exactly when they are in the group and have a
   * registered socket, and offline exactly when they are in the group and
   * have none.
   */
  lemma {:induction false} PresenceMembership(users: seq<User>, sessions: Registry, u: User)
    ensures u in OnlineUsers(users, sessions) <==> u in users && u.id in sessions
    ensures u in OfflineUsers(users, sessions) <==> u in users && u.id !in sessions
  {
    if users != [] {
      var init, last := users[..|users| - 1], users[|users| - 1];
      assert users == init + [last];
      PresenceMembership(init, sessions, u);
      if last.id in sessions {
        assert OnlineUsers(users, sessions) == OnlineUsers(init, sessions) + [last];
        assert OfflineUsers(users, sessions) == OfflineUsers(init, sessions);
      } else {
        assert OnlineUsers(users, sessions) == OnlineUsers(init, sessions);
        assert OfflineUsers(users, sessions) == OfflineUsers(init, sessions) + [last];
      }
    }
  }

  /**
   * The two lists split the member list: every entry lands in exactly one of
   * them, counted with multiplicity.
   */
  lemma {:induction false} PresencePartition(users: seq<User>, sessions: Registry)
    ensures multiset(OnlineUsers(users, sessions)) + multiset(OfflineUsers(users, sessions)) == multiset(users)
    ensures |OnlineUsers(users, sessions)| + |OfflineUsers(users, sessions)| == |users|
  {
    if users != [] {
      var init, last := users[..|users| - 1], users[|users| - 1];
      PresencePartition(init, sessions);
      assert users == init + [last];
      assert multiset(users) == multiset(init) + multiset{last};
      var on, off := OnlineUsers(init, sessions), OfflineUsers(init, sessions);
      if last.id in sessions {
        assert OnlineUsers(users, sessions) == on + [last];
        assert multiset(on + [last]) == multiset(on) + multiset{last};
        assert OfflineUsers(users, sessions) == off;
      } else {
        assert OnlineUsers(users, sessions) == on;
        assert OfflineUsers(users, sessions) == off + [last];
        assert multiset(off + [last]) == multiset(off) + multiset{last};
      }
    }
  }

  /**
   * The online list keeps member order: the online members of a
   * concatenation are those of the first part followed by those of the second.
   */
  lemma {:induction false} OnlineKeepsOrder(a: seq<User>, b: seq<User>, sessions: Registry)
    ensures OnlineUsers(a + b, sessions) == OnlineUsers(a, sessions) + OnlineUsers(b, sessions)
    decreases |b|
  {
    if b == [] {
      assert a + b == a;
    } else {
      var init, last := b[..|b| - 1], b[|b| - 1];
      assert (a + b)[..|a + b| - 1] == a + init;
      assert (a + b)[|a + b| - 1] == last;
      OnlineKeepsOrder(a, init, sessions);
      var tail := if last.id in sessions then [last] else [];
      assert OnlineUsers(a + b, sessions) == OnlineUsers(a + init, sessions) + tail;
      assert OnlineUsers(b, sessions) == OnlineUsers(init, sessions) + tail;
    }
  }

  /** The offline list keeps member order in the same way. */
  lemma {:induction false} OfflineKeepsOrder(a: seq<User>, b: seq<User>, sessions: Registry)
    ensures OfflineUsers(a + b, sessions) == OfflineUsers(a, sessions) + OfflineUsers(b, sessions)
    decreases |b|
  {
    if b == [] {
      assert a + b == a;
    } else {
      var init, last := b[..|b| - 1], b[|b| - 1];
      assert (a + b)[..|a + b| - 1] == a + init;
      assert (a + b)[|a + b| - 1] == last;
      OfflineKeepsOrder(a, init, sessions);
      var tail := if last.id in sessions then [] else [last];
      assert OfflineUsers(a + b, sessions) == OfflineUsers(a + init, sessions) + tail;
      assert OfflineUsers(b, sessions) == OfflineUsers(init, sessions) + tail;
    }
  }

  /** The other party of a friendship, seen from user `me`. */
  function FriendOf(f: Friendship, me: UserId): (other: UserId)
    ensures me == f.receiver.id ==> other == f.sender.id
    ensures me == f.sender.id && me != f.receiver.id ==> other == f.receiver.id
  {
    if me == f.receiver.id then f.sender.id else f.receiver.id
  }

  /** The friendships whose other party has a registered socket, in order. */
  function OnlineFriends(friends: seq<Friendship>, me: UserId, sessions: Registry): (online: seq<Friendship>)
    ensures |online| <= |friends|
    ensures forall f :: f in online <==> f in friends && FriendOf(f, me) in sessions
  {
    if friends == [] then []
    else
      (if FriendOf(friends[0], me) in sessions then [friends[0]] else [])
      + OnlineFriends(friends[1..], me, sessions)
  }

  lemma {:induction false} OnlineFriendsKeepsOrder(a: seq<Friendship>, b: seq<Friendship>, me: UserId, sessions: Registry)
    ensures OnlineFriends(a + b, me, sessions) == OnlineFriends(a, me, sessions) + OnlineFriends(b, me, sessions)
  {
    if a == [] {
      assert a + b == b;
    } else {
      assert (a + b)[1..] == a[1..] + b;
      OnlineFriendsKeepsOrder(a[1..], b, me, sessions);
    }
  }

  /**
   * A user with one online friend and one offline friend is told about
   * exactly the online one, whichever side of each friendship they are on.
   */
  lemma OnlineFriendsExample()
    ensures
      var me := User(1, "u1@example.com");
      var f1 := Friendship(me, User(2, "f1@example.com"));
      var f2 := Friendship(User(3, "f2@example.com"), me);
      OnlineFriends([f1, f2], 1, map[2 := 20]) == [f1]
  {
  }
}
