// The session registry: one live socket per user id. Registering a second
// socket for the same user overwrites the first, and removal is by user id
// alone, so it drops whatever socket is registered at that moment.

module Sessions {
  import opened Domain

  type Registry = map<UserId, SocketId>

  /** `getUserSocket`: the registered socket, or nothing when the user is offline. */
  function SocketOf(sessions: Registry, u: UserId): (r: Option<SocketId>)
    ensures r.Some? <==> u in sessions
    ensures r.Some? ==> sessions[u] == r.value
  {
    if u in sessions then Some(sessions[u]) else None
  }

  /** No socket is registered for two users. */
  ghost predicate Injective(sessions: Registry) {
    forall u, v :: u in sessions && v in sessions && sessions[u] == sessions[v] ==> u == v
  }

  /**
   * Every registered socket is open and was opened by the user it is
   * registered under (`owner` maps each open socket to its user).
   */
  ghost predicate Consistent(sessions: Registry, owner: map<SocketId, UserId>) {
    forall u :: u in sessions ==> sessions[u] in owner && owner[sessions[u]] == u
  }

  lemma ConsistentIsInjective(sessions: Registry, owner: map<SocketId, UserId>)
    requires Consistent(sessions, owner)
    ensures Injective(sessions)
  {
    forall u, v | u in sessions && v in sessions && sessions[u] == sessions[v]
      ensures u == v
    {
      assert owner[sessions[u]] == u && owner[sessions[v]] == v;
    }
  }

  /** `setUserSocket`: the user now maps to the new socket, nobody else changes. */
  function Register(sessions: Registry, u: UserId, s: SocketId): (r: Registry)
    ensures SocketOf(r, u) == Some(s)
    ensures forall v :: v != u ==> SocketOf(r, v) == SocketOf(sessions, v)
  {
    sessions[u := s]
  }

  /** `removeUserSocket`: the user is offline afterwards, nobody else changes. */
  function Deregister(sessions: Registry, u: UserId): (r: Registry)
    ensures SocketOf(r, u) == None
    ensures forall v :: v != u ==> SocketOf(r, v) == SocketOf(sessions, v)
  {
    sessions - {u}
  }

  /**
   * Opening a fresh socket keeps the registry consistent with the open
   * sockets, even when it displaces the user's earlier socket.
   */
  lemma RegisterKeepsConsistent(sessions: Registry, owner: map<SocketId, UserId>, u: UserId, s: SocketId)
    requires Consistent(sessions, owner) && s !in owner
    ensures Consistent(Register(sessions, u, s), owner[s := u])
  {
  }

  /**
   * Closing socket `s` of user `owner[s]` and removing that user's registry
   * entry keeps the registry consistent: no other user was registered under `s`.
   */
  lemma DeregisterKeepsConsistent(sessions: Registry, owner: map<SocketId, UserId>, s: SocketId)
    requires Consistent(sessions, owner) && s in owner
    ensures Consistent(Deregister(sessions, owner[s]), owner - {s})
  {
    var r := Deregister(sessions, owner[s]);
    forall v | v in r
      ensures r[v] in owner - {s} && (owner - {s})[r[v]] == v
    {
      assert v != owner[s] && sessions[v] == r[v];
      assert owner[sessions[v]] == v;
    }
  }

  /**
   * With overwrite semantics a user who opened socket `s` and later `t`
   * is reported offline once `s` closes, although `t` is still open.
   */
  lemma StaleDisconnectDropsNewerSocket(sessions: Registry, owner: map<SocketId, UserId>, s: SocketId, t: SocketId)
    requires Consistent(sessions, owner) && s in owner && s != t
    requires SocketOf(sessions, owner[s]) == Some(t)
    ensures t in owner - {s} && owner[t] == owner[s]
    ensures SocketOf(Deregister(sessions, owner[s]), owner[s]) == None
  {
  }
}
