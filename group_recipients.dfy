// Adding and removing group recipients. The guard chain and the new member
// list are functions of the looked-up group; the service then overwrites the
// group's member list and saves the group in the store.

module GroupRecipients {
  import opened Domain

  const BAD_REQUEST := 400
  const FORBIDDEN := 403

  datatype Failure =
    | GroupNotFound
    | NotGroupOwner
    | Http(status: int, message: string)

  datatype Result<T> = Ok(value: T) | Err(failure: Failure)

  /**
   * The guard chain of `addGroupRecipient`, in its order: the group must
   * exist, the e-mail must name a user, the issuer must be the creator, and
   * the user must not be a member yet; then the user is appended.
   */
  function AddRecipient(group: Option<Group>, recipient: Option<User>, issuerId: UserId): (r: Result<Group>)
    ensures group.None? ==> r == Err(GroupNotFound)
    ensures group.Some? && recipient.None? ==> r == Err(Http(BAD_REQUEST, "Cannot Add User"))
    ensures group.Some? && recipient.Some? && group.value.creator.id != issuerId
            ==> r == Err(Http(FORBIDDEN, "Insufficient Permissions"))
    ensures group.Some? && recipient.Some? && group.value.creator.id == issuerId
            && HasMember(group.value.users, recipient.value.id)
            ==> r == Err(Http(BAD_REQUEST, "User already in group"))
  {
    match group
    case None => Err(GroupNotFound)
    case Some(g) =>
      match recipient
      case None => Err(Http(BAD_REQUEST, "Cannot Add User"))
      case Some(u) =>
        if g.creator.id != issuerId then Err(Http(FORBIDDEN, "Insufficient Permissions"))
        else if HasMember(g.users, u.id) then Err(Http(BAD_REQUEST, "User already in group"))
        else Ok(g.(users := g.users + [u]))
  }

  /**
   * A successful add: exactly when every guard passes, and the result is the
   * same group whose member list grew by the recipient at the end, earlier
   * members keeping their places.
   */
  lemma AddRecipientSucceeds(group: Option<Group>, recipient: Option<User>, issuerId: UserId)
    ensures AddRecipient(group, recipient, issuerId).Ok?
        <==> group.Some? && recipient.Some? && group.value.creator.id == issuerId
             && !HasMember(group.value.users, recipient.value.id)
    ensures AddRecipient(group, recipient, issuerId).Ok? ==>
      var before, after := group.value, AddRecipient(group, recipient, issuerId).value;
      && after.id == before.id && after.creator == before.creator && after.owner == before.owner
      && |after.users| == |before.users| + 1
      && after.users[..|before.users|] == before.users
      && after.users[|before.users|] == recipient.value
  {
  }

  /** A successful add never gives the member list a second entry for one id. */
  lemma AddRecipientKeepsIdsDistinct(g: Group, recipient: Option<User>, issuerId: UserId)
    requires DistinctIds(g.users)
    requires AddRecipient(Some(g), recipient, issuerId).Ok?
    ensures DistinctIds(AddRecipient(Some(g), recipient, issuerId).value.users)
  {
    var users := AddRecipient(Some(g), recipient, issuerId).value.users;
    var n := |g.users|;
    forall i, j | 0 <= i < j < |users| ensures users[i].id != users[j].id {
      if j == n {
        assert users[i] == g.users[i];
        assert !HasMember(g.users, recipient.value.id);
      } else {
        assert users[i] == g.users[i] && users[j] == g.users[j];
      }
    }
  }

  /** The member list without the entries that carry the given id, in order. */
  function Without(users: seq<User>, id: UserId): (r: seq<User>)
    ensures |r| <= |users|
    ensures forall u :: u in r <==> u in users && u.id != id
  {
    if users == [] then []
    else (if users[0].id != id then [users[0]] else []) + Without(users[1..], id)
  }

  /** Removal keeps member order: it works part by part on a concatenation. */
  lemma {:induction false} WithoutKeepsOrder(a: seq<User>, b: seq<User>, id: UserId)
    ensures Without(a + b, id) == Without(a, id) + Without(b, id)
  {
    if a == [] {
      assert a + b == b;
    } else {
      assert (a + b)[1..] == a[1..] + b;
      WithoutKeepsOrder(a[1..], b, id);
    }
  }

  /** Removing an id nobody has leaves the member list as it was. */
  lemma {:induction false} WithoutAbsentId(users: seq<User>, id: UserId)
    requires !HasMember(users, id)
    ensures Without(users, id) == users
  {
    if users != [] {
      assert !HasMember(users[1..], id) by {
        forall i | 0 <= i < |users[1..]| ensures users[1..][i].id != id {
          assert users[1..][i] == users[i + 1];
        }
      }
      WithoutAbsentId(users[1..], id);
      assert users[0].id != id;
      assert Without(users, id) == [users[0]] + Without(users[1..], id);
      assert users == [users[0]] + users[1..];
    }
  }

  /** Removal keeps the member ids distinct. */
  lemma {:induction false} WithoutKeepsIdsDistinct(users: seq<User>, id: UserId)
    requires DistinctIds(users)
    ensures DistinctIds(Without(users, id))
  {
    if users != [] {
      var rest := users[1..];
      assert DistinctIds(rest) by {
        forall i, j | 0 <= i < j < |rest| ensures rest[i].id != rest[j].id {
          assert rest[i] == users[i + 1] && rest[j] == users[j + 1];
        }
      }
      WithoutKeepsIdsDistinct(rest, id);
      if users[0].id != id {
        var tail := Without(rest, id);
        forall k | 0 <= k < |tail| ensures tail[k].id != users[0].id {
          assert tail[k] in rest;
          var m :| 0 <= m < |rest| && rest[m] == tail[k];
          assert rest[m] == users[m + 1];
        }
        assert Without(users, id) == [users[0]] + tail;
      }
    }
  }

  /**
   * The guard chain of `removeGroupRecipient`, in its order: the group must
   * exist, the issuer must be the creator, and the creator may not remove
   * themself; then every entry with the removed id is filtered out.
   */
  function RemoveRecipient(group: Option<Group>, issuerId: UserId, removeUserId: UserId): (r: Result<Group>)
    ensures group.None? ==> r == Err(GroupNotFound)
    ensures group.Some? && group.value.creator.id != issuerId ==> r == Err(NotGroupOwner)
    ensures group.Some? && group.value.creator.id == issuerId && issuerId == removeUserId
            ==> r == Err(Http(BAD_REQUEST, "Cannot remove yourself as ownner"))
    ensures r.Ok? <==> group.Some? && group.value.creator.id == issuerId && removeUserId != issuerId
    ensures r.Ok? ==> !HasMember(r.value.users, removeUserId)
    ensures r.Ok? ==> forall u :: u in r.value.users <==> u in group.value.users && u.id != removeUserId
  {
    match group
    case None => Err(GroupNotFound)
    case Some(g) =>
      if g.creator.id != issuerId then Err(NotGroupOwner)
      else if g.creator.id == removeUserId then Err(Http(BAD_REQUEST, "Cannot remove yourself as ownner"))
      else
        var users := Without(g.users, removeUserId);
        assert forall i :: 0 <= i < |users| ==> users[i] in users;
        Ok(g.(users := users))
  }

  /** The creator, once a member, stays a member through every successful removal. */
  lemma RemoveRecipientKeepsCreator(g: Group, issuerId: UserId, removeUserId: UserId)
    requires g.creator in g.users
    requires RemoveRecipient(Some(g), issuerId, removeUserId).Ok?
    ensures g.creator in RemoveRecipient(Some(g), issuerId, removeUserId).value.users
  {
  }

  function FindGroup(groups: map<int, Group>, id: int): Option<Group> {
    if id in groups then Some(groups[id]) else None
  }

  /**
   * The recipient service over the store of saved groups. A successful call
   * replaces the group's member list and saves it; a failing one saves nothing.
   */
  class GroupRecipientService {
    var groups: map<int, Group>

    /** Each group is saved under its own id, with distinct member ids. */
    ghost predicate Valid()
      reads this
    {
      forall id :: id in groups ==> groups[id].id == id && DistinctIds(groups[id].users)
    }

    constructor (saved: map<int, Group>)
      requires forall id :: id in saved ==> saved[id].id == id && DistinctIds(saved[id].users)
      ensures Valid() && groups == saved
    {
      groups := saved;
    }

    /**
     * `addGroupRecipient`: `recipient` is the result of looking the e-mail up;
     * `issuerId` is the user making the request.
     */
    method AddGroupRecipient(id: int, recipient: Option<User>, issuerId: UserId) returns (r: Result<Group>)
      requires Valid()
      modifies this
      ensures Valid()
      ensures r == AddRecipient(FindGroup(old(groups), id), recipient, issuerId)
      ensures groups == if r.Ok? then old(groups)[id := r.value] else old(groups)
    {
      var group := FindGroup(groups, id);
      r := AddRecipient(group, recipient, issuerId);
      if r.Ok? {
        AddRecipientKeepsIdsDistinct(group.value, recipient, issuerId);
        groups := groups[id := r.value];
      }
    }

    /** `removeGroupRecipient` */
    method RemoveGroupRecipient(id: int, issuerId: UserId, removeUserId: UserId) returns (r: Result<Group>)
      requires Valid()
      modifies this
      ensures Valid()
      ensures r == RemoveRecipient(FindGroup(old(groups), id), issuerId, removeUserId)
      ensures groups == if r.Ok? then old(groups)[id := r.value] else old(groups)
    {
      var group := FindGroup(groups, id);
      r := RemoveRecipient(group, issuerId, removeUserId);
      if r.Ok? {
        WithoutKeepsIdsDistinct(group.value.users, removeUserId);
        groups := groups[id := r.value];
      }
    }
  }
}
