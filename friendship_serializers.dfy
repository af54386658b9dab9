/// The friendship serializers (backend/apps/friendships/serializers.py): the
/// send-request validator, the respond action choice, and the two computed
/// fields of the friend list.
module FriendshipSerializers {
  import opened Common
  import opened FriendshipModels

  // ---------------------------------------------------------------------
  // SendFriendRequestSerializer
  // ---------------------------------------------------------------------

  /** Why a friend request is refused. */
  datatype RequestError =
    | UnknownUser     // `validate_user_id`: no user has that id
    | SelfRequest     // the caller asked to befriend themselves
    | AlreadyPending  // a pending row links the two users
    | AlreadyFriends  // an accepted row links the two users
    | CannotRequest   // a blocked row links the two users
    | MultipleEdges   // `get_friendship` raised MultipleObjectsReturned

  /** A user with this id exists (`User.objects.get(id=value)` succeeds). */
  predicate UserExists(users: set<UserId>, userId: int)
  {
    0 <= userId && userId as nat in users
  }

  /**
   * `validate_user_id` followed by `validate`: resolves the target user,
   * refuses the caller, then refuses any existing row between the two that
   * is pending, accepted or blocked. A declined row matches none of the
   * branches, so it lets the request through. On success the resolved
   * target is what the view reads back from the validated data.
   */
  function ValidateSendRequest(users: set<UserId>, rows: Edges, caller: UserId, userId: int): (r: Result<UserId, RequestError>)
    ensures r == Err(UnknownUser) <==> !UserExists(users, userId)
    ensures r == Err(SelfRequest) <==> UserExists(users, userId) && userId == caller
    ensures r == Err(MultipleEdges) <==>
      UserExists(users, userId) && userId != caller && GetFriendship(rows, caller, userId as nat).Ambiguous?
    ensures r.Ok? <==>
      && UserExists(users, userId) && userId != caller
      && !GetFriendship(rows, caller, userId as nat).Ambiguous?
      && forall id :: id in rows && Between(rows[id], caller, userId as nat) ==> rows[id].status == Declined
    ensures r.Ok? ==> r.value == userId
    ensures r == Err(AlreadyPending) ==>
      exists id :: id in rows && Between(rows[id], caller, userId as nat) && rows[id].status == Pending
    ensures r == Err(AlreadyFriends) ==> AreFriends(rows, caller, userId as nat)
    ensures r == Err(CannotRequest) ==>
      exists id :: id in rows && Between(rows[id], caller, userId as nat) && rows[id].status == Blocked
  {
    if !UserExists(users, userId) then Err(UnknownUser)
    else
      var target := userId as nat;
      if target == caller then Err(SelfRequest)
      else
        match GetFriendship(rows, caller, target)
        case Absent => Ok(target)
        case Ambiguous => Err(MultipleEdges)
        case Unique(id) =>
          match rows[id].status
          case Pending => Err(AlreadyPending)
          case Accepted => Err(AlreadyFriends)
          case Blocked => Err(CannotRequest)
          case Declined => Ok(target)
  }

  /** A request is refused whenever the two users are already friends. */
  lemma FriendsCannotRequest(users: set<UserId>, rows: Edges, caller: UserId, target: UserId)
    requires AreFriends(rows, caller, target)
    ensures ValidateSendRequest(users, rows, caller, target).Err?
  {
    var id :| id in rows && rows[id].status == Accepted && Between(rows[id], caller, target);
  }

  /** With no row between the two, any other existing user can be asked. */
  lemma FreshPairCanRequest(users: set<UserId>, rows: Edges, caller: UserId, target: UserId)
    requires target in users && target != caller
    requires forall id :: id in rows ==> !Between(rows[id], caller, target)
    ensures ValidateSendRequest(users, rows, caller, target) == Ok(target)
  {
  }

  // ---------------------------------------------------------------------
  // FriendRequestResponseSerializer
  // ---------------------------------------------------------------------

  datatype ResponseAction = Accept | Decline

  function ActionName(a: ResponseAction): string
  {
    match a
    case Accept => "accept"
    case Decline => "decline"
  }

  /**
   * The `action` choice field: a missing field or any string other than the
   * two choice names is a validation error.
   */
  function ParseAction(action: Option<string>): (r: Option<ResponseAction>)
    ensures r.Some? <==> action == Some("accept") || action == Some("decline")
  {
    match action
    case None => None
    case Some(s) =>
      if s == "accept" then Some(Accept)
      else if s == "decline" then Some(Decline)
      else None
  }

  /** The choice names and the actions correspond one to one. */
  lemma ParseActionRoundTrip(action: Option<string>, a: ResponseAction)
    ensures ParseAction(action) == Some(a) <==> action == Some(ActionName(a))
  {
  }

  // ---------------------------------------------------------------------
  // FriendListSerializer
  // ---------------------------------------------------------------------

  /** `get_mutual_friends_count`: how many users are friends of both. */
  function MutualFriendsCount(rows: Edges, caller: UserId, other: UserId): (n: nat)
    ensures n <= |Friends(rows, caller)| && n <= |Friends(rows, other)|
    ensures n == 0 <==> forall v :: !(AreFriends(rows, caller, v) && AreFriends(rows, other, v))
  {
    var m := MutualFriends(rows, caller, other);
    SubsetCard(m, Friends(rows, caller));
    SubsetCard(m, Friends(rows, other));
    assert m == {} <==> forall v :: !(AreFriends(rows, caller, v) && AreFriends(rows, other, v)) by {
      if m != {} {
        var v :| v in m;
      }
    }
    |m|
  }

  lemma MutualFriendsCountSymmetric(rows: Edges, a: UserId, b: UserId)
    ensures MutualFriendsCount(rows, a, b) == MutualFriendsCount(rows, b, a)
  {
    MutualFriendsSymmetric(rows, a, b);
  }

  /**
   * `get_friendship_date`: the last-save stamp of the row between the two
   * when that row is accepted, nothing otherwise. Two rows between them make
   * `get_friendship` raise.
   */
  function FriendshipDate(rows: Edges, caller: UserId, other: UserId): (r: Result<Option<nat>, Error>)
    ensures r.Err? <==> GetFriendship(rows, caller, other).Ambiguous?
    ensures r.Err? ==> r.error == ServerError
    ensures r.Ok? ==> (r.value.Some? <==> AreFriends(rows, caller, other))
    ensures r.Ok? && r.value.Some? ==>
      exists id :: id in rows && Between(rows[id], caller, other) && rows[id].status == Accepted
        && rows[id].updatedAt == r.value.value
  {
    match GetFriendship(rows, caller, other)
    case Absent => Ok(None)
    case Ambiguous => Err(ServerError)
    case Unique(id) => if rows[id].status == Accepted then Ok(Some(rows[id].updatedAt)) else Ok(None)
  }
}
