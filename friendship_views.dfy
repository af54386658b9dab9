/// The friendship handlers (backend/apps/friendships/views.py): each one
/// reads or rewrites the edge table and reports an error kind on failure.
/// Users are given as the set of existing ids; the caller is authenticated.
module FriendshipViews {
  import opened Common
  import opened FriendshipModels
  import opened FriendshipSerializers

  // ---------------------------------------------------------------------
  // send_request
  // ---------------------------------------------------------------------

  /**
   * `send_request`: validate, then insert a pending row from the caller to
   * the target. A validation failure is a 400, except the lookup that
   * raises. The insert can still hit the ordered-pair constraint when a
   * declined row from the caller to the target exists.
   */
  method SendRequest(t: FriendshipTable, users: set<UserId>, caller: UserId, userId: int, now: nat)
    returns (r: Result<nat, Error>)
    requires t.Valid()
    modifies t
    ensures t.Valid()
    ensures r.Ok? <==>
      ValidateSendRequest(users, old(t.rows), caller, userId).Ok? && !HasOrderedPair(old(t.rows), caller, userId as nat)
    ensures r == Err(BadRequest) <==>
      ValidateSendRequest(users, old(t.rows), caller, userId).Err? &&
      ValidateSendRequest(users, old(t.rows), caller, userId).error != MultipleEdges
    // Every other failure (two rows between the pair, or a taken ordered pair) is a 500.
    ensures r.Err? && r.error != BadRequest ==> r.error == ServerError
    ensures r.Err? ==> t.rows == old(t.rows)
    ensures r.Ok? ==> (r.value !in old(t.rows) &&
      t.rows == old(t.rows)[r.value := Friendship(caller, userId as nat, Pending, now)])
  {
    var v := ValidateSendRequest(users, t.rows, caller, userId);
    if v.Err? {
      return if v.error == MultipleEdges then Err(ServerError) else Err(BadRequest);
    }
    var c := t.Create(caller, v.value, Pending, now);
    if c.Err? {
      return Err(ServerError);
    }
    r := Ok(c.value);
  }

  /** With no earlier row between the pair, a sent request keeps one row per pair. */
  lemma SendKeepsPairsUnique(rows: Edges, newId: nat, caller: UserId, target: UserId, now: nat)
    requires UniqueUnorderedPairs(rows) && newId !in rows
    requires GetFriendship(rows, caller, target).Absent?
    ensures UniqueUnorderedPairs(rows[newId := Friendship(caller, target, Pending, now)])
  {
  }

  /**
   * A declined row from `b` to `a` lets `a` send a request to `b`; the new
   * row sits beside the old one, and from then on `get_friendship` for the
   * pair raises.
   */
  lemma DeclinedAllowsSecondEdge(users: set<UserId>, a: UserId, b: UserId, now: nat)
    requires a != b && b in users
    ensures var rows := map[1 := Friendship(b, a, Declined, now)];
      && ValidateSendRequest(users, rows, a, b) == Ok(b)
      && !HasOrderedPair(rows, a, b)
      && GetFriendship(rows[2 := Friendship(a, b, Pending, now)], a, b).Ambiguous?
  {
    var rows := map[1 := Friendship(b, a, Declined, now)];
    assert EdgesBetween(rows, a, b) == {1};
    var after := rows[2 := Friendship(a, b, Pending, now)];
    assert Between(after[1], a, b) && Between(after[2], a, b);
  }

  // ---------------------------------------------------------------------
  // respond
  // ---------------------------------------------------------------------

  /** The row `respond` may act on: pending, and addressed to the caller. */
  predicate Respondable(rows: Edges, caller: UserId, pk: nat)
  {
    pk in rows && rows[pk].addressee == caller && rows[pk].status == Pending
  }

  /**
   * `respond`: the row lookup comes first (404), then the action field
   * (400); accept sets the status to accepted, decline to declined, and the
   * save stamps `updated_at`.
   */
  method Respond(t: FriendshipTable, caller: UserId, pk: nat, action: Option<string>, now: nat)
    returns (r: Result<nat, Error>)
    requires t.Valid()
    modifies t`rows
    ensures t.Valid()
    ensures r == Err(NotFound) <==> !Respondable(old(t.rows), caller, pk)
    ensures r == Err(BadRequest) <==> Respondable(old(t.rows), caller, pk) && ParseAction(action).None?
    ensures r.Ok? <==> Respondable(old(t.rows), caller, pk) && ParseAction(action).Some?
    ensures r.Err? ==> t.rows == old(t.rows)
    ensures r.Ok? ==> r.value == pk && t.rows == old(t.rows)[pk := old(t.rows)[pk].(
      status := if ParseAction(action) == Some(Accept) then Accepted else Declined, updatedAt := now)]
  {
    if !Respondable(t.rows, caller, pk) {
      return Err(NotFound);
    }
    var a := ParseAction(action);
    if a.None? {
      return Err(BadRequest);
    }
    var e := t.rows[pk];
    var status := if a.value == Accept then Accepted else Declined;
    var s := t.Save(pk, e.requester, e.addressee, status, now);
    assert s.Ok?;
    r := Ok(pk);
  }

  /** Accepting a request makes its two users friends. */
  lemma AcceptMakesFriends(rows: Edges, pk: nat, now: nat)
    requires pk in rows
    ensures var e := rows[pk];
      AreFriends(rows[pk := e.(status := Accepted, updatedAt := now)], e.requester, e.addressee)
  {
    var after := rows[pk := rows[pk].(status := Accepted, updatedAt := now)];
    assert after[pk].status == Accepted && Between(after[pk], rows[pk].requester, rows[pk].addressee);
  }

  /**
   * Declining a request, where it was the only row between the two, leaves
   * them not friends and lets either ask again.
   */
  lemma DeclineLeavesStrangers(users: set<UserId>, rows: Edges, pk: nat, now: nat)
    requires pk in rows && rows[pk].requester != rows[pk].addressee
    requires rows[pk].requester in users
    requires GetFriendship(rows, rows[pk].addressee, rows[pk].requester) == Unique(pk)
    ensures var e := rows[pk];
      var after := rows[pk := e.(status := Declined, updatedAt := now)];
      && !AreFriends(after, e.requester, e.addressee)
      && ValidateSendRequest(users, after, e.addressee, e.requester) == Ok(e.requester)
  {
    var e := rows[pk];
    var after := rows[pk := e.(status := Declined, updatedAt := now)];
    assert forall id :: id in after && Between(after[id], e.addressee, e.requester) ==> id == pk;
    assert GetFriendship(after, e.addressee, e.requester) == Unique(pk);
  }

  // ---------------------------------------------------------------------
  // received_requests, sent_requests
  // ---------------------------------------------------------------------

  /** `received_requests`: the pending rows addressed to the caller, newest first. */
  method ReceivedRequests(rows: Edges, caller: UserId) returns (ids: seq<nat>)
    ensures forall id :: id in ids <==> id in rows && rows[id].addressee == caller && rows[id].status == Pending
    ensures Descending(ids)
  {
    ids := NewestFirst(set id | id in rows && rows[id].addressee == caller && rows[id].status == Pending);
  }

  /** `sent_requests`: the pending rows the caller sent, newest first. */
  method SentRequests(rows: Edges, caller: UserId) returns (ids: seq<nat>)
    ensures forall id :: id in ids <==> id in rows && rows[id].requester == caller && rows[id].status == Pending
    ensures Descending(ids)
  {
    ids := NewestFirst(set id | id in rows && rows[id].requester == caller && rows[id].status == Pending);
  }

  // ---------------------------------------------------------------------
  // unfriend
  // ---------------------------------------------------------------------

  /**
   * `unfriend`: the other user must exist (404); the row between the two
   * must exist and be accepted (400); then it is deleted.
   */
  method Unfriend(t: FriendshipTable, users: set<UserId>, caller: UserId, pk: nat) returns (r: Result<nat, Error>)
    requires t.Valid()
    modifies t`rows
    ensures t.Valid()
    ensures r == Err(NotFound) <==> pk !in users
    ensures r.Ok? <==> (pk in users && GetFriendship(old(t.rows), caller, pk).Unique? &&
      old(t.rows)[GetFriendship(old(t.rows), caller, pk).id].status == Accepted)
    ensures r == Err(ServerError) <==> pk in users && GetFriendship(old(t.rows), caller, pk).Ambiguous?
    ensures r == Err(BadRequest) <==>
      (pk in users && (GetFriendship(old(t.rows), caller, pk).Absent? ||
        (GetFriendship(old(t.rows), caller, pk).Unique? &&
         old(t.rows)[GetFriendship(old(t.rows), caller, pk).id].status != Accepted)))
    ensures r.Err? ==> t.rows == old(t.rows)
    ensures r.Ok? ==> GetFriendship(old(t.rows), caller, pk) == Unique(r.value) && t.rows == old(t.rows) - {r.value}
    ensures r.Ok? ==> !AreFriends(t.rows, caller, pk)
  {
    if pk !in users {
      return Err(NotFound);
    }
    var f := GetFriendship(t.rows, caller, pk);
    if f.Ambiguous? {
      return Err(ServerError);
    }
    if f.Absent? || t.rows[f.id].status != Accepted {
      return Err(BadRequest);
    }
    t.Delete(f.id);
    UnfriendEndsFriendship(old(t.rows), caller, pk, f.id);
    r := Ok(f.id);
  }

  /** Deleting the one row between two users leaves no row between them. */
  lemma UnfriendEndsFriendship(rows: Edges, a: UserId, b: UserId, id: nat)
    requires GetFriendship(rows, a, b) == Unique(id)
    ensures !AreFriends(rows - {id}, a, b)
    ensures GetFriendship(rows - {id}, a, b).Absent?
  {
    assert forall j :: j in rows - {id} ==> !Between((rows - {id})[j], a, b);
  }

  // ---------------------------------------------------------------------
  // block, unblock
  // ---------------------------------------------------------------------

  /**
   * `block`: the target must exist (404) and differ from the caller (400).
   * An existing row between the two is rewritten to caller -> target,
   * blocked; otherwise such a row is created.
   */
  method Block(t: FriendshipTable, users: set<UserId>, caller: UserId, pk: nat, now: nat) returns (r: Result<nat, Error>)
    requires t.Valid()
    modifies t
    ensures t.Valid()
    ensures r == Err(NotFound) <==> pk !in users
    ensures r == Err(BadRequest) <==> pk in users && pk == caller
    ensures r == Err(ServerError) <==> pk in users && pk != caller && GetFriendship(old(t.rows), caller, pk).Ambiguous?
    ensures r.Ok? <==> pk in users && pk != caller && !GetFriendship(old(t.rows), caller, pk).Ambiguous?
    ensures r.Err? ==> t.rows == old(t.rows)
    ensures r.Ok? ==> r.value in t.rows && t.rows[r.value] == Friendship(caller, pk, Blocked, now)
    ensures r.Ok? ==> EdgesBetween(t.rows, caller, pk) == {r.value}
    ensures r.Ok? ==> forall id :: id in t.rows && id != r.value ==> id in old(t.rows) && t.rows[id] == old(t.rows)[id]
    ensures r.Ok? ==> forall id :: id in old(t.rows) && id != r.value ==> id in t.rows
    ensures r.Ok? ==> !AreFriends(t.rows, caller, pk)
  {
    if pk !in users {
      return Err(NotFound);
    }
    if pk == caller {
      return Err(BadRequest);
    }
    var f := GetFriendship(t.rows, caller, pk);
    if f.Ambiguous? {
      return Err(ServerError);
    }
    if f.Unique? {
      var s := t.Save(f.id, caller, pk, Blocked, now);
      assert s.Ok?;
      r := Ok(f.id);
    } else {
      var c := t.Create(caller, pk, Blocked, now);
      assert c.Ok?;
      r := Ok(c.value);
    }
    assert EdgesBetween(t.rows, caller, pk) == {r.value};
  }

  /** There is a blocked row from `requester` to `addressee`. */
  predicate HasBlocked(rows: Edges, requester: UserId, addressee: UserId)
  {
    exists id :: id in rows && rows[id].requester == requester && rows[id].addressee == addressee && rows[id].status == Blocked
  }

  /**
   * `unblock`: the target must exist (404); a blocked row from the caller to
   * the target must exist (400); then it is deleted. Ordered-pair uniqueness
   * makes the row `.first()` picks the only one.
   */
  method Unblock(t: FriendshipTable, users: set<UserId>, caller: UserId, pk: nat) returns (r: Result<nat, Error>)
    requires t.Valid()
    modifies t`rows
    ensures t.Valid()
    ensures r == Err(NotFound) <==> pk !in users
    ensures r == Err(BadRequest) <==> pk in users && !HasBlocked(old(t.rows), caller, pk)
    ensures r.Ok? <==> pk in users && HasBlocked(old(t.rows), caller, pk)
    ensures r.Err? ==> t.rows == old(t.rows)
    ensures r.Ok? ==> r.value in old(t.rows) && old(t.rows)[r.value] == Friendship(caller, pk, Blocked, old(t.rows)[r.value].updatedAt)
    ensures r.Ok? ==> t.rows == old(t.rows) - {r.value}
    ensures r.Ok? ==> !HasBlocked(t.rows, caller, pk)
  {
    if pk !in users {
      return Err(NotFound);
    }
    if !HasBlocked(t.rows, caller, pk) {
      return Err(BadRequest);
    }
    var id :| id in t.rows && t.rows[id].requester == caller && t.rows[id].addressee == pk && t.rows[id].status == Blocked;
    t.Delete(id);
    r := Ok(id);
  }

  /** The blocked party cannot lift the block: there is no row in their direction to delete. */
  lemma BlockedPartyCannotUnblock(rows: Edges, blocker: UserId, blocked: UserId)
    requires NoSelfEdges(rows) && UniqueUnorderedPairs(rows) && HasBlocked(rows, blocker, blocked)
    ensures !HasBlocked(rows, blocked, blocker)
  {
    var i :| i in rows && rows[i].requester == blocker && rows[i].addressee == blocked && rows[i].status == Blocked;
    if HasBlocked(rows, blocked, blocker) {
      var j :| j in rows && rows[j].requester == blocked && rows[j].addressee == blocker && rows[j].status == Blocked;
      assert Between(rows[j], rows[i].requester, rows[i].addressee);
    }
  }

  // ---------------------------------------------------------------------
  // suggestions
  // ---------------------------------------------------------------------

  /**
   * The `suggestions` action: `get_friend_suggestions` with its default
   * limit of ten, so at most ten users, all drawn from the pool.
   */
  method Suggestions(rows: Edges, caller: UserId) returns (s: seq<UserId>)
    ensures |s| <= DefaultSuggestionLimit
    ensures |s| == Min(DefaultSuggestionLimit, |SuggestionPool(rows, caller)|)
    ensures forall i, j :: 0 <= i < j < |s| ==> s[i] != s[j]
    ensures forall i :: 0 <= i < |s| ==> s[i] in SuggestionPool(rows, caller)
  {
    s := GetFriendSuggestions(rows, caller, DefaultSuggestionLimit);
  }
}
