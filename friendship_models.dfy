/// The friendship edge table (backend/apps/friendships/models.py): directed
/// request rows carrying a status, the save-time guard against self-edges,
/// the ordered-pair uniqueness constraint, and the graph queries derived
/// from the table.
module FriendshipModels {
  import opened Common

  datatype Status = Pending | Accepted | Declined | Blocked

  /** One row: who asked whom, the current status, and the stamp of the last save. */
  datatype Friendship = Friendship(requester: UserId, addressee: UserId, status: Status, updatedAt: nat)

  /** The table, keyed by primary key. */
  type Edges = map<nat, Friendship>

  /** The row links `a` and `b`, in either direction. */
  predicate Between(e: Friendship, a: UserId, b: UserId)
  {
    (e.requester == a && e.addressee == b) || (e.requester == b && e.addressee == a)
  }

  /** `clean()` refuses a row whose requester is its addressee. */
  ghost predicate NoSelfEdges(rows: Edges)
  {
    forall id :: id in rows ==> rows[id].requester != rows[id].addressee
  }

  /** `unique_together = ('requester', 'addressee')`. */
  ghost predicate UniqueOrderedPairs(rows: Edges)
  {
    forall i, j :: i in rows && j in rows && i != j ==>
      rows[i].requester != rows[j].requester || rows[i].addressee != rows[j].addressee
  }

  /** At most one row per unordered pair: what `get_friendship`'s `.get` presumes. */
  ghost predicate UniqueUnorderedPairs(rows: Edges)
  {
    forall i, j :: i in rows && j in rows && i != j ==>
      !Between(rows[j], rows[i].requester, rows[i].addressee)
  }

  predicate HasOrderedPair(rows: Edges, requester: UserId, addressee: UserId)
  {
    exists id :: id in rows && rows[id].requester == requester && rows[id].addressee == addressee
  }

  // ---------------------------------------------------------------------
  // are_friends, get_friendship
  // ---------------------------------------------------------------------

  /** `are_friends`: an accepted row exists in either direction. */
  predicate AreFriends(rows: Edges, a: UserId, b: UserId)
  {
    exists id :: id in rows && rows[id].status == Accepted && Between(rows[id], a, b)
  }

  lemma AreFriendsSymmetric(rows: Edges, a: UserId, b: UserId)
    ensures AreFriends(rows, a, b) <==> AreFriends(rows, b, a)
  {
  }

  /** The keys of every row between `a` and `b`, whatever its status. */
  function EdgesBetween(rows: Edges, a: UserId, b: UserId): set<nat>
  {
    set id | id in rows && Between(rows[id], a, b)
  }

  /** `get_friendship`: the row between the two; `.get` raises when there are several. */
  function GetFriendship(rows: Edges, a: UserId, b: UserId): (r: Lookup)
    ensures r.Absent? <==> forall id :: id in rows ==> !Between(rows[id], a, b)
    ensures r.Unique? ==> r.id in rows && Between(rows[r.id], a, b)
    ensures r.Unique? ==> forall id :: id in rows && Between(rows[id], a, b) ==> id == r.id
    ensures r.Ambiguous? <==> exists i, j :: i in rows && j in rows && i != j && Between(rows[i], a, b) && Between(rows[j], a, b)
  {
    var ids := EdgesBetween(rows, a, b);
    assert forall id :: id in rows && Between(rows[id], a, b) ==> id in ids;
    Classify(ids)
  }

  lemma GetFriendshipSymmetric(rows: Edges, a: UserId, b: UserId)
    ensures GetFriendship(rows, a, b) == GetFriendship(rows, b, a)
  {
    assert EdgesBetween(rows, a, b) == EdgesBetween(rows, b, a);
  }

  /** Under the one-row-per-pair discipline `get_friendship` never raises. */
  lemma UniquePairsNeverAmbiguous(rows: Edges, a: UserId, b: UserId)
    requires UniqueUnorderedPairs(rows)
    ensures !GetFriendship(rows, a, b).Ambiguous?
  {
  }

  // ---------------------------------------------------------------------
  // get_friends, get_mutual_friends
  // ---------------------------------------------------------------------

  /** The row is accepted and has `u` as one endpoint. */
  predicate AcceptedWith(e: Friendship, u: UserId)
  {
    e.status == Accepted && (e.requester == u || e.addressee == u)
  }

  /** The endpoint of `e` that is not `u` (the requester when `u` is not the requester). */
  function Other(e: Friendship, u: UserId): UserId
  {
    if e.requester == u then e.addressee else e.requester
  }

  /** The other endpoints of the accepted rows among `keys` that touch `u`. */
  function FriendsAmong(rows: Edges, keys: set<nat>, u: UserId): set<UserId>
  {
    set id | id in keys && id in rows && AcceptedWith(rows[id], u) :: Other(rows[id], u)
  }

  /** The friend set of `u`: the specification `get_friends` is proved against. */
  function Friends(rows: Edges, u: UserId): set<UserId>
  {
    FriendsAmong(rows, rows.Keys, u)
  }

  /** Being in someone's friend set is exactly `are_friends`. */
  lemma FriendsAreAreFriends(rows: Edges, u: UserId, v: UserId)
    ensures v in Friends(rows, u) <==> AreFriends(rows, u, v)
  {
    if AreFriends(rows, u, v) {
      var id :| id in rows && rows[id].status == Accepted && Between(rows[id], u, v);
      assert AcceptedWith(rows[id], u) && Other(rows[id], u) == v;
    }
  }

  /** Friendship is symmetric: v is u's friend iff u is v's friend. */
  lemma FriendsSymmetric(rows: Edges, u: UserId, v: UserId)
    ensures v in Friends(rows, u) <==> u in Friends(rows, v)
  {
    FriendsAreAreFriends(rows, u, v);
    FriendsAreAreFriends(rows, v, u);
  }

  /** Without self-edges nobody is their own friend. */
  lemma FriendsExcludeSelf(rows: Edges, u: UserId)
    requires NoSelfEdges(rows)
    ensures u !in Friends(rows, u)
  {
    FriendsAreAreFriends(rows, u, u);
  }

  lemma {:induction false} FriendsAmongStep(rows: Edges, done: set<nat>, k: nat, u: UserId)
    requires k in rows && k !in done
    ensures FriendsAmong(rows, done + {k}, u) ==
      FriendsAmong(rows, done, u) + (if AcceptedWith(rows[k], u) then {Other(rows[k], u)} else {})
  {
    var lhs := FriendsAmong(rows, done + {k}, u);
    var rhs := FriendsAmong(rows, done, u) + (if AcceptedWith(rows[k], u) then {Other(rows[k], u)} else {});
    forall v | v in lhs ensures v in rhs {
      var id :| id in done + {k} && id in rows && AcceptedWith(rows[id], u) && v == Other(rows[id], u);
      if id != k { assert v in FriendsAmong(rows, done, u); }
    }
    forall v | v in rhs ensures v in lhs {
      if v in FriendsAmong(rows, done, u) {
        var id :| id in done && id in rows && AcceptedWith(rows[id], u) && v == Other(rows[id], u);
        assert id in done + {k};
      }
    }
  }

  /**
   * `get_friends`: walks the accepted rows touching `user` and collects the
   * other endpoint of each into a set, so rows in both directions collapse.
   */
  method GetFriends(rows: Edges, user: UserId) returns (friendIds: set<UserId>)
    ensures friendIds == Friends(rows, user)
    ensures forall v :: v in friendIds <==> AreFriends(rows, user, v)
  {
    friendIds := {};
    var todo := rows.Keys;
    while todo != {}
      invariant todo <= rows.Keys
      invariant friendIds == FriendsAmong(rows, rows.Keys - todo, user)
      decreases todo
    {
      var k :| k in todo;
      FriendsAmongStep(rows, rows.Keys - todo, k, user);
      assert rows.Keys - (todo - {k}) == (rows.Keys - todo) + {k};
      var e := rows[k];
      if e.status == Accepted && (e.requester == user || e.addressee == user) {
        if e.requester == user {
          friendIds := friendIds + {e.addressee};
        } else {
          friendIds := friendIds + {e.requester};
        }
      }
      todo := todo - {k};
    }
    assert rows.Keys - todo == rows.Keys;
    forall v ensures v in friendIds <==> AreFriends(rows, user, v) {
      FriendsAreAreFriends(rows, user, v);
    }
  }

  /** `get_mutual_friends`: the users who are friends of both. */
  function MutualFriends(rows: Edges, a: UserId, b: UserId): (r: set<UserId>)
    ensures r <= Friends(rows, a) && r <= Friends(rows, b)
    ensures forall v :: v in r <==> AreFriends(rows, a, v) && AreFriends(rows, b, v)
  {
    var r := Friends(rows, a) * Friends(rows, b);
    assert forall v :: v in r <==> AreFriends(rows, a, v) && AreFriends(rows, b, v) by {
      forall v ensures v in r <==> AreFriends(rows, a, v) && AreFriends(rows, b, v) {
        FriendsAreAreFriends(rows, a, v);
        FriendsAreAreFriends(rows, b, v);
      }
    }
    r
  }

  lemma MutualFriendsSymmetric(rows: Edges, a: UserId, b: UserId)
    ensures MutualFriends(rows, a, b) == MutualFriends(rows, b, a)
  {
  }

  /**
   * The scenario of the mutual-friends test: accepted rows in both
   * directions between `u` and `m` (and no other rows) give `u` exactly one
   * friend, and asking for the mutual friends of `u` with `u` returns it.
   */
  lemma BothDirectionsCollapse(u: UserId, m: UserId, t: nat)
    requires u != m
    ensures var rows := map[1 := Friendship(u, m, Accepted, t), 2 := Friendship(m, u, Accepted, t)];
      Friends(rows, u) == {m} && MutualFriends(rows, u, u) == {m}
  {
    var rows := map[1 := Friendship(u, m, Accepted, t), 2 := Friendship(m, u, Accepted, t)];
    assert Other(rows[1], u) == m;
    assert m in Friends(rows, u);
    forall v | v in Friends(rows, u) ensures v == m {
      var id :| id in rows.Keys && id in rows && AcceptedWith(rows[id], u) && v == Other(rows[id], u);
      assert id == 1 || id == 2;
    }
  }

  // ---------------------------------------------------------------------
  // get_friend_suggestions
  // ---------------------------------------------------------------------

  /** The default `limit` of `get_friend_suggestions`. */
  const DefaultSuggestionLimit: nat := 10

  /** Users with an accepted row to or from some member of `friends`. */
  function FriendsOfFriends(rows: Edges, friends: set<UserId>): set<UserId>
  {
    (set id | id in rows && rows[id].status == Accepted && rows[id].addressee in friends :: rows[id].requester)
    + (set id | id in rows && rows[id].status == Accepted && rows[id].requester in friends :: rows[id].addressee)
  }

  /** Users with a row of any status to or from `u`. */
  function Linked(rows: Edges, u: UserId): set<UserId>
  {
    (set id | id in rows && rows[id].addressee == u :: rows[id].requester)
    + (set id | id in rows && rows[id].requester == u :: rows[id].addressee)
  }

  /** The users the suggestion query may return, before `distinct()[:limit]`. */
  function SuggestionPool(rows: Edges, u: UserId): set<UserId>
  {
    var friends := Friends(rows, u);
    FriendsOfFriends(rows, friends) - {u} - friends - Linked(rows, u)
  }

  /** The five rules a suggestion obeys. */
  lemma SuggestionRules(rows: Edges, u: UserId, w: UserId)
    requires w in SuggestionPool(rows, u)
    ensures w != u
    ensures !AreFriends(rows, u, w)
    ensures forall id :: id in rows ==> !Between(rows[id], u, w)
    ensures exists f :: f in Friends(rows, u) && AreFriends(rows, f, w)
  {
    var friends := Friends(rows, u);
    FriendsAreAreFriends(rows, u, w);
    if w in (set id | id in rows && rows[id].status == Accepted && rows[id].addressee in friends :: rows[id].requester) {
      var id :| id in rows && rows[id].status == Accepted && rows[id].addressee in friends && rows[id].requester == w;
      assert AreFriends(rows, rows[id].addressee, w);
    } else {
      var id :| id in rows && rows[id].status == Accepted && rows[id].requester in friends && rows[id].addressee == w;
      assert AreFriends(rows, rows[id].requester, w);
    }
  }

  /**
   * `get_friend_suggestions`: distinct friends of friends, minus the user,
   * the user's friends and anyone with a row to or from the user, cut at
   * `limit`. The order the query returns them in is unspecified.
   */
  method GetFriendSuggestions(rows: Edges, user: UserId, limit: nat) returns (s: seq<UserId>)
    ensures |s| == Min(limit, |SuggestionPool(rows, user)|)
    ensures forall i, j :: 0 <= i < j < |s| ==> s[i] != s[j]
    ensures forall i :: 0 <= i < |s| ==> s[i] in SuggestionPool(rows, user)
    ensures forall i :: 0 <= i < |s| ==>
      s[i] != user && !AreFriends(rows, user, s[i]) && !(s[i] in Linked(rows, user))
  {
    s := PickUpTo(SuggestionPool(rows, user), limit);
    forall i | 0 <= i < |s|
      ensures s[i] != user && !AreFriends(rows, user, s[i]) && !(s[i] in Linked(rows, user))
    {
      SuggestionRules(rows, user, s[i]);
    }
  }

  // ---------------------------------------------------------------------
  // The table and its save/delete primitives
  // ---------------------------------------------------------------------

  /** Why a write to the table is refused; neither is caught by a handler. */
  datatype SaveError =
    | SelfEdge      // `clean()` raises ValidationError
    | DuplicatePair // the database rejects a second (requester, addressee) row

  class FriendshipTable {
    var rows: Edges
    var nextId: nat

    ghost predicate Valid()
      reads this
    {
      && NoSelfEdges(rows)
      && UniqueOrderedPairs(rows)
      && forall id :: id in rows ==> id < nextId
    }

    constructor ()
      ensures Valid() && rows == map[] && nextId == 1
    {
      rows := map[];
      nextId := 1;
    }

    /** `Friendship.objects.create(...)`: `save()` runs `clean()`, then the insert. */
    method Create(requester: UserId, addressee: UserId, status: Status, now: nat) returns (r: Result<nat, SaveError>)
      requires Valid()
      modifies this
      ensures Valid()
      ensures requester == addressee ==> r == Err(SelfEdge)
      ensures r.Ok? <==> requester != addressee && !HasOrderedPair(old(rows), requester, addressee)
      ensures requester != addressee && r.Err? ==> r.error == DuplicatePair
      ensures r.Err? ==> rows == old(rows) && nextId == old(nextId)
      ensures r.Ok? ==> r.value == old(nextId) && r.value !in old(rows)
      ensures r.Ok? ==> rows == old(rows)[r.value := Friendship(requester, addressee, status, now)]
    {
      if requester == addressee {
        return Err(SelfEdge);
      }
      if exists id :: id in rows && rows[id].requester == requester && rows[id].addressee == addressee {
        return Err(DuplicatePair);
      }
      r := Ok(nextId);
      rows := rows[nextId := Friendship(requester, addressee, status, now)];
      nextId := nextId + 1;
    }

    /** `friendship.save()` after assigning fields of an existing row; `updated_at` is stamped. */
    method Save(id: nat, requester: UserId, addressee: UserId, status: Status, now: nat) returns (r: Result<nat, SaveError>)
      requires Valid() && id in rows
      modifies this`rows
      ensures Valid()
      ensures requester == addressee ==> r == Err(SelfEdge)
      ensures r.Ok? <==> (requester != addressee &&
        forall j :: j in old(rows) && j != id ==> old(rows)[j].requester != requester || old(rows)[j].addressee != addressee)
      ensures requester != addressee && r.Err? ==> r.error == DuplicatePair
      ensures r.Err? ==> rows == old(rows)
      ensures r.Ok? ==> r.value == id && rows == old(rows)[id := Friendship(requester, addressee, status, now)]
    {
      if requester == addressee {
        return Err(SelfEdge);
      }
      if exists j :: j in rows && j != id && rows[j].requester == requester && rows[j].addressee == addressee {
        return Err(DuplicatePair);
      }
      r := Ok(id);
      rows := rows[id := Friendship(requester, addressee, status, now)];
    }

    /** `friendship.delete()`. */
    method Delete(id: nat)
      requires Valid() && id in rows
      modifies this`rows
      ensures Valid()
      ensures rows == old(rows) - {id}
    {
      rows := rows - {id};
    }
  }
}
