/// The reaction handlers (backend/apps/likes/views.py): the toggle with its
/// three outcomes, the per-kind grouping of a subject's reactions, and the
/// check of the caller's own reaction.
module LikeViews {
  import opened Common
  import opened PostModels
  import opened CommentModels
  import opened LikeModels

  // ---------------------------------------------------------------------
  // The subject of a reaction
  // ---------------------------------------------------------------------

  /** What the handlers read of the liked object: its deletion flag and stored counter. */
  datatype Target = Target(isDeleted: bool, likesCount: nat)

  /** `ct.get_object_for_this_type(id=...)`: the post or comment with that id, if any. */
  function FindTarget(posts: map<nat, Post>, comments: Comments, subject: SubjectType, objectId: nat): (r: Option<Target>)
    ensures subject == PostSubject ==> (r.Some? <==> objectId in posts)
    ensures subject == CommentSubject ==> (r.Some? <==> objectId in comments)
    ensures r.Some? && subject == PostSubject ==>
      r.value == Target(posts[objectId].isDeleted, posts[objectId].likesCount)
    ensures r.Some? && subject == CommentSubject ==>
      r.value == Target(comments[objectId].isDeleted, comments[objectId].likesCount)
  {
    match subject
    case PostSubject =>
      if objectId in posts then Some(Target(posts[objectId].isDeleted, posts[objectId].likesCount)) else None
    case CommentSubject =>
      if objectId in comments then Some(Target(comments[objectId].isDeleted, comments[objectId].likesCount)) else None
  }

  /** `ReactionSerializer`: an absent field means `like`; a given one must name one of the six kinds. */
  function RequestedReaction(param: Option<string>): (r: Option<ReactionType>)
    ensures param.None? ==> r == Some(DefaultReaction)
    ensures param.Some? ==> (r.Some? <==> exists k :: param.value == ReactionName(k))
    ensures param.Some? && r.Some? ==> ReactionName(r.value) == param.value
  {
    match param
    case None => Some(DefaultReaction)
    case Some(s) =>
      assert (exists k :: s == ReactionName(k)) ==> ParseReaction(s).Some? by {
        if exists k :: s == ReactionName(k) {
          var k :| s == ReactionName(k);
          ReactionRoundTrip(k, s);
        }
      }
      ParseReaction(s)
  }

  // ---------------------------------------------------------------------
  // toggle_like
  // ---------------------------------------------------------------------

  /**
   * The table after a toggle of `kind` by `user`: no row yet, a new one
   * (under the next id); a row of the same kind, deleted; a row of another
   * kind, changed in place.
   */
  function Toggled(rows: Likes, user: UserId, subject: SubjectType, objectId: nat, kind: ReactionType, newId: nat): Likes
    requires newId !in rows
    requires !FindLike(rows, user, subject, objectId).Ambiguous?
  {
    var found := FindLike(rows, user, subject, objectId);
    if found.Absent? then rows[newId := LikeRow(user, subject, objectId, kind)]
    else if rows[found.id].reaction == kind then rows - {found.id}
    else rows[found.id := rows[found.id].(reaction := kind)]
  }

  /**
   * A toggle flips the caller's reaction to `kind` on or off, keeps the
   * one-reaction-per-subject rule, and leaves every row with another key
   * as it was.
   */
  lemma ToggleEffect(rows: Likes, user: UserId, subject: SubjectType, objectId: nat, kind: ReactionType, newId: nat)
    requires OneReactionPerSubject(rows) && newId !in rows
    ensures !FindLike(rows, user, subject, objectId).Ambiguous?
    ensures var after := Toggled(rows, user, subject, objectId, kind, newId);
      && OneReactionPerSubject(after)
      && ReactionOf(after, user, subject, objectId)
         == (if ReactionOf(rows, user, subject, objectId) == Some(kind) then None else Some(kind))
      && (forall id :: id in rows && !Keyed(rows[id], user, subject, objectId) ==> id in after && after[id] == rows[id])
      && (forall id :: id in after && !Keyed(after[id], user, subject, objectId) ==> id in rows)
  {
    UniqueKeyNeverAmbiguous(rows, user, subject, objectId);
    var after := Toggled(rows, user, subject, objectId, kind, newId);
    var found := FindLike(rows, user, subject, objectId);
    if found.Absent? {
      assert KeyRows(after, user, subject, objectId) == {newId};
    } else if rows[found.id].reaction == kind {
      assert KeyRows(after, user, subject, objectId) == {};
    } else {
      assert KeyRows(after, user, subject, objectId) == {found.id};
    }
  }

  /**
   * Toggling the same kind twice: a reaction of that kind survives (as a
   * new row), anything else ends with no reaction, and starting from no
   * reaction the table is exactly restored.
   */
  lemma ToggleSameKindTwice(rows: Likes, user: UserId, subject: SubjectType, objectId: nat, kind: ReactionType, id1: nat, id2: nat)
    requires OneReactionPerSubject(rows) && id1 !in rows && id2 !in rows && id1 != id2
    ensures !FindLike(rows, user, subject, objectId).Ambiguous?
    ensures var once := Toggled(rows, user, subject, objectId, kind, id1);
      && id2 !in once && !FindLike(once, user, subject, objectId).Ambiguous?
      && var twice := Toggled(once, user, subject, objectId, kind, id2);
      && ReactionOf(twice, user, subject, objectId)
         == (if ReactionOf(rows, user, subject, objectId) == Some(kind) then Some(kind) else None)
      && (FindLike(rows, user, subject, objectId).Absent? ==> twice == rows)
  {
    ToggleEffect(rows, user, subject, objectId, kind, id1);
    var once := Toggled(rows, user, subject, objectId, kind, id1);
    assert id2 !in once;
    ToggleEffect(once, user, subject, objectId, kind, id2);
    if FindLike(rows, user, subject, objectId).Absent? {
      assert FindLike(once, user, subject, objectId) == Unique(id1);
      assert Toggled(once, user, subject, objectId, kind, id2) == once - {id1};
      assert once - {id1} == rows;
    }
  }

  /** What `toggle_like` answers: whether a reaction remains, its kind, and the stored counter. */
  datatype ToggleResponse = ToggleResponse(liked: bool, reaction: Option<ReactionType>, likesCount: nat)

  /**
   * `toggle_like`: 400 for an unknown content type, 404 for a missing
   * object, 400 for a soft-deleted one, 400 for an unknown reaction kind;
   * then the toggle. The recount is written to a misspelled attribute and
   * never saved, so the stored counter is reported unchanged.
   */
  method ToggleLike(t: LikeTable, posts: map<nat, Post>, comments: Comments, caller: UserId,
                    contentType: string, objectId: nat, reaction: Option<string>)
    returns (r: Result<ToggleResponse, Error>)
    requires t.Valid()
    modifies t
    ensures t.Valid()
    ensures ParseSubject(contentType).None? ==> r == Err(BadRequest)
    ensures ParseSubject(contentType).Some? ==>
      var target := FindTarget(posts, comments, ParseSubject(contentType).value, objectId);
      && (r == Err(NotFound) <==> target.None?)
      && (r == Err(BadRequest) <==> target.Some? && (target.value.isDeleted || RequestedReaction(reaction).None?))
      && (r.Ok? ==> target.Some? && r.value.likesCount == target.value.likesCount)
    ensures r.Err? ==> t.rows == old(t.rows)
    ensures r.Err? ==> r.error == BadRequest || r.error == NotFound
    ensures r.Ok? ==>
      var subject := ParseSubject(contentType).value;
      var kind := RequestedReaction(reaction).value;
      && t.rows == Toggled(old(t.rows), caller, subject, objectId, kind, old(t.nextId))
      && r.value.reaction == ReactionOf(t.rows, caller, subject, objectId)
      && r.value.reaction == (if ReactionOf(old(t.rows), caller, subject, objectId) == Some(kind) then None else Some(kind))
      && (r.value.liked <==> r.value.reaction.Some?)
  {
    var subject := ParseSubject(contentType);
    if subject.None? {
      return Err(BadRequest);
    }
    var target := FindTarget(posts, comments, subject.value, objectId);
    if target.None? {
      return Err(NotFound);
    }
    if target.value.isDeleted {
      return Err(BadRequest);
    }
    var kind := RequestedReaction(reaction);
    if kind.None? {
      return Err(BadRequest);
    }
    ToggleEffect(t.rows, caller, subject.value, objectId, kind.value, t.nextId);
    var found := FindLike(t.rows, caller, subject.value, objectId);
    var liked: bool;
    var now: Option<ReactionType>;
    if found.Unique? {
      if t.rows[found.id].reaction == kind.value {
        t.Delete(found.id);
        liked, now := false, None;
      } else {
        t.SetReaction(found.id, kind.value);
        liked, now := true, kind;
      }
    } else {
      assert found.Absent?;
      var id := t.Insert(LikeRow(caller, subject.value, objectId, kind.value));
      liked, now := true, kind;
    }
    r := Ok(ToggleResponse(liked, now, target.value.likesCount));
  }

  // ---------------------------------------------------------------------
  // get_likes
  // ---------------------------------------------------------------------

  /** Some reaction of kind `k` is on the subject. */
  predicate HasKind(rows: Likes, subject: SubjectType, objectId: nat, k: ReactionType)
  {
    exists id :: id in SubjectRows(rows, subject, objectId) && rows[id].reaction == k
  }

  /** What `get_likes` answers: per kind, the id of the one reaction listed; and the total. */
  datatype LikeGroups = LikeGroups(groups: map<ReactionType, nat>, total: nat)

  /**
   * The grouping loop of `get_likes` over ids listed newest first: the
   * first id met of each kind opens that kind's group, and later ones of
   * the same kind are skipped.
   */
  method FirstOfEachKind(rows: Likes, s: seq<nat>) returns (groups: map<ReactionType, nat>)
    requires Descending(s)
    requires forall j :: 0 <= j < |s| ==> s[j] in rows
    ensures forall k :: k in groups <==> exists j :: 0 <= j < |s| && rows[s[j]].reaction == k
    ensures forall k :: k in groups ==> groups[k] in s && rows[groups[k]].reaction == k
    ensures forall k, j :: k in groups && 0 <= j < |s| && rows[s[j]].reaction == k ==> s[j] <= groups[k]
  {
    groups := map[];
    var i := 0;
    while i < |s|
      invariant 0 <= i <= |s|
      invariant forall k :: k in groups <==> exists j :: 0 <= j < i && rows[s[j]].reaction == k
      invariant forall k :: k in groups ==> exists j :: 0 <= j < i && s[j] == groups[k]
      invariant forall k :: k in groups ==> rows[groups[k]].reaction == k
      invariant forall k, j :: k in groups && 0 <= j < i && rows[s[j]].reaction == k ==> s[j] <= groups[k]
    {
      var k := rows[s[i]].reaction;
      if k !in groups {
        groups := groups[k := s[i]];
      }
      i := i + 1;
    }
  }

  /**
   * `get_likes`: 400 for an unknown content type; otherwise one group per
   * kind present, holding only its newest reaction (the append sits inside
   * the `if` that opens the group), and the count of every reaction on the
   * subject. The object itself is not looked up.
   */
  method GetLikes(rows: Likes, contentType: string, objectId: nat) returns (r: Result<LikeGroups, Error>)
    ensures r.Err? <==> ParseSubject(contentType).None?
    ensures r.Err? ==> r.error == BadRequest
    ensures r.Ok? ==>
      var subject := ParseSubject(contentType).value;
      var g := r.value.groups;
      && r.value.total == |SubjectRows(rows, subject, objectId)|
      && (forall k :: k in g <==> HasKind(rows, subject, objectId, k))
      && (forall k :: k in g ==> g[k] in SubjectRows(rows, subject, objectId) && rows[g[k]].reaction == k)
      && (forall k, id :: k in g && id in SubjectRows(rows, subject, objectId) && rows[id].reaction == k ==> id <= g[k])
  {
    var subject := ParseSubject(contentType);
    if subject.None? {
      return Err(BadRequest);
    }
    var all := SubjectRows(rows, subject.value, objectId);
    var s := NewestFirst(all);
    forall j | 0 <= j < |s| ensures s[j] in rows {
      assert s[j] in all;
    }
    var groups := FirstOfEachKind(rows, s);
    forall k, id | k in groups && id in all && rows[id].reaction == k
      ensures id <= groups[k]
    {
      var j :| 0 <= j < |s| && s[j] == id;
    }
    r := Ok(LikeGroups(groups, |all|));
  }

  // ---------------------------------------------------------------------
  // check_user_reaction
  // ---------------------------------------------------------------------

  /**
   * `check_user_reaction`: 400 for an unknown content type; the kind of the
   * caller's reaction, or `None` when there is none; two rows make `.get`
   * raise.
   */
  function CheckUserReaction(rows: Likes, caller: UserId, contentType: string, objectId: nat): (r: Result<Option<ReactionType>, Error>)
    ensures ParseSubject(contentType).None? ==> r == Err(BadRequest)
    ensures ParseSubject(contentType).Some? ==>
      var found := FindLike(rows, caller, ParseSubject(contentType).value, objectId);
      && (r == Err(ServerError) <==> found.Ambiguous?)
      && (r == Ok(None) <==> found.Absent?)
      && (r.Ok? && r.value.Some? ==> found.Unique? && rows[found.id].reaction == r.value.value)
      && (found.Unique? ==> r == Ok(Some(rows[found.id].reaction)))
  {
    match ParseSubject(contentType)
    case None => Err(BadRequest)
    case Some(subject) =>
      match FindLike(rows, caller, subject, objectId)
      case Absent => Ok(None)
      case Unique(id) => Ok(Some(rows[id].reaction))
      case Ambiguous => Err(ServerError)
  }

  /** After a successful toggle, the check reports exactly the reaction the toggle answered with. */
  lemma CheckAfterToggle(rows: Likes, caller: UserId, contentType: string, objectId: nat, kind: ReactionType, newId: nat)
    requires OneReactionPerSubject(rows) && newId !in rows
    requires ParseSubject(contentType).Some?
    ensures var subject := ParseSubject(contentType).value;
      && !FindLike(rows, caller, subject, objectId).Ambiguous?
      && var after := Toggled(rows, caller, subject, objectId, kind, newId);
      && CheckUserReaction(after, caller, contentType, objectId)
         == Ok(if ReactionOf(rows, caller, subject, objectId) == Some(kind) then None else Some(kind))
  {
    var subject := ParseSubject(contentType).value;
    ToggleEffect(rows, caller, subject, objectId, kind, newId);
    var after := Toggled(rows, caller, subject, objectId, kind, newId);
    UniqueKeyNeverAmbiguous(after, caller, subject, objectId);
  }
}
