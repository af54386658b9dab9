/// The reaction table (backend/apps/likes/models.py): one row per user and
/// subject, carrying one of six reaction kinds. A subject is a content type
/// and an object id.
module LikeModels {
  import opened Common

  datatype ReactionType = Like | Love | Haha | Wow | Sad | Angry

  const DefaultReaction: ReactionType := Like

  function ReactionName(k: ReactionType): string
  {
    match k
    case Like => "like"
    case Love => "love"
    case Haha => "haha"
    case Wow => "wow"
    case Sad => "sad"
    case Angry => "angry"
  }

  /** The reaction choice field: exactly the six stored names are accepted. */
  function ParseReaction(s: string): (r: Option<ReactionType>)
    ensures r.Some? ==> ReactionName(r.value) == s
  {
    if s == "like" then Some(Like)
    else if s == "love" then Some(Love)
    else if s == "haha" then Some(Haha)
    else if s == "wow" then Some(Wow)
    else if s == "sad" then Some(Sad)
    else if s == "angry" then Some(Angry)
    else None
  }

  lemma ReactionRoundTrip(k: ReactionType, s: string)
    ensures ParseReaction(s) == Some(k) <==> s == ReactionName(k)
  {
  }

  /** The reactable models; a content type names one of them by its lower-case model name. */
  datatype SubjectType = PostSubject | CommentSubject

  function SubjectName(t: SubjectType): string
  {
    match t
    case PostSubject => "post"
    case CommentSubject => "comment"
  }

  /** `ContentType.objects.get(model=...)`, over the reactable models. */
  function ParseSubject(s: string): (r: Option<SubjectType>)
    ensures r.Some? <==> s == "post" || s == "comment"
    ensures r.Some? ==> SubjectName(r.value) == s
  {
    if s == "post" then Some(PostSubject)
    else if s == "comment" then Some(CommentSubject)
    else None
  }

  /** One reaction; `objectId` is a non-negative integer, as the column is. */
  datatype LikeRow = LikeRow(user: UserId, subject: SubjectType, objectId: nat, reaction: ReactionType)

  type Likes = map<nat, LikeRow>

  /** The row is `user`'s reaction to (`subject`, `objectId`). */
  predicate Keyed(row: LikeRow, user: UserId, subject: SubjectType, objectId: nat)
  {
    row.user == user && row.subject == subject && row.objectId == objectId
  }

  /** `unique_together = ('user', 'content_type', 'object_id')`. */
  ghost predicate OneReactionPerSubject(rows: Likes)
  {
    forall i, j :: i in rows && j in rows && i != j ==>
      !Keyed(rows[j], rows[i].user, rows[i].subject, rows[i].objectId)
  }

  /** The keys of `user`'s reactions to the subject. */
  function KeyRows(rows: Likes, user: UserId, subject: SubjectType, objectId: nat): set<nat>
  {
    set id | id in rows && Keyed(rows[id], user, subject, objectId)
  }

  /** `Like.objects.get(user=..., content_type=..., object_id=...)`. */
  function FindLike(rows: Likes, user: UserId, subject: SubjectType, objectId: nat): (r: Lookup)
    ensures r.Absent? <==> forall id :: id in rows ==> !Keyed(rows[id], user, subject, objectId)
    ensures r.Unique? ==> r.id in rows && Keyed(rows[r.id], user, subject, objectId)
    ensures r.Unique? ==> forall id :: id in rows && Keyed(rows[id], user, subject, objectId) ==> id == r.id
  {
    var ids := KeyRows(rows, user, subject, objectId);
    assert forall id :: id in rows && Keyed(rows[id], user, subject, objectId) ==> id in ids;
    Classify(ids)
  }

  /** The uniqueness constraint keeps `.get` from ever finding two rows. */
  lemma UniqueKeyNeverAmbiguous(rows: Likes, user: UserId, subject: SubjectType, objectId: nat)
    requires OneReactionPerSubject(rows)
    ensures !FindLike(rows, user, subject, objectId).Ambiguous?
  {
  }

  /** `user`'s reaction to the subject, if they have exactly one row for it. */
  function ReactionOf(rows: Likes, user: UserId, subject: SubjectType, objectId: nat): Option<ReactionType>
  {
    match FindLike(rows, user, subject, objectId)
    case Unique(id) => Some(rows[id].reaction)
    case _ => None
  }

  /** The keys of every reaction to the subject. */
  function SubjectRows(rows: Likes, subject: SubjectType, objectId: nat): set<nat>
  {
    set id | id in rows && rows[id].subject == subject && rows[id].objectId == objectId
  }

  /** The reaction table with its id counter. */
  class LikeTable {
    var rows: Likes
    var nextId: nat

    ghost predicate Valid()
      reads this
    {
      OneReactionPerSubject(rows) && forall id :: id in rows ==> id < nextId
    }

    constructor ()
      ensures Valid() && rows == map[]
    {
      rows := map[];
      nextId := 1;
    }

    /** The create half of `get_or_create`, run only when no row has the key. */
    method Insert(row: LikeRow) returns (id: nat)
      requires Valid()
      requires forall j :: j in rows ==> !Keyed(rows[j], row.user, row.subject, row.objectId)
      modifies this
      ensures Valid()
      ensures id == old(nextId) && id !in old(rows)
      ensures rows == old(rows)[id := row]
    {
      id := nextId;
      rows := rows[id := row];
      nextId := nextId + 1;
    }

    /** `like.save()` after changing the reaction kind. */
    method SetReaction(id: nat, k: ReactionType)
      requires Valid() && id in rows
      modifies this`rows
      ensures Valid()
      ensures rows == old(rows)[id := old(rows)[id].(reaction := k)]
    {
      rows := rows[id := rows[id].(reaction := k)];
    }

    /** `like.delete()`. */
    method Delete(id: nat)
      requires Valid() && id in rows
      modifies this`rows
      ensures Valid()
      ensures rows == old(rows) - {id}
    {
      rows := rows - {id};
    }
  }
}
