/// The comment handlers (backend/apps/comments/views.py): the working set
/// of a post's live comments, the top-level listing, create with its parent
/// rule, the author-only update and soft delete, the reply listing, and
/// the permission to comment.
module CommentViews {
  import opened Common
  import opened PostModels
  import opened PostViews
  import opened CommentModels
  import opened CommentSerializers

  // ---------------------------------------------------------------------
  // get_queryset, _can_comment_on_post
  // ---------------------------------------------------------------------

  /** `get_queryset`: the live comments of the post in the URL; none when the id is 0 (falsy). */
  function WorkingSet(comments: Comments, postId: nat): (r: set<nat>)
    ensures forall id :: id in r <==> postId != 0 && id in comments && comments[id].post == postId && !comments[id].isDeleted
  {
    if postId == 0 then {} else LiveComments(comments, postId)
  }

  /**
   * `_can_comment_on_post`: for now the permission to view, which this
   * module shares with the post handlers rather than restating.
   */
  function CanCommentOnPost(p: Post, user: UserId): (r: bool)
    ensures r <==> p.author == user || p.privacy == PublicPrivacy || p.privacy == FriendsPrivacy
    ensures r ==> CanViewPost(p, user)
  {
    CanViewPost(p, user)
  }

  // ---------------------------------------------------------------------
  // list, replies
  // ---------------------------------------------------------------------

  /** A listed comment: in the working set and top level. */
  predicate TopLevel(comments: Comments, postId: nat, id: nat)
  {
    id in WorkingSet(comments, postId) && comments[id].parent.None?
  }

  /**
   * `list`: 404 for a missing or deleted post, 403 when the caller may not
   * view it, else the post's live top-level comments, newest first.
   */
  method List(posts: map<nat, Post>, comments: Comments, caller: UserId, postId: nat) returns (r: Result<seq<nat>, Error>)
    ensures r == Err(NotFound) <==> !IsLive(posts, postId)
    ensures r == Err(Forbidden) <==> IsLive(posts, postId) && !CanViewPost(posts[postId], caller)
    ensures r.Ok? <==> IsLive(posts, postId) && CanViewPost(posts[postId], caller)
    ensures r.Ok? ==> (forall id :: id in r.value <==> TopLevel(comments, postId, id)) && Descending(r.value)
  {
    if !IsLive(posts, postId) {
      return Err(NotFound);
    }
    if !CanViewPost(posts[postId], caller) {
      return Err(Forbidden);
    }
    var ids := NewestFirst(set id | id in WorkingSet(comments, postId) && comments[id].parent.None?);
    r := Ok(ids);
  }

  /** `replies`: 404 unless the comment is in the working set, else its live direct replies, newest first. */
  method Replies(comments: Comments, postId: nat, pk: nat) returns (r: Result<seq<nat>, Error>)
    ensures r.Err? <==> pk !in WorkingSet(comments, postId)
    ensures r.Err? ==> r.error == NotFound
    ensures r.Ok? ==> (forall id :: id in r.value <==> id in LiveReplies(comments, pk)) && Descending(r.value)
    ensures r.Ok? ==> |r.value| == RepliesCount(comments, pk)
  {
    if pk !in WorkingSet(comments, postId) {
      return Err(NotFound);
    }
    var ids := NewestFirst(LiveReplies(comments, pk));
    r := Ok(ids);
  }

  // ---------------------------------------------------------------------
  // create
  // ---------------------------------------------------------------------

  /** The parent, if any, hangs off the same post (the check the view adds after validation). */
  predicate ParentOnPost(comments: Comments, postId: nat, req: CreateCommentRequest)
    requires ValidateParent(comments, req.parent).Ok?
  {
    var parent := ValidateParent(comments, req.parent).value;
    parent.Some? ==> comments[parent.value].post == postId
  }

  /**
   * `create`: 404 for a missing or deleted post, 403 when the caller may not
   * comment, 400 for a body that does not validate or a parent from
   * another post; otherwise the comment is saved and the post's counter is
   * recomputed.
   */
  method Create(cs: CommentStore, ps: PostStore, caller: UserId, postId: nat, req: CreateCommentRequest) returns (r: Result<nat, Error>)
    requires cs.Valid() && ps.Valid()
    modifies cs, ps`posts
    ensures cs.Valid() && ps.Valid()
    ensures r == Err(NotFound) <==> !IsLive(old(ps.posts), postId)
    ensures r == Err(Forbidden) <==> IsLive(old(ps.posts), postId) && !CanCommentOnPost(old(ps.posts)[postId], caller)
    ensures r == Err(BadRequest) <==>
      (IsLive(old(ps.posts), postId) && CanCommentOnPost(old(ps.posts)[postId], caller)
       && !(CreateRequestValid(old(cs.comments), req) && ParentOnPost(old(cs.comments), postId, req)))
    ensures r.Ok? <==>
      (IsLive(old(ps.posts), postId) && CanCommentOnPost(old(ps.posts)[postId], caller)
       && CreateRequestValid(old(cs.comments), req) && ParentOnPost(old(cs.comments), postId, req))
    ensures r.Err? ==> cs.comments == old(cs.comments) && ps.posts == old(ps.posts)
    ensures r.Ok? ==> CreateRequestValid(old(cs.comments), req) && r.value !in old(cs.comments)
    ensures r.Ok? ==> cs.comments == old(cs.comments)[r.value := CreatedComment(old(cs.comments), caller, postId, req)]
    ensures r.Ok? ==> ps.posts == old(ps.posts)[postId := old(ps.posts)[postId].(commentsCount := LiveCount(cs.comments, postId))]
    ensures r.Ok? ==> LiveCount(cs.comments, postId) == LiveCount(old(cs.comments), postId) + 1
    ensures Linked(old(cs.comments), old(ps.posts)) ==> Linked(cs.comments, ps.posts)
    ensures CountersAgree(old(ps.posts), old(cs.comments)) ==> CountersAgree(ps.posts, cs.comments)
  {
    if !IsLive(ps.posts, postId) {
      return Err(NotFound);
    }
    if !CanCommentOnPost(ps.posts[postId], caller) {
      return Err(Forbidden);
    }
    if !CreateRequestValid(cs.comments, req) || !ParentOnPost(cs.comments, postId, req) {
      return Err(BadRequest);
    }
    var c := CreatedComment(cs.comments, caller, postId, req);
    var id := cs.Insert(ps, c);
    InsertLiveCount(old(cs.comments), id, c, postId);
    r := Ok(id);
  }

  // ---------------------------------------------------------------------
  // update, partial_update
  // ---------------------------------------------------------------------

  /** `is_valid` on the update serializer: content is required unless the update is partial. */
  predicate UpdateRequestValid(partial: bool, content: Option<string>)
  {
    match content
    case None => partial
    case Some(v) => ValidateCommentContent(v).Ok?
  }

  /** The row after an update: the validated content, when sent, replaces the old one. */
  function UpdatedComment(c: Comment, content: Option<string>): (u: Comment)
    requires content.Some? ==> ValidateCommentContent(content.value).Ok?
    ensures u.author == c.author && u.post == c.post && u.parent == c.parent
    ensures u.isDeleted == c.isDeleted && u.likesCount == c.likesCount
    ensures content.None? ==> u == c
    ensures content.Some? ==> u.content == Strip(content.value)
  {
    match content
    case None => c
    case Some(v) => c.(content := ValidateCommentContent(v).value)
  }

  /**
   * `update` (`partial` false) and `partial_update` (`partial` true): 404
   * unless the comment is in the working set, 403 for anyone but its
   * author, 400 for a body that does not validate; the save leaves every
   * counter alone.
   */
  method Update(cs: CommentStore, caller: UserId, postId: nat, pk: nat, partial: bool, content: Option<string>) returns (r: Result<nat, Error>)
    requires cs.Valid()
    modifies cs`comments
    ensures cs.Valid()
    ensures r == Err(NotFound) <==> pk !in WorkingSet(old(cs.comments), postId)
    ensures r == Err(Forbidden) <==> pk in WorkingSet(old(cs.comments), postId) && old(cs.comments)[pk].author != caller
    ensures r == Err(BadRequest) <==>
      (pk in WorkingSet(old(cs.comments), postId) && old(cs.comments)[pk].author == caller
       && !UpdateRequestValid(partial, content))
    ensures r.Ok? <==>
      (pk in WorkingSet(old(cs.comments), postId) && old(cs.comments)[pk].author == caller
       && UpdateRequestValid(partial, content))
    ensures r.Err? ==> cs.comments == old(cs.comments)
    ensures r.Ok? ==> r.value == pk && UpdateRequestValid(partial, content)
    ensures r.Ok? ==> cs.comments == old(cs.comments)[pk := UpdatedComment(old(cs.comments)[pk], content)]
    ensures forall p :: LiveCount(cs.comments, p) == LiveCount(old(cs.comments), p)
  {
    if pk !in WorkingSet(cs.comments, postId) {
      return Err(NotFound);
    }
    var c := cs.comments[pk];
    if c.author != caller {
      return Err(Forbidden);
    }
    if !UpdateRequestValid(partial, content) {
      return Err(BadRequest);
    }
    cs.Resave(pk, UpdatedComment(c, content));
    assert forall p :: LiveComments(cs.comments, p) == LiveComments(old(cs.comments), p);
    r := Ok(pk);
  }

  // ---------------------------------------------------------------------
  // destroy
  // ---------------------------------------------------------------------

  /**
   * `destroy`: 404 unless the comment is in the working set, 403 for anyone
   * but its author; otherwise the soft delete, then the post's counter is
   * recomputed.
   */
  method Destroy(cs: CommentStore, ps: PostStore, caller: UserId, postId: nat, pk: nat) returns (r: Result<nat, Error>)
    requires cs.Valid() && ps.Valid() && Linked(cs.comments, ps.posts)
    modifies cs`comments, ps`posts
    ensures cs.Valid() && ps.Valid() && Linked(cs.comments, ps.posts)
    ensures r == Err(NotFound) <==> pk !in WorkingSet(old(cs.comments), postId)
    ensures r == Err(Forbidden) <==> pk in WorkingSet(old(cs.comments), postId) && old(cs.comments)[pk].author != caller
    ensures r.Err? ==> cs.comments == old(cs.comments) && ps.posts == old(ps.posts)
    ensures r.Ok? <==> pk in WorkingSet(old(cs.comments), postId) && old(cs.comments)[pk].author == caller
    ensures r.Ok? ==> r.value == pk
    ensures r.Ok? ==> cs.comments == old(cs.comments)[pk := SoftDeleted(old(cs.comments)[pk])]
    ensures r.Ok? ==> ps.posts == old(ps.posts)[postId := old(ps.posts)[postId].(commentsCount := LiveCount(cs.comments, postId))]
    ensures r.Ok? ==> LiveCount(cs.comments, postId) == LiveCount(old(cs.comments), postId) - 1
    ensures CountersAgree(old(ps.posts), old(cs.comments)) ==> CountersAgree(ps.posts, cs.comments)
  {
    if pk !in WorkingSet(cs.comments, postId) {
      return Err(NotFound);
    }
    var c := cs.comments[pk];
    if c.author != caller {
      return Err(Forbidden);
    }
    cs.Resave(pk, SoftDeleted(c));
    ps.UpdatePost(c.post, ps.posts[c.post].(commentsCount := LiveCount(cs.comments, c.post)));
    forall p | p in ps.posts
      ensures CountersAgree(old(ps.posts), old(cs.comments)) ==> ps.posts[p].commentsCount == LiveCount(cs.comments, p)
    {
      SoftDeleteLiveCount(old(cs.comments), pk, p);
    }
    SoftDeleteLiveCount(old(cs.comments), pk, postId);
    r := Ok(pk);
  }
}
