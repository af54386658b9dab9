/// The comment serializers (backend/apps/comments/serializers.py): the
/// content and parent validators shared by create and update, the row a
/// create builds, the capped reply list of the nested listing, and the
/// caller's reaction to a comment.
module CommentSerializers {
  import opened Common
  import opened LikeModels
  import opened CommentModels

  // ---------------------------------------------------------------------
  // validate_content, validate_parent, create
  // ---------------------------------------------------------------------

  datatype CommentContentError = EmptyComment | CommentTooLong

  /**
   * `validate_content` of both the create and the update serializer:
   * blank content is refused, then content over 1000 characters (counted
   * before stripping); accepted content comes back stripped.
   */
  function ValidateCommentContent(value: string): (r: Result<string, CommentContentError>)
    ensures r == Err(EmptyComment) <==> IsBlank(value)
    ensures r == Err(CommentTooLong) <==> !IsBlank(value) && |value| > CommentMaxLength
    ensures r.Ok? ==> r.value == Strip(value) && 0 < |r.value| <= CommentMaxLength
    ensures r.Ok? ==> !IsSpace(r.value[0]) && !IsSpace(r.value[|r.value| - 1])
  {
    if |Strip(value)| == 0 then Err(EmptyComment)
    else if |value| > CommentMaxLength then Err(CommentTooLong)
    else Ok(Strip(value))
  }

  /** Stripping loses only whitespace: validating the accepted value again gives it back. */
  lemma ValidateCommentContentIdempotent(value: string)
    requires ValidateCommentContent(value).Ok?
    ensures var v := ValidateCommentContent(value).value;
      ValidateCommentContent(v) == Ok(v)
  {
    var v := Strip(value);
    assert LeadingSpaces(v) == 0;
    assert TrailingSpaces(v) == 0;
    assert v[0..|v|] == v;
  }

  /**
   * The `parent` field with `validate_parent`: no parent is fine; an id
   * that names no comment is refused by the related field; a soft-deleted
   * parent is refused by the validator.
   */
  function ValidateParent(comments: Comments, parent: Option<int>): (r: Result<Option<nat>, Error>)
    ensures r.Err? ==> r.error == BadRequest
    ensures r.Ok? <==> parent.None? || (0 <= parent.value && parent.value in comments && !comments[parent.value].isDeleted)
    ensures r.Ok? ==> (r.value.Some? <==> parent.Some?)
    ensures r.Ok? && r.value.Some? ==> r.value.value == parent.value
  {
    match parent
    case None => Ok(None)
    case Some(pid) =>
      if pid < 0 || pid !in comments then Err(BadRequest)
      else if comments[pid].isDeleted then Err(BadRequest)
      else Ok(Some(pid))
  }

  /** The request body of a create; `None` marks a field left out (or a null parent). */
  datatype CreateCommentRequest = CreateCommentRequest(content: Option<string>, parent: Option<int>)

  /** `is_valid` on the create serializer: content is required and must validate, the parent must validate. */
  predicate CreateRequestValid(comments: Comments, req: CreateCommentRequest)
  {
    && req.content.Some? && ValidateCommentContent(req.content.value).Ok?
    && ValidateParent(comments, req.parent).Ok?
  }

  /**
   * `create`: the author and post come from the request and the URL, not
   * the body; the content is the validated one; counters start at zero.
   */
  function CreatedComment(comments: Comments, author: UserId, postId: nat, req: CreateCommentRequest): (c: Comment)
    requires CreateRequestValid(comments, req)
    ensures c.author == author && c.post == postId
    ensures c.content == Strip(req.content.value) && 0 < |c.content| <= CommentMaxLength
    ensures IsReply(c) <==> req.parent.Some?
    ensures c.likesCount == 0 && !c.isDeleted
  {
    Comment(postId, author, ValidateCommentContent(req.content.value).value,
            ValidateParent(comments, req.parent).value, 0, false)
  }

  // ---------------------------------------------------------------------
  // get_replies
  // ---------------------------------------------------------------------

  const NestedRepliesLimit: nat := 5

  /** `get_replies`: the five newest live direct replies, or none. */
  method NestedReplies(comments: Comments, id: nat) returns (s: seq<nat>)
    ensures |s| == Min(NestedRepliesLimit, RepliesCount(comments, id))
    ensures s == [] <==> LiveReplies(comments, id) == {}
    ensures forall r :: r in s ==> r in LiveReplies(comments, id)
    ensures Descending(s)
    ensures forall r :: r in LiveReplies(comments, id) && r !in s ==> forall k :: 0 <= k < |s| ==> r < s[k]
  {
    s := NewestN(LiveReplies(comments, id), NestedRepliesLimit);
  }

  // ---------------------------------------------------------------------
  // get_user_has_liked, get_user_reaction
  // ---------------------------------------------------------------------

  /** `get_user_has_liked`: an authenticated caller with some reaction row on the comment. */
  function UserHasLiked(likes: Likes, caller: Option<UserId>, commentId: nat): (r: bool)
    ensures r <==> caller.Some? && !FindLike(likes, caller.value, CommentSubject, commentId).Absent?
  {
    caller.Some? && exists id :: id in likes && Keyed(likes[id], caller.value, CommentSubject, commentId)
  }

  /**
   * `get_user_reaction`: the kind of the caller's reaction, `None` for no
   * reaction or no caller; two rows make `.get` raise.
   */
  function UserReaction(likes: Likes, caller: Option<UserId>, commentId: nat): (r: Result<Option<ReactionType>, Error>)
    ensures r.Err? <==> caller.Some? && FindLike(likes, caller.value, CommentSubject, commentId).Ambiguous?
    ensures r.Err? ==> r.error == ServerError
    ensures r.Ok? && r.value.Some? ==> UserHasLiked(likes, caller, commentId)
    ensures r.Ok? && r.value.Some? ==> exists id :: id in likes && Keyed(likes[id], caller.value, CommentSubject, commentId) && likes[id].reaction == r.value.value
  {
    if caller.None? then Ok(None)
    else match FindLike(likes, caller.value, CommentSubject, commentId)
      case Absent => Ok(None)
      case Unique(id) => Ok(Some(likes[id].reaction))
      case Ambiguous => Err(ServerError)
  }

  /** Under the uniqueness constraint the two fields agree: a reaction is reported exactly when a like is. */
  lemma ReactionAgreesWithLiked(likes: Likes, caller: Option<UserId>, commentId: nat)
    requires OneReactionPerSubject(likes)
    ensures UserReaction(likes, caller, commentId).Ok?
    ensures UserReaction(likes, caller, commentId).value.Some? <==> UserHasLiked(likes, caller, commentId)
    ensures caller.Some? ==> UserReaction(likes, caller, commentId).value == ReactionOf(likes, caller.value, CommentSubject, commentId)
  {
    if caller.Some? {
      UniqueKeyNeverAmbiguous(likes, caller.value, CommentSubject, commentId);
    }
  }
}
