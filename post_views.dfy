/// The post handlers (backend/apps/posts/views.py): the working set of
/// live posts, the visibility check, the caller's posts, the timeline, the
/// detail view, and the owner-only update and soft delete.
module PostViews {
  import opened Common
  import opened PostModels
  import opened PostSerializers

  // ---------------------------------------------------------------------
  // _can_view_post
  // ---------------------------------------------------------------------

  /**
   * `_can_view_post`: the author always; then by privacy, where public and
   * (for now) friends are open to every user, and private or any other
   * stored value is closed.
   */
  function CanViewPost(p: Post, user: UserId): (r: bool)
    ensures r <==> p.author == user || p.privacy == PublicPrivacy || p.privacy == FriendsPrivacy
  {
    if p.author == user then true
    else if p.privacy == PublicPrivacy then true
    else if p.privacy == PrivatePrivacy then false
    else if p.privacy == FriendsPrivacy then true
    else false
  }

  /** Only the author sees a private post, and nobody else sees a post with an unknown privacy value. */
  lemma PrivateAndUnknownHidden(p: Post, user: UserId)
    requires p.author != user
    ensures p.privacy == PrivatePrivacy ==> !CanViewPost(p, user)
    ensures !IsPrivacyChoice(p.privacy) ==> !CanViewPost(p, user)
    ensures IsPrivacyChoice(p.privacy) ==> (CanViewPost(p, user) <==> p.privacy != PrivatePrivacy)
  {
  }

  // ---------------------------------------------------------------------
  // get_queryset, my_posts, timeline
  // ---------------------------------------------------------------------

  /** The post exists and is not soft-deleted. */
  predicate IsLive(posts: map<nat, Post>, id: nat)
  {
    id in posts && !posts[id].isDeleted
  }

  /** `get_queryset`: every live post, newest first. */
  method WorkingSet(posts: map<nat, Post>) returns (ids: seq<nat>)
    ensures forall id :: id in ids <==> IsLive(posts, id)
    ensures Descending(ids)
  {
    ids := NewestFirst(set id | id in posts && !posts[id].isDeleted);
  }

  /** `my_posts`: the caller's live posts, newest first. */
  method MyPosts(posts: map<nat, Post>, caller: UserId) returns (ids: seq<nat>)
    ensures forall id :: id in ids <==> IsLive(posts, id) && posts[id].author == caller
    ensures Descending(ids)
  {
    ids := NewestFirst(set id | id in posts && !posts[id].isDeleted && posts[id].author == caller);
  }

  const TimelineLimit: nat := 20

  /** A timeline candidate: live, and public or written by the caller. */
  predicate OnTimeline(posts: map<nat, Post>, caller: UserId, id: nat)
  {
    IsLive(posts, id) && (posts[id].privacy == PublicPrivacy || posts[id].author == caller)
  }

  function TimelineCandidates(posts: map<nat, Post>, caller: UserId): set<nat>
  {
    set id | id in posts && OnTimeline(posts, caller, id)
  }

  /**
   * `timeline`: the 20 newest live posts that are public or the caller's
   * own, newest first.
   */
  method Timeline(posts: map<nat, Post>, caller: UserId) returns (ids: seq<nat>)
    ensures |ids| <= TimelineLimit
    ensures |ids| == Min(TimelineLimit, |TimelineCandidates(posts, caller)|)
    ensures forall id :: id in ids ==> OnTimeline(posts, caller, id)
    ensures Descending(ids)
    ensures forall id :: OnTimeline(posts, caller, id) && id !in ids ==> forall k :: 0 <= k < |ids| ==> id < ids[k]
  {
    ids := NewestN(TimelineCandidates(posts, caller), TimelineLimit);
  }

  /** Everything on the timeline is a post the caller may open. */
  lemma TimelineVisible(posts: map<nat, Post>, caller: UserId, id: nat)
    requires OnTimeline(posts, caller, id)
    ensures CanViewPost(posts[id], caller)
  {
  }

  // ---------------------------------------------------------------------
  // detail
  // ---------------------------------------------------------------------

  /** `detail`: 404 for a missing or deleted post, 403 when the caller may not view it. */
  function Detail(posts: map<nat, Post>, caller: UserId, pk: nat): (r: Result<Post, Error>)
    ensures r == Err(NotFound) <==> !IsLive(posts, pk)
    ensures r == Err(Forbidden) <==> IsLive(posts, pk) && !CanViewPost(posts[pk], caller)
    ensures r.Ok? <==> IsLive(posts, pk) && CanViewPost(posts[pk], caller)
    ensures r.Ok? ==> IsLive(posts, pk) && r.value == posts[pk] && CanViewPost(r.value, caller)
  {
    if !IsLive(posts, pk) then Err(NotFound)
    else if !CanViewPost(posts[pk], caller) then Err(Forbidden)
    else Ok(posts[pk])
  }

  /** After a soft delete nobody, the author included, can open the post. */
  lemma DeletedPostNotFound(posts: map<nat, Post>, pk: nat, caller: UserId)
    requires pk in posts
    ensures Detail(posts[pk := posts[pk].(isDeleted := true)], caller, pk) == Err(NotFound)
  {
  }

  /** The author can always open a live post of theirs. */
  lemma AuthorSeesOwnPost(posts: map<nat, Post>, pk: nat)
    requires IsLive(posts, pk)
    ensures Detail(posts, posts[pk].author, pk) == Ok(posts[pk])
  {
  }

  // ---------------------------------------------------------------------
  // update, destroy
  // ---------------------------------------------------------------------

  /** The request body of an update; `None` marks a field the client left out. */
  datatype UpdatePostRequest = UpdatePostRequest(content: Option<string>, privacy: Option<string>, location: Option<string>)

  predicate UpdateRequestValid(req: UpdatePostRequest)
  {
    && (req.content.Some? ==> ValidateUpdateContent(req.content.value).Ok?)
    && (req.privacy.Some? ==> IsPrivacyChoice(req.privacy.value))
  }

  /** The row after an update: the fields sent replace the stored ones. */
  function Updated(p: Post, req: UpdatePostRequest): Post
  {
    p.(content := if req.content.Some? then req.content.value else p.content,
       privacy := if req.privacy.Some? then req.privacy.value else p.privacy,
       location := if req.location.Some? then req.location.value else p.location)
  }

  /** An update leaves the author, type, counters and deletion flag alone. */
  lemma UpdateKeepsOwnership(p: Post, req: UpdatePostRequest)
    ensures var q := Updated(p, req);
      q.author == p.author && q.postType == p.postType && q.likesCount == p.likesCount
      && q.commentsCount == p.commentsCount && q.isDeleted == p.isDeleted
  {
  }

  /**
   * `update` with `perform_update`: the object lookup (404), then the
   * serializer (400), then the author check (403), then the save.
   */
  method PerformUpdate(store: PostStore, caller: UserId, pk: nat, req: UpdatePostRequest) returns (r: Result<nat, Error>)
    requires store.Valid()
    modifies store`posts
    ensures store.Valid()
    ensures r == Err(NotFound) <==> !IsLive(old(store.posts), pk)
    ensures r == Err(BadRequest) <==> IsLive(old(store.posts), pk) && !UpdateRequestValid(req)
    ensures r == Err(Forbidden) <==> IsLive(old(store.posts), pk) && UpdateRequestValid(req) && old(store.posts)[pk].author != caller
    ensures r.Ok? <==> IsLive(old(store.posts), pk) && UpdateRequestValid(req) && old(store.posts)[pk].author == caller
    ensures r.Err? ==> store.posts == old(store.posts)
    ensures r.Ok? ==> r.value == pk && store.posts == old(store.posts)[pk := Updated(old(store.posts)[pk], req)]
  {
    if !IsLive(store.posts, pk) {
      return Err(NotFound);
    }
    if !UpdateRequestValid(req) {
      return Err(BadRequest);
    }
    var p := store.posts[pk];
    if p.author != caller {
      return Err(Forbidden);
    }
    store.UpdatePost(pk, Updated(p, req));
    r := Ok(pk);
  }

  /** `destroy`: 404 for a missing or deleted post, 403 for a non-author, else the soft delete. */
  method Destroy(store: PostStore, caller: UserId, pk: nat) returns (r: Result<nat, Error>)
    requires store.Valid()
    modifies store`posts
    ensures store.Valid()
    ensures r == Err(NotFound) <==> !IsLive(old(store.posts), pk)
    ensures r == Err(Forbidden) <==> IsLive(old(store.posts), pk) && old(store.posts)[pk].author != caller
    ensures r.Ok? <==> IsLive(old(store.posts), pk) && old(store.posts)[pk].author == caller
    ensures r.Err? ==> store.posts == old(store.posts)
    ensures r.Ok? ==> r.value == pk && store.posts == old(store.posts)[pk := old(store.posts)[pk].(isDeleted := true)]
  {
    if !IsLive(store.posts, pk) {
      return Err(NotFound);
    }
    var p := store.posts[pk];
    if p.author != caller {
      return Err(Forbidden);
    }
    store.UpdatePost(pk, p.(isDeleted := true));
    r := Ok(pk);
  }
}
