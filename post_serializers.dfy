/// The post serializers (backend/apps/posts/serializers.py): the content and
/// tagged-user validators, media and post type classification, and the
/// create path that writes the post, its attachments and its tags.
module PostSerializers {
  import opened Common
  import opened PostModels

  // ---------------------------------------------------------------------
  // Validators
  // ---------------------------------------------------------------------

  const MaxPostLength: nat := 10000

  datatype ContentError =
    | NoContentOrMedia  // empty content and no files in the request
    | ContentTooLong    // more than 10000 characters

  /**
   * `CreatePostSerializer.validate_content`: empty content needs files, and
   * content may not exceed 10000 characters; accepted content is returned
   * as given.
   */
  function ValidateCreateContent(value: string, mediaGiven: bool): (r: Result<string, ContentError>)
    ensures r == Err(NoContentOrMedia) <==> value == [] && !mediaGiven
    ensures r == Err(ContentTooLong) <==> (value != [] || mediaGiven) && |value| > MaxPostLength
    ensures r.Ok? ==> r.value == value && |value| <= MaxPostLength
  {
    if value == [] && !mediaGiven then Err(NoContentOrMedia)
    else if |value| > MaxPostLength then Err(ContentTooLong)
    else Ok(value)
  }

  /** `UpdatePostSerializer.validate_content`: only the length cap; empty content is allowed. */
  function ValidateUpdateContent(value: string): (r: Result<string, ContentError>)
    ensures r.Ok? <==> |value| <= MaxPostLength
    ensures r.Ok? ==> r.value == value
    ensures r.Err? ==> r.error == ContentTooLong
  {
    if |value| > MaxPostLength then Err(ContentTooLong) else Ok(value)
  }

  /** Update accepts all that create accepts, and beyond that only the empty text create refuses without files. */
  lemma UpdateContentWeaker(value: string, mediaGiven: bool)
    ensures ValidateCreateContent(value, mediaGiven).Ok? ==> ValidateUpdateContent(value).Ok?
    ensures ValidateUpdateContent(value).Ok? && !ValidateCreateContent(value, mediaGiven).Ok? ==>
      value == [] && !mediaGiven
  {
  }

  /** A user with this id exists. */
  predicate IsUser(users: set<UserId>, id: int)
  {
    0 <= id && id as nat in users
  }

  /** The ids of `ids` that name no existing user. */
  function InvalidIds(users: set<UserId>, ids: seq<int>): set<int>
  {
    set x | x in ids && !IsUser(users, x)
  }

  /**
   * `validate_tagged_users`: refuses the list when some id names no user,
   * reporting exactly those ids; otherwise passes the list through
   * unchanged (repeats included).
   */
  function ValidateTaggedUsers(users: set<UserId>, ids: seq<int>): (r: Result<seq<int>, set<int>>)
    ensures r.Err? <==> exists x :: x in ids && !IsUser(users, x)
    ensures r.Err? ==> r.error != {} && forall x :: x in r.error <==> x in ids && !IsUser(users, x)
    ensures r.Ok? ==> r.value == ids && forall x :: x in ids ==> IsUser(users, x)
  {
    if exists x :: x in ids && !IsUser(users, x) then
      assert InvalidIds(users, ids) != {} by {
        var x :| x in ids && !IsUser(users, x);
        assert x in InvalidIds(users, ids);
      }
      Err(InvalidIds(users, ids))
    else
      Ok(ids)
  }

  // ---------------------------------------------------------------------
  // Classification
  // ---------------------------------------------------------------------

  /** `_determine_media_type`: by MIME-type prefix, falling back to image. */
  function MediaTypeFor(contentType: string): (m: MediaType)
    ensures m == VideoMedia <==> !StartsWith(contentType, "image") && StartsWith(contentType, "video")
  {
    if StartsWith(contentType, "image") then ImageMedia
    else if StartsWith(contentType, "video") then VideoMedia
    else ImageMedia
  }

  /**
   * The post type `create` stores in `validated_data`: the client's choice
   * if given; otherwise text without files, or image/video after the first
   * file's MIME type. Any other first file leaves it unset.
   */
  function InferPostType(given: Option<PostType>, mediaTypes: seq<string>): (r: Option<PostType>)
    ensures given.Some? ==> r == given
    ensures given.None? && mediaTypes == [] ==> r == Some(Text)
    ensures given.None? && mediaTypes != [] ==>
      (r == Some(Image) <==> StartsWith(mediaTypes[0], "image"))
      && (r == Some(Video) <==> !StartsWith(mediaTypes[0], "image") && StartsWith(mediaTypes[0], "video"))
      && (r.Some? ==> r == Some(Image) || r == Some(Video))
  {
    if given.Some? then given
    else if mediaTypes == [] then Some(Text)
    else if StartsWith(mediaTypes[0], "image") then Some(Image)
    else if StartsWith(mediaTypes[0], "video") then Some(Video)
    else None
  }

  /** An unset type falls back to the model default on insert. */
  function StoredPostType(t: Option<PostType>): PostType
  {
    if t.Some? then t.value else DefaultPostType
  }

  /**
   * The inferred type agrees with the first attachment's media type when
   * that file is an image or a video; any other first file is stored as an
   * image attachment on a text post.
   */
  lemma PostTypeMatchesFirstMedia(mediaTypes: seq<string>)
    requires mediaTypes != []
    ensures var t := StoredPostType(InferPostType(None, mediaTypes));
      var m := MediaTypeFor(mediaTypes[0]);
      && (t == Image <==> m == ImageMedia && StartsWith(mediaTypes[0], "image"))
      && (t == Video <==> m == VideoMedia)
      && (t == Text <==> m == ImageMedia && !StartsWith(mediaTypes[0], "image"))
  {
  }

  // ---------------------------------------------------------------------
  // create
  // ---------------------------------------------------------------------

  /** The request body of post creation; `None` marks a field the client left out. */
  datatype CreatePostRequest = CreatePostRequest(
    content: Option<string>,
    postType: Option<string>,
    privacy: Option<string>,
    location: Option<string>,
    mediaFiles: seq<string>,       // the MIME type of each uploaded file, in upload order
    taggedUsers: seq<int>)

  /**
   * Field validation of the create serializer: `validate_content` runs only
   * when content is sent; the choice fields accept only their choice names.
   * Any failure is a 400.
   */
  predicate CreateRequestValid(users: set<UserId>, req: CreatePostRequest)
  {
    && (req.content.Some? ==> ValidateCreateContent(req.content.value, req.mediaFiles != []).Ok?)
    && (req.postType.Some? ==> ParsePostType(req.postType.value).Some?)
    && (req.privacy.Some? ==> IsPrivacyChoice(req.privacy.value))
    && ValidateTaggedUsers(users, req.taggedUsers).Ok?
  }

  /** The row `create` inserts for a valid request by `author`. */
  function CreatedPost(author: UserId, req: CreatePostRequest): Post
  {
    var given := if req.postType.Some? then ParsePostType(req.postType.value) else None;
    NewPost(
      author,
      if req.content.Some? then req.content.value else "",
      StoredPostType(InferPostType(given, req.mediaFiles)),
      if req.privacy.Some? then req.privacy.value else DefaultPrivacy,
      if req.location.Some? then req.location.value else "")
  }

  /**
   * The attachments of `files` sit at consecutive ids from `base`, each on
   * `postId`, classified by its MIME type, with `order` its position.
   */
  ghost predicate AttachedInOrder(media: map<nat, PostMedia>, base: nat, postId: nat, files: seq<string>)
  {
    forall id :: base <= id < base + |files| ==>
      id in media && media[id] == PostMedia(postId, MediaTypeFor(files[id - base]), files[id - base], id - base)
  }

  /** The tags `create` writes for `ids` on post `postId`. */
  function TagsFor(postId: nat, ids: seq<int>): set<PostTag>
  {
    set x | x in ids && 0 <= x :: PostTag(postId, x as nat)
  }

  /** The tags of a prefix of the ids are among the tags of all of them. */
  lemma TagsForPrefix(postId: nat, ids: seq<int>, j: nat)
    requires j <= |ids|
    ensures TagsFor(postId, ids[..j]) <= TagsFor(postId, ids)
  {
    forall t | t in TagsFor(postId, ids[..j]) ensures t in TagsFor(postId, ids) {
      var y :| y in ids[..j] && 0 <= y && t == PostTag(postId, y as nat);
      assert y in ids;
    }
  }

  lemma TagsForSnoc(postId: nat, ids: seq<int>, x: int)
    requires 0 <= x
    ensures TagsFor(postId, ids + [x]) == TagsFor(postId, ids) + {PostTag(postId, x as nat)}
  {
    var lhs := TagsFor(postId, ids + [x]);
    var rhs := TagsFor(postId, ids) + {PostTag(postId, x as nat)};
    forall t | t in lhs ensures t in rhs {
      var y :| y in ids + [x] && 0 <= y && t == PostTag(postId, y as nat);
      if y != x {
        assert y in ids;
      }
    }
    forall t | t in rhs ensures t in lhs {
      if t != PostTag(postId, x as nat) {
        var y :| y in ids && 0 <= y && t == PostTag(postId, y as nat);
        assert y in ids + [x];
      } else {
        assert x in ids + [x];
      }
    }
  }

  /** Whether a list repeats an element. */
  predicate HasRepeat(s: seq<int>)
  {
    exists i, j :: 0 <= i < j < |s| && s[i] == s[j]
  }

  /**
   * `CreatePostSerializer.create`, after validation: inserts the post with
   * the caller as author, then one attachment per file with `order` equal
   * to its position, then one tag per listed user. A repeated user id makes
   * the second tag insert fail; the rows written before it stay.
   */
  method CreatePost(store: PostStore, users: set<UserId>, author: UserId, req: CreatePostRequest)
    returns (r: Result<nat, Error>)
    requires store.Valid()
    modifies store
    ensures store.Valid()
    ensures !CreateRequestValid(users, req) ==> r == Err(BadRequest)
    ensures !CreateRequestValid(users, req) ==>
      store.posts == old(store.posts) && store.media == old(store.media) && store.tags == old(store.tags)
    ensures CreateRequestValid(users, req) ==> (r.Ok? <==> !HasRepeat(req.taggedUsers))
    ensures CreateRequestValid(users, req) && r.Err? ==> r.error == ServerError
    ensures r.Ok? ==> r.value == old(store.nextId)
    ensures CreateRequestValid(users, req) ==>
      store.posts == old(store.posts)[old(store.nextId) := CreatedPost(author, req)]
    ensures CreateRequestValid(users, req) ==> store.nextMediaId == old(store.nextMediaId) + |req.mediaFiles|
    ensures CreateRequestValid(users, req) ==>
      AttachedInOrder(store.media, old(store.nextMediaId), old(store.nextId), req.mediaFiles)
    ensures CreateRequestValid(users, req) ==> forall id :: id in store.media && !(id in old(store.media)) ==>
      old(store.nextMediaId) <= id < store.nextMediaId
    ensures CreateRequestValid(users, req) ==>
      forall id :: id in old(store.media) ==> id in store.media && store.media[id] == old(store.media)[id]
    ensures r.Ok? ==> store.tags == old(store.tags) + TagsFor(r.value, req.taggedUsers)
    // The server-error path keeps the post, its media and the tags of the ids before the repeat.
    ensures CreateRequestValid(users, req) && r.Err? ==>
      old(store.tags) <= store.tags <= old(store.tags) + TagsFor(old(store.nextId), req.taggedUsers)
    ensures CreateRequestValid(users, req) && r.Err? ==>
      exists j :: 0 < j < |req.taggedUsers| && !HasRepeat(req.taggedUsers[..j]) && req.taggedUsers[j] in req.taggedUsers[..j] &&
        store.tags == old(store.tags) + TagsFor(old(store.nextId), req.taggedUsers[..j])
  {
    if !CreateRequestValid(users, req) {
      return Err(BadRequest);
    }
    var postId := store.InsertPost(CreatedPost(author, req));
    AttachMedia(store, postId, req.mediaFiles);
    var ok := TagUsers(store, postId, req.taggedUsers);
    r := if ok then Ok(postId) else Err(ServerError);
  }

  /** The media loop of `create`: one attachment per file, `order` set to the file's position. */
  method AttachMedia(store: PostStore, postId: nat, files: seq<string>)
    requires store.Valid() && postId in store.posts
    modifies store`media, store`nextMediaId
    ensures store.Valid()
    ensures store.nextMediaId == old(store.nextMediaId) + |files|
    ensures AttachedInOrder(store.media, old(store.nextMediaId), postId, files)
    ensures forall id :: id in store.media && !(id in old(store.media)) ==> old(store.nextMediaId) <= id < store.nextMediaId
    ensures forall id :: id in old(store.media) ==> id in store.media && store.media[id] == old(store.media)[id]
  {
    var base := store.nextMediaId;
    var i := 0;
    while i < |files|
      invariant store.Valid() && postId in store.posts
      invariant 0 <= i <= |files|
      invariant store.nextMediaId == base + i
      invariant AttachedInOrder(store.media, base, postId, files[..i])
      invariant forall id :: id in store.media && !(id in old(store.media)) ==> base <= id < store.nextMediaId
      invariant forall id :: id in old(store.media) ==> id in store.media && store.media[id] == old(store.media)[id]
    {
      var _ := store.InsertMedia(PostMedia(postId, MediaTypeFor(files[i]), files[i], i));
      i := i + 1;
    }
    assert files[..i] == files;
  }

  /**
   * The tag loop of `create` for a post with no tags yet: one tag per id;
   * the first repeated id stops it with the earlier tags already written.
   */
  method TagUsers(store: PostStore, postId: nat, ids: seq<int>) returns (ok: bool)
    requires store.Valid() && postId in store.posts
    requires forall tag :: tag in store.tags ==> tag.post != postId
    requires forall x :: x in ids ==> 0 <= x
    modifies store`tags
    ensures store.Valid()
    ensures ok <==> !HasRepeat(ids)
    ensures ok ==> store.tags == old(store.tags) + TagsFor(postId, ids)
    // On failure `ids[j]` is the first id that repeats, and exactly the tags of the ids before it were written.
    ensures !ok ==>
      exists j :: 0 < j < |ids| && !HasRepeat(ids[..j]) && ids[j] in ids[..j] &&
        store.tags == old(store.tags) + TagsFor(postId, ids[..j])
    ensures old(store.tags) <= store.tags <= old(store.tags) + TagsFor(postId, ids)
  {
    var j := 0;
    while j < |ids|
      invariant store.Valid() && postId in store.posts
      invariant 0 <= j <= |ids|
      invariant !HasRepeat(ids[..j])
      invariant store.tags == old(store.tags) + TagsFor(postId, ids[..j])
    {
      assert ids[j] in ids;
      var added := store.InsertTag(PostTag(postId, ids[j] as nat));
      if !added {
        var k :| 0 <= k < j && ids[k] == ids[j] by {
          assert PostTag(postId, ids[j] as nat) in TagsFor(postId, ids[..j]);
          var x :| x in ids[..j] && 0 <= x && PostTag(postId, ids[j] as nat) == PostTag(postId, x as nat);
        }
        assert ids[..j + 1][k] == ids[k] && ids[..j + 1][j] == ids[j];
        TagsForPrefix(postId, ids, j);
        assert ids[..j][k] == ids[k];
        assert ids[j] in ids[..j];
        assert 0 < j < |ids| && !HasRepeat(ids[..j]) && store.tags == old(store.tags) + TagsFor(postId, ids[..j]);
        return false;
      }
      forall a | 0 <= a < j ensures ids[a] != ids[j] {
        assert ids[a] in ids && ids[a] in ids[..j];
        assert PostTag(postId, ids[a] as nat) in TagsFor(postId, ids[..j]);
      }
      TagsForSnoc(postId, ids[..j], ids[j]);
      assert ids[..j + 1] == ids[..j] + [ids[j]];
      var next := ids[..j + 1];
      assert !HasRepeat(next) by {
        forall a, b | 0 <= a < b < j + 1 ensures next[a] != next[b] {
          if b < j {
            assert ids[..j][a] == ids[a] && ids[..j][b] == ids[b];
          }
        }
      }
      j := j + 1;
    }
    assert ids[..j] == ids;
    ok := true;
  }

  /**
   * Attachments created for one post come back in upload order: the
   * default ordering puts the file at position `i` before the one at `j`
   * exactly when `i < j`.
   */
  lemma CreatedMediaInUploadOrder(media: map<nat, PostMedia>, base: nat, postId: nat, files: seq<string>, i: nat, j: nat)
    requires AttachedInOrder(media, base, postId, files)
    requires i < |files| && j < |files|
    ensures base + i in media && base + j in media
    ensures MediaBefore(media, base + i, base + j) <==> i < j
  {
    assert base <= base + i < base + |files|;
    assert base <= base + j < base + |files|;
  }
}
