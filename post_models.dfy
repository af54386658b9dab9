/// The post tables (backend/apps/posts/models.py): posts with their type,
/// privacy, counters and soft-delete flag; media attachments ordered by
/// position; and user tags, unique per (post, user).
module PostModels {
  import opened Common

  // ---------------------------------------------------------------------
  // Choices and defaults
  // ---------------------------------------------------------------------

  datatype PostType = Text | Image | Video | Link

  const DefaultPostType: PostType := Text

  function PostTypeName(t: PostType): string
  {
    match t
    case Text => "text"
    case Image => "image"
    case Video => "video"
    case Link => "link"
  }

  /** The `post_type` choice field: exactly the four stored names are accepted. */
  function ParsePostType(s: string): (r: Option<PostType>)
    ensures r.Some? ==> PostTypeName(r.value) == s
  {
    if s == "text" then Some(Text)
    else if s == "image" then Some(Image)
    else if s == "video" then Some(Video)
    else if s == "link" then Some(Link)
    else None
  }

  lemma PostTypeRoundTrip(t: PostType, s: string)
    ensures ParsePostType(s) == Some(t) <==> s == PostTypeName(t)
  {
  }

  /**
   * Privacy is stored as a string; the three choices are the only values
   * the serializers accept, but the visibility check also has to say what
   * any other stored value means.
   */
  const PublicPrivacy: string := "public"
  const FriendsPrivacy: string := "friends"
  const PrivatePrivacy: string := "private"
  const DefaultPrivacy: string := FriendsPrivacy

  predicate IsPrivacyChoice(s: string)
  {
    s == PublicPrivacy || s == FriendsPrivacy || s == PrivatePrivacy
  }

  datatype Post = Post(
    author: UserId,
    content: string,
    postType: PostType,
    privacy: string,
    location: string,
    likesCount: nat,
    commentsCount: nat,
    isDeleted: bool)

  /** A freshly created row: no reactions, no comments, not deleted. */
  function NewPost(author: UserId, content: string, postType: PostType, privacy: string, location: string): Post
  {
    Post(author, content, postType, privacy, location, 0, 0, false)
  }

  lemma NewPostDefaults(author: UserId, content: string, t: PostType, privacy: string, location: string)
    ensures var p := NewPost(author, content, t, privacy, location);
      p.likesCount == 0 && p.commentsCount == 0 && !p.isDeleted && p.author == author
  {
  }

  // ---------------------------------------------------------------------
  // __str__
  // ---------------------------------------------------------------------

  const PreviewLength: nat := 50

  /** The content preview of `__str__`: at most 50 characters, then an ellipsis if cut. */
  function Preview(content: string): (r: string)
    ensures |content| <= PreviewLength ==> r == content
    ensures |content| > PreviewLength ==> |r| == PreviewLength + 3 && StartsWith(content, r[..PreviewLength]) && r[PreviewLength..] == "..."
  {
    if |content| > PreviewLength then content[..PreviewLength] + "..." else content
  }

  /**
   * The preview is at most 53 characters and at most 3 longer than the
   * content. It equals the content exactly when nothing is cut, or when the
   * cut content already ended in the ellipsis it would get.
   */
  lemma PreviewBounds(content: string)
    ensures |Preview(content)| <= PreviewLength + 3
    ensures |Preview(content)| <= |content| + 3
    ensures Preview(content) == content <==>
      |content| <= PreviewLength || (|content| == PreviewLength + 3 && content[PreviewLength..] == "...")
  {
    if |content| > PreviewLength {
      var r := Preview(content);
      assert r[..PreviewLength] == content[..PreviewLength];
      if |content| == PreviewLength + 3 && content[PreviewLength..] == "..." {
        assert r == r[..PreviewLength] + r[PreviewLength..];
        assert content == content[..PreviewLength] + content[PreviewLength..];
      }
    }
  }

  // ---------------------------------------------------------------------
  // PostMedia, PostTag
  // ---------------------------------------------------------------------

  datatype MediaType = ImageMedia | VideoMedia

  /** One attachment: its post, its kind, the uploaded file's MIME type, and its position. */
  datatype PostMedia = PostMedia(post: nat, mediaType: MediaType, contentType: string, order: nat)

  /**
   * The default ordering of attachments: by `order`, then by creation
   * (the id, handed out in creation order).
   */
  predicate MediaBefore(media: map<nat, PostMedia>, i: nat, j: nat)
    requires i in media && j in media
  {
    media[i].order < media[j].order || (media[i].order == media[j].order && i < j)
  }

  /** The attachment ordering is a strict total order on distinct rows. */
  lemma MediaOrderTotal(media: map<nat, PostMedia>, i: nat, j: nat, k: nat)
    requires i in media && j in media && k in media
    ensures !MediaBefore(media, i, i)
    ensures i != j ==> (MediaBefore(media, i, j) <==> !MediaBefore(media, j, i))
    ensures MediaBefore(media, i, j) && MediaBefore(media, j, k) ==> MediaBefore(media, i, k)
  {
  }

  /** `unique_together = ('post', 'user')`: a tag is identified by its pair. */
  datatype PostTag = PostTag(post: nat, user: UserId)

  // ---------------------------------------------------------------------
  // The tables
  // ---------------------------------------------------------------------

  /** The post, media and tag tables, with their id counters. */
  class PostStore {
    var posts: map<nat, Post>
    var nextId: nat
    var media: map<nat, PostMedia>
    var nextMediaId: nat
    var tags: set<PostTag>

    ghost predicate Valid()
      reads this
    {
      && 1 <= nextId && 1 <= nextMediaId
      && (forall id :: id in posts ==> 0 < id < nextId)
      && (forall id :: id in media ==> 0 < id < nextMediaId && media[id].post in posts)
      && (forall tag :: tag in tags ==> tag.post in posts)
    }

    constructor ()
      ensures Valid()
      ensures posts == map[] && media == map[] && tags == {}
    {
      posts := map[];
      nextId := 1;
      media := map[];
      nextMediaId := 1;
      tags := {};
    }

    /** `Post.objects.create(...)`. */
    method InsertPost(p: Post) returns (id: nat)
      requires Valid()
      modifies this`posts, this`nextId
      ensures Valid()
      ensures id == old(nextId) && id !in old(posts) && nextId == id + 1
      ensures posts == old(posts)[id := p]
    {
      id := nextId;
      posts := posts[id := p];
      nextId := nextId + 1;
    }

    /** `post.save()` after changing fields of an existing row. */
    method UpdatePost(id: nat, p: Post)
      requires Valid() && id in posts
      modifies this`posts
      ensures Valid()
      ensures posts == old(posts)[id := p]
    {
      posts := posts[id := p];
    }

    /** `PostMedia.objects.create(...)`. */
    method InsertMedia(m: PostMedia) returns (id: nat)
      requires Valid() && m.post in posts
      modifies this`media, this`nextMediaId
      ensures Valid()
      ensures id == old(nextMediaId) && id !in old(media) && nextMediaId == id + 1
      ensures media == old(media)[id := m]
    {
      id := nextMediaId;
      media := media[id := m];
      nextMediaId := nextMediaId + 1;
    }

    /** `PostTag.objects.create(...)`: the database refuses a second row for the same pair. */
    method InsertTag(tag: PostTag) returns (ok: bool)
      requires Valid() && tag.post in posts
      modifies this`tags
      ensures Valid()
      ensures ok <==> tag !in old(tags)
      ensures tags == old(tags) + {tag}
    {
      ok := tag !in tags;
      tags := tags + {tag};
    }
  }
}
