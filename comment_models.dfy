/// The comment table (backend/apps/comments/models.py): comments on posts,
/// optionally replying to another comment, soft-deleted, and keeping the
/// post's denormalized `comments_count` in step when a new one is saved.
module CommentModels {
  import opened Common
  import opened PostModels

  /** The `max_length` of the content column. */
  const CommentMaxLength: nat := 1000

  datatype Comment = Comment(
    post: nat,
    author: UserId,
    content: string,
    parent: Option<nat>,
    likesCount: nat,
    isDeleted: bool)

  type Comments = map<nat, Comment>

  /** `is_reply`: the comment has a parent. */
  predicate IsReply(c: Comment)
  {
    c.parent.Some?
  }

  /** The live direct replies of comment `id`. */
  function LiveReplies(comments: Comments, id: nat): set<nat>
  {
    set r | r in comments && comments[r].parent == Some(id) && !comments[r].isDeleted
  }

  /** `replies_count`: the number of live direct replies. */
  function RepliesCount(comments: Comments, id: nat): nat
  {
    |LiveReplies(comments, id)|
  }

  /**
   * A live comment is a reply exactly when it is counted among some
   * comment's live replies, namely its parent's.
   */
  lemma ReplyIffCountedUnderParent(comments: Comments, id: nat)
    requires id in comments && !comments[id].isDeleted
    ensures IsReply(comments[id]) <==> exists p :: id in LiveReplies(comments, p)
    ensures IsReply(comments[id]) ==> id in LiveReplies(comments, comments[id].parent.value)
  {
    if IsReply(comments[id]) {
      assert id in LiveReplies(comments, comments[id].parent.value);
    }
  }

  /** The live comments of post `postId`. */
  function LiveComments(comments: Comments, postId: nat): set<nat>
  {
    set id | id in comments && comments[id].post == postId && !comments[id].isDeleted
  }

  /** The value `comments_count` is recomputed to. */
  function LiveCount(comments: Comments, postId: nat): nat
  {
    |LiveComments(comments, postId)|
  }

  /** Every post's stored counter equals its number of live comments. */
  ghost predicate CountersAgree(posts: map<nat, Post>, comments: Comments)
  {
    forall p :: p in posts ==> posts[p].commentsCount == LiveCount(comments, p)
  }

  /** The row a soft delete leaves behind. */
  function SoftDeleted(c: Comment): Comment
  {
    c.(isDeleted := true)
  }

  /** Adding a row moves the live count of its own post by one if it is live, and no other. */
  lemma InsertLiveCount(comments: Comments, id: nat, c: Comment, p: nat)
    requires id !in comments
    ensures LiveCount(comments[id := c], p) == LiveCount(comments, p) + (if c.post == p && !c.isDeleted then 1 else 0)
  {
    var next := comments[id := c];
    var before := LiveComments(comments, p);
    var added := if c.post == p && !c.isDeleted then {id} else {};
    forall x ensures x in LiveComments(next, p) <==> x in before + added {
      if x != id {
        assert x in next <==> x in comments;
      }
    }
    assert LiveComments(next, p) == before + added;
    assert id !in before;
  }

  /** A soft delete of a live row lowers its post's live count by one, and no other. */
  lemma SoftDeleteLiveCount(comments: Comments, id: nat, p: nat)
    requires id in comments
    ensures var was := comments[id];
      LiveCount(comments[id := SoftDeleted(was)], p)
      == LiveCount(comments, p) - (if was.post == p && !was.isDeleted then 1 else 0)
  {
    var next := comments[id := SoftDeleted(comments[id])];
    if comments[id].post == p && !comments[id].isDeleted {
      assert LiveComments(next, p) == LiveComments(comments, p) - {id};
    } else {
      assert LiveComments(next, p) == LiveComments(comments, p);
    }
  }

  /** A soft delete of a live reply lowers its parent's `replies_count` by one. */
  lemma SoftDeleteRepliesCount(comments: Comments, id: nat)
    requires id in comments && comments[id].parent.Some? && !comments[id].isDeleted
    ensures var parent := comments[id].parent.value;
      RepliesCount(comments[id := SoftDeleted(comments[id])], parent) == RepliesCount(comments, parent) - 1
  {
    var parent := comments[id].parent.value;
    var next := comments[id := SoftDeleted(comments[id])];
    assert LiveReplies(next, parent) == LiveReplies(comments, parent) - {id};
  }

  /** The comment table with its id counter. */
  class CommentStore {
    var comments: Comments
    var nextId: nat

    ghost predicate Valid()
      reads this
    {
      1 <= nextId && forall id :: id in comments ==> 0 < id < nextId
    }

    constructor ()
      ensures Valid() && comments == map[]
    {
      comments := map[];
      nextId := 1;
    }

    /**
     * `Comment.save` on a new row: insert it and, when it is live, recompute
     * its post's `comments_count` from the table that now holds it.
     */
    method Insert(store: PostStore, c: Comment) returns (id: nat)
      requires Valid() && store.Valid() && c.post in store.posts
      modifies this, store`posts
      ensures Valid() && store.Valid()
      ensures id == old(nextId) && id !in old(comments)
      ensures comments == old(comments)[id := c]
      ensures !c.isDeleted ==>
        store.posts == old(store.posts)[c.post := old(store.posts)[c.post].(commentsCount := LiveCount(comments, c.post))]
      ensures c.isDeleted ==> store.posts == old(store.posts)
      ensures CountersAgree(old(store.posts), old(comments)) ==> CountersAgree(store.posts, comments)
    {
      id := nextId;
      comments := comments[id := c];
      nextId := nextId + 1;
      if !c.isDeleted {
        store.UpdatePost(c.post, store.posts[c.post].(commentsCount := LiveCount(comments, c.post)));
      }
      forall p | p in store.posts
        ensures CountersAgree(old(store.posts), old(comments)) ==> store.posts[p].commentsCount == LiveCount(comments, p)
      {
        InsertLiveCount(old(comments), id, c, p);
      }
    }

    /** `Comment.save` on an existing row: the row is replaced and no counter is touched. */
    method Resave(id: nat, c: Comment)
      requires Valid() && id in comments
      modifies this`comments
      ensures Valid()
      ensures comments == old(comments)[id := c]
    {
      comments := comments[id := c];
    }
  }

  /** Every comment's post is in the post table (the foreign key). */
  ghost predicate Linked(comments: Comments, posts: map<nat, Post>)
  {
    forall id :: id in comments ==> comments[id].post in posts
  }
}
