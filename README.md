# Facebook_Clone backend core, modelled in Dafny

This project models the data rules and request handlers of a small
Django/REST-framework social network backend, and proves properties of them.
The backend has five apps:

- **friendships**: directed request rows with a status (pending, accepted,
  declined, blocked), plus the graph queries over them (friends, mutual
  friends, suggestions) and the send / respond / unfriend / block / unblock
  handlers;
- **likes**: one reaction per user and subject, six reaction kinds, and the
  toggle, grouping and check handlers;
- **posts**: posts with privacy and a soft-delete flag, ordered media
  attachments, user tags, the visibility check, the timeline and the
  owner-only update and delete;
- **comments**: comments and replies on posts, soft delete, the
  denormalized `comments_count` of a post, and the content and parent
  validators;
- **notifications**: read and seen flags, per-item and bulk marking, counts,
  and per-user channel preferences.

The ORM is replaced by in-memory tables. A table is a `map` from primary key
to row. A table that a handler writes is a class holding that map and its
next id; its methods carry `modifies` clauses. Ids are handed out in creation
order, so the `-created_at` ordering is descending id order
(`Common.NewestFirst`). A handler's HTTP error is an `Error` value:
`BadRequest`, `Forbidden`, `NotFound`, or `ServerError` for an exception the
code does not catch (`MultipleObjectsReturned` from a `.get`, or a
uniqueness violation on insert). A `.get(...)` query is `Common.Lookup`:
`Absent`, `Unique(id)` or `Ambiguous`. The clock is a `now` parameter.

One module per source file:

| module | file |
|---|---|
| `Common` | shared types, Python's `str.strip`, newest-first ordering |
| `FriendshipModels`, `FriendshipSerializers`, `FriendshipViews` | `friendship_*.dfy` |
| `LikeModels`, `LikeViews` | `like_*.dfy` |
| `PostModels`, `PostSerializers`, `PostViews` | `post_*.dfy` |
| `CommentModels`, `CommentSerializers`, `CommentViews` | `comment_*.dfy` |
| `NotificationModels`, `NotificationViews` | `notification_*.dfy` |

Where the code does something other than what it evidently means, the model
follows the code:

- `toggle_like` writes its recount to `like_count`, but saves only
  `likes_count`, so the stored counter never changes. `LikeViews.ToggleLike`
  reports the stored counter unchanged.
- The send-request validator has no branch for a declined row, so a declined
  row lets a new request through. If the declined row runs the same way, the
  insert hits the ordered-pair constraint, which is a `ServerError`. If it
  runs the other way, a second row appears for the pair, and `get_friendship`
  for that pair raises from then on (`FriendshipViews.DeclinedAllowsSecondEdge`).
- `validate_tagged_users` lets a repeated id through. The second tag insert
  then violates `unique_together`, which is a `ServerError`, and the post and
  media rows written before it stay, as do the tags of the ids before the
  repeat (`PostSerializers.CreatePost`).
- The friend-suggestion query filters on the related name
  `received_friend_requests`. `Friendship` declares `received_from_requests`,
  so the query cannot run as written. The model states the evident
  friends-of-friends query (`FriendshipModels.SuggestionPool`).

## Model

| member | source | states |
|---|---|---|
| Common.Strip | backend/apps/comments/serializers.py:113 | The result is a slice of the input. Everything outside the slice is whitespace. A non-empty result neither starts nor ends with whitespace. The result is empty iff the input is blank. |
| Common.Classify | backend/apps/friendships/models.py:69-75 | A `.get` over the matching keys: Absent iff there are none, Unique(id) iff the key set is exactly {id}, Ambiguous iff two distinct keys match. |
| Common.NewestFirst | backend/apps/posts/models.py:54-55 | The `-created_at` ordering lists exactly the given ids, each once, in strictly decreasing order. |
| Common.NewestN | backend/apps/posts/views.py:77-79 | The ordered slice `[:n]`: min(n, count) ids, strictly decreasing, all from the set; every id left out is older than every id listed. |
| Common.PickUpTo | backend/apps/friendships/models.py:124 | `distinct()[:limit]` without an ordering: min(limit, size) distinct members of the set. |
| FriendshipModels.AreFriendsSymmetric | backend/apps/friendships/models.py:58-64 | `are_friends(a, b)` iff `are_friends(b, a)`. |
| FriendshipModels.GetFriendship | backend/apps/friendships/models.py:66-75 | Absent iff no row links a and b in either direction; Unique gives the only such row; Ambiguous iff two rows link them (the `.get` raises). |
| FriendshipModels.GetFriendshipSymmetric | backend/apps/friendships/models.py:66-75 | `get_friendship(a, b)` and `get_friendship(b, a)` give the same outcome. |
| FriendshipModels.UniquePairsNeverAmbiguous | backend/apps/friendships/models.py:66-75 | With at most one row per unordered pair, `get_friendship` never raises. |
| FriendshipModels.FriendsAreAreFriends | backend/apps/friendships/models.py:77-91 | v is in u's friend set iff `are_friends(u, v)`. |
| FriendshipModels.FriendsSymmetric | backend/apps/friendships/models.py:80-89 | v is u's friend iff u is v's friend. |
| FriendshipModels.FriendsExcludeSelf | backend/apps/friendships/models.py:49-56 | With no self-edges, as `clean()` enforces, nobody is their own friend. |
| FriendshipModels.FriendsAmongStep | backend/apps/friendships/models.py:84-89 | One more row visited by the loop adds its other endpoint to the friend set exactly when that row is accepted and touches u. |
| FriendshipModels.GetFriends | backend/apps/friendships/models.py:77-91 | The loop's set is exactly the other endpoints of the accepted rows touching the user, so rows in both directions collapse to one friend; v is in it iff `are_friends(user, v)`. |
| FriendshipModels.MutualFriends | backend/apps/friendships/models.py:94-101 | The result is a subset of each friend set, and v is in it iff v is a friend of both. |
| FriendshipModels.MutualFriendsSymmetric | backend/apps/friendships/models.py:94-101 | The mutual friends of a and b are those of b and a. |
| FriendshipModels.BothDirectionsCollapse | backend/apps/friendships/tests.py:111-136 | Accepted rows in both directions between u and m give u exactly one friend, and the mutual friends of u with u are {m}. |
| FriendshipModels.SuggestionRules | backend/apps/friendships/models.py:103-126 | A suggestion is not the user, not a friend, has no row of any status with the user, and is a friend of one of the user's friends. |
| FriendshipModels.GetFriendSuggestions | backend/apps/friendships/models.py:103-126 | min(limit, pool size) distinct suggestions, each in the pool, none the user, a friend, or linked to the user by a row. |
| FriendshipViews.Suggestions | backend/apps/friendships/views.py:184-190 | The action uses the default limit of ten: min(10, pool size) distinct users from the pool. |
| FriendshipModels.FriendshipTable.Create | backend/apps/friendships/models.py:39-56 | `objects.create`: a self-edge is refused by `clean()`; any other refusal is the duplicate pair; the insert succeeds iff requester ≠ addressee and no row has that ordered pair; on success exactly that row is added under a fresh id. Self-edges stay absent and ordered pairs stay unique. |
| FriendshipModels.FriendshipTable.Save | backend/apps/friendships/models.py:49-56 | Re-saving a row: a self-edge is refused, and any other refusal is the duplicate pair; it succeeds iff no other row holds the new ordered pair; on success only that row changes, stamped with `now`. |
| FriendshipModels.FriendshipTable.Delete | backend/apps/friendships/views.py:126 | Removes exactly that row; both table invariants are kept. |
| FriendshipSerializers.ValidateSendRequest | backend/apps/friendships/serializers.py:25-59 | An unknown user is refused, then the caller themselves, then a pending, accepted or blocked row in either direction. It succeeds iff the user exists, is not the caller, and every row between them is declined. On success it gives back the resolved target. Two rows between them make the lookup raise. |
| FriendshipSerializers.FriendsCannotRequest | backend/apps/friendships/serializers.py:42-56 | A request between users who are already friends is refused. |
| FriendshipSerializers.FreshPairCanRequest | backend/apps/friendships/serializers.py:42-59 | With no row between the two, any other existing user can be asked, and the result is that user. |
| FriendshipSerializers.ParseAction | backend/apps/friendships/serializers.py:62-64 | The action is accepted iff it is exactly `accept` or `decline`. |
| FriendshipSerializers.ParseActionRoundTrip | backend/apps/friendships/serializers.py:62-64 | Parsing gives action a iff the string is a's choice name. |
| FriendshipSerializers.MutualFriendsCount | backend/apps/friendships/serializers.py:80-82 | The count is at most each user's friend count, and is 0 iff no user is a friend of both. |
| FriendshipSerializers.MutualFriendsCountSymmetric | backend/apps/friendships/serializers.py:80-82 | The count is the same from either side. |
| FriendshipSerializers.FriendshipDate | backend/apps/friendships/serializers.py:84-89 | A date is given iff the two are friends, and it is the accepted row's last-save stamp; nothing is given otherwise. Two rows make the lookup raise. |
| FriendshipViews.SendRequest | backend/apps/friendships/views.py:24-46 | Succeeds iff validation passes and no row has the same ordered pair, and then exactly one pending row from caller to target is added. A validation failure is a 400; every other failure (two rows between the pair, or a taken ordered pair) is a 500; errors change nothing. |
| FriendshipViews.SendKeepsPairsUnique | backend/apps/friendships/views.py:35-39 | With no earlier row between the pair, the new pending row keeps one row per unordered pair. |
| FriendshipViews.DeclinedAllowsSecondEdge | backend/apps/friendships/serializers.py:42-59 | A declined row from b to a lets a ask b; the insert succeeds, and afterwards `get_friendship` for the pair raises. |
| FriendshipViews.Respond | backend/apps/friendships/views.py:49-78 | 404 iff the row is not pending or not addressed to the caller; otherwise 400 iff the action is not a choice. Errors change nothing. On success only that row changes: accepted or declined, stamped with `now`. |
| FriendshipViews.AcceptMakesFriends | backend/apps/friendships/views.py:64-66 | After accept, the requester and addressee are friends. |
| FriendshipViews.DeclineLeavesStrangers | backend/apps/friendships/views.py:68-70 | After decline of the only row between them, they are not friends, and the addressee may send a request to the requester. |
| FriendshipViews.ReceivedRequests | backend/apps/friendships/views.py:80-89 | Lists exactly the pending rows addressed to the caller, newest first. |
| FriendshipViews.SentRequests | backend/apps/friendships/views.py:91-100 | Lists exactly the pending rows sent by the caller, newest first. |
| FriendshipViews.Unfriend | backend/apps/friendships/views.py:114-130 | 404 iff the user does not exist. 500 iff two rows link the pair (`get_friendship` raises). 400 iff there is no row or the one row is not accepted. Success iff the one row is accepted; then only that row is deleted and they are no longer friends. Errors change nothing. |
| FriendshipViews.UnfriendEndsFriendship | backend/apps/friendships/views.py:126 | Deleting the only row between two users leaves no row between them, so they are not friends. |
| FriendshipViews.Block | backend/apps/friendships/views.py:132-159 | 404 iff the user is unknown, 400 iff blocking oneself, 500 iff two rows link the pair; success otherwise. On success exactly one row links the pair: caller → target, blocked, stamped with `now`. It is the old row rewritten or a new one; no other row changes, and the two are not friends. |
| FriendshipViews.Unblock | backend/apps/friendships/views.py:161-182 | 404 iff the user is unknown; 400 iff there is no blocked row from the caller to the target. Success iff a blocked row from the caller to the target exists, and then only that row is deleted and no such row remains. |
| FriendshipViews.BlockedPartyCannotUnblock | backend/apps/friendships/views.py:166-176 | When a blocks b, b has no blocked row toward a, so b's unblock fails. |
| LikeModels.ParseReaction | backend/apps/likes/models.py:11-18 | A parsed kind's stored name is the input string. |
| LikeModels.ReactionRoundTrip | backend/apps/likes/models.py:11-25 | Parsing gives kind k iff the string is k's stored name: exactly six names are accepted. |
| LikeModels.ParseSubject | backend/apps/likes/views.py:17-23 | A content type is accepted iff it is `post` or `comment`, and the result names it. |
| LikeModels.FindLike | backend/apps/likes/views.py:129-139 | Absent iff the user has no reaction to the subject; Unique gives the only such row. |
| LikeModels.UniqueKeyNeverAmbiguous | backend/apps/likes/models.py:35 | Under `unique_together` the lookup never finds two rows. |
| LikeModels.LikeTable.Insert | backend/apps/likes/views.py:47-52 | The create branch of `get_or_create`, run when no row has the key: the row is added under a fresh id, and uniqueness is kept. |
| LikeModels.LikeTable.SetReaction | backend/apps/likes/views.py:62-63 | Only that row's kind changes; uniqueness is kept. |
| LikeModels.LikeTable.Delete | backend/apps/likes/views.py:57 | Only that row is removed; uniqueness is kept. |
| LikeViews.FindTarget | backend/apps/likes/views.py:26-32 | The object is found iff its id is in the table of its type; the result is its deletion flag and stored counter. |
| LikeViews.RequestedReaction | backend/apps/likes/serializers.py:14-19 | No field gives `like`. A given field is valid iff it names one of the six kinds, and then the result has that name. |
| LikeViews.ToggleEffect | backend/apps/likes/views.py:47-69 | A toggle keeps one reaction per subject. The caller's reaction flips: if it was the same kind it becomes none, otherwise it becomes that kind. Every row with another key stays as it was, and no row with another key appears. |
| LikeViews.ToggleSameKindTwice | backend/apps/likes/views.py:54-59 | Two toggles of one kind end with no reaction unless the reaction was already that kind. Starting from no reaction, the table is restored exactly. |
| LikeViews.ToggleLike | backend/apps/likes/views.py:11-83 | Gates: 400 for an unknown content type, 404 iff the object is missing, 400 iff it is soft-deleted or the kind is invalid; an error changes nothing. On success the table is the toggle of the old one. The answered reaction is the caller's new reaction, which is the flipped old one; liked iff a reaction remains; the counter is the stored one, unchanged. |
| LikeViews.FirstOfEachKind | backend/apps/likes/views.py:105-109 | Over ids listed newest first, there is a group for a kind iff some listed row has it. Each group holds a listed id of that kind, and no listed id of that kind is newer. |
| LikeViews.GetLikes | backend/apps/likes/views.py:86-114 | 400 iff the content type is unknown. The total is the number of reactions on the subject. There is a group per kind present, and only then. Each group holds that kind's newest reaction. |
| LikeViews.CheckUserReaction | backend/apps/likes/views.py:116-143 | 400 for an unknown content type. No reaction iff the caller has none; with exactly one row the answer is that row's kind. Two rows raise. |
| LikeViews.CheckAfterToggle | backend/apps/likes/views.py:116-143 | After a toggle, the check reports exactly the reaction the toggle answered. |
| CommentModels.InsertLiveCount | backend/apps/comments/models.py:57-67 | Adding a row raises its post's live count by one if it is live, and leaves every other post's count alone. |
| CommentModels.SoftDeleteLiveCount | backend/apps/comments/views.py:122-130 | A soft delete lowers its post's live count by one if the row was live; other posts are unaffected. |
| CommentModels.ReplyIffCountedUnderParent | backend/apps/comments/models.py:49-55 | A live comment is a reply (`is_reply`) iff some comment counts it among its live replies, and then its parent does. |
| CommentModels.SoftDeleteRepliesCount | backend/apps/comments/models.py:53-55 | Soft-deleting a live reply lowers its parent's `replies_count` by one. |
| CommentModels.CommentStore.Insert | backend/apps/comments/models.py:57-67 | A new row is inserted under a fresh id. If it is live, its post's `comments_count` becomes that post's live count; a row inserted already deleted touches no post. Stored counters that agreed with the live counts still agree. |
| CommentModels.CommentStore.Resave | backend/apps/comments/models.py:57-62 | Re-saving an existing row replaces only it and touches no counter. |
| CommentSerializers.ValidateCommentContent | backend/apps/comments/serializers.py:108-113 | Refused as empty iff blank; refused as too long iff not blank and over 1000 characters before stripping. Accepted content is the stripped input, 1 to 1000 characters, with no whitespace at either end. |
| CommentSerializers.ValidateCommentContentIdempotent | backend/apps/comments/serializers.py:139-144 | Validating accepted content again gives it back unchanged. |
| CommentSerializers.ValidateParent | backend/apps/comments/serializers.py:115-123 | No parent is fine. A parent is accepted iff it names an existing, non-deleted comment; any refusal is a 400. |
| CommentSerializers.CreatedComment | backend/apps/comments/serializers.py:125-129 | The author and post come from the request and the URL. The content is the stripped content (1 to 1000 characters). It is a reply iff a parent was given. Counters start at 0, not deleted. |
| CommentSerializers.NestedReplies | backend/apps/comments/serializers.py:66-70 | min(5, replies_count) live direct replies, newest first; empty iff there are none; every reply left out is older than those shown. |
| CommentSerializers.UserHasLiked | backend/apps/comments/serializers.py:22-32 | True iff the caller is authenticated and has a reaction row on the comment. |
| CommentSerializers.UserReaction | backend/apps/comments/serializers.py:34-48 | A kind is reported only for a caller with a reaction row of that kind; two rows raise. |
| CommentSerializers.ReactionAgreesWithLiked | backend/apps/comments/serializers.py:22-48 | Under uniqueness the reaction never raises, is reported iff `user_has_liked`, and is the caller's reaction. |
| CommentViews.WorkingSet | backend/apps/comments/views.py:21-28 | Exactly the live comments of the post in the URL; empty when the id is 0. |
| CommentViews.CanCommentOnPost | backend/apps/comments/views.py:158-162 | Allowed iff the caller is the author or the privacy is public or friends. It is the view permission. |
| CommentViews.List | backend/apps/comments/views.py:39-58 | 404 iff the post is missing or deleted; 403 iff the caller may not view it; otherwise exactly its live top-level comments, newest first. |
| CommentViews.Replies | backend/apps/comments/views.py:136-143 | 404 iff the comment is not in the working set; otherwise exactly its live direct replies, newest first, `replies_count` of them. |
| CommentViews.Create | backend/apps/comments/views.py:60-88 | 404, 403 and 400 each iff their condition holds, where 400 covers an invalid body or a parent on another post; success iff all three gates pass; errors change nothing. On success the validated comment is inserted under a fresh id, the post's counter becomes its live count, and that count rises by one. Counters that agreed still agree. |
| CommentViews.UpdatedComment | backend/apps/comments/serializers.py:132-144 | An update changes at most the content, which becomes the stripped new content when one is sent. |
| CommentViews.Update | backend/apps/comments/views.py:90-109 | 404 iff the comment is not in the working set, so a deleted comment is never found. 403 iff the caller is not the author. 400 iff the body is invalid, and missing content is invalid unless the update is partial. Success iff all three gates pass. Errors change nothing. On success only that row changes, and no post's live count moves. |
| CommentViews.Destroy | backend/apps/comments/views.py:112-135 | 404 iff the comment is not in the working set; 403 iff the caller is not the author; success iff the comment is in the working set and the caller is its author; errors change nothing. On success the row is soft-deleted, the post's counter becomes its live count, and that count drops by one. Counters that agreed still agree. |
| PostModels.ParsePostType | backend/apps/posts/models.py:10-15 | A parsed type's stored name is the input string. |
| PostModels.PostTypeRoundTrip | backend/apps/posts/models.py:10-33 | Parsing gives type t iff the string is t's stored name. |
| PostModels.NewPostDefaults | backend/apps/posts/models.py:44-52 | A new post has both counters at 0 and is not deleted. |
| PostModels.Preview | backend/apps/posts/models.py:62-64 | Content up to 50 characters is shown whole. Longer content shows its first 50 characters followed by `...`. |
| PostModels.PreviewBounds | backend/apps/posts/models.py:62-64 | The preview is at most 53 characters and at most 3 longer than the content. It equals the content iff nothing is cut, or the content is 53 characters ending in `...`. |
| PostModels.MediaOrderTotal | backend/apps/posts/models.py:93-94 | Ordering by `order`, then creation, is a strict total order. |
| PostModels.PostStore.InsertPost | backend/apps/posts/serializers.py:96 | The post is added under a fresh id. |
| PostModels.PostStore.UpdatePost | backend/apps/posts/views.py:57-58 | Only that post's row changes. |
| PostModels.PostStore.InsertMedia | backend/apps/posts/serializers.py:101-106 | The attachment is added under a fresh id. |
| PostModels.PostStore.InsertTag | backend/apps/posts/models.py:111-112 | Succeeds iff the (post, user) pair is not yet tagged; the tag set then holds the pair. |
| PostSerializers.ValidateCreateContent | backend/apps/posts/serializers.py:57-65 | Refused iff empty with no media files; otherwise refused iff over 10000 characters; accepted content is unchanged. |
| PostSerializers.ValidateUpdateContent | backend/apps/posts/serializers.py:135-138 | Accepted iff at most 10000 characters, unchanged; empty content is allowed. |
| PostSerializers.UpdateContentWeaker | backend/apps/posts/serializers.py:57-65 | Update accepts all that create accepts; beyond that only empty content without files. |
| PostSerializers.ValidateTaggedUsers | backend/apps/posts/serializers.py:67-75 | Refused iff some id names no user, reporting exactly those ids; otherwise the list passes unchanged. |
| PostSerializers.MediaTypeFor | backend/apps/posts/serializers.py:119-126 | Video iff the MIME type starts with `video` and not `image`; image otherwise. |
| PostSerializers.InferPostType | backend/apps/posts/serializers.py:84-94 | A given type is kept. Without files the type is text. Otherwise it is image iff the first file is `image*`, video iff that file is `video*` and not `image*`, and unset for any other first file. |
| PostSerializers.PostTypeMatchesFirstMedia | backend/apps/posts/serializers.py:84-126 | The inferred type agrees with the first file's media type. A first file of another kind is stored as an image attachment on a text post. |
| PostSerializers.CreatePost | backend/apps/posts/serializers.py:77-117 | An invalid request is a 400 and changes nothing. A valid one succeeds iff no tagged id repeats, and otherwise it is a 500. Either way the post is inserted with the caller as author and one attachment per file at consecutive ids in upload order; old attachments are kept. On success there is one tag per listed user. On a 500 the tags of the ids before the first repeated id stay, and no others. |
| PostSerializers.AttachMedia | backend/apps/posts/serializers.py:98-106 | One attachment per file at consecutive fresh ids, each on the post, classified by MIME type, with `order` its position; old attachments unchanged. |
| PostSerializers.TagUsers | backend/apps/posts/serializers.py:108-115 | Succeeds iff no id repeats, and then adds exactly one tag per listed user. On failure the loop stops at the first id that repeats an earlier one, and exactly the tags of the ids before it are added. Either way only tags of listed users are added. |
| PostSerializers.CreatedMediaInUploadOrder | backend/apps/posts/serializers.py:98-106 | The attachments of one create come back in upload order. |
| PostViews.CanViewPost | backend/apps/posts/views.py:99-118 | Visible iff the caller is the author, or the privacy is public or friends. |
| PostViews.PrivateAndUnknownHidden | backend/apps/posts/views.py:99-118 | A private post, or one with any value other than the three choices, is hidden from everyone but the author. Among the choices, only private hides. |
| PostViews.WorkingSet | backend/apps/posts/views.py:17-27 | Exactly the live posts, newest first. |
| PostViews.MyPosts | backend/apps/posts/views.py:65-70 | Exactly the caller's live posts, newest first. |
| PostViews.Timeline | backend/apps/posts/views.py:72-82 | At most 20 live posts, each public or the caller's, newest first. It holds min(20, candidates) of them, and every candidate left out is older than all listed. |
| PostViews.TimelineVisible | backend/apps/posts/views.py:72-82 | Every timeline post passes the visibility check. |
| PostViews.Detail | backend/apps/posts/views.py:84-97 | 404 iff the post is missing or deleted; 403 iff the caller may not view it; success iff the post is live and viewable, and then the result is the stored post. |
| PostViews.DeletedPostNotFound | backend/apps/posts/views.py:84-97 | After a soft delete the post is not found for anyone, its author included. |
| PostViews.AuthorSeesOwnPost | backend/apps/posts/views.py:84-97 | The author can always open their own live post. |
| PostViews.UpdateKeepsOwnership | backend/apps/posts/serializers.py:128-133 | An update through `UpdatePostSerializer` (a full update) never changes the author, the type, the counters or the deletion flag. |
| PostViews.PerformUpdate | backend/apps/posts/views.py:39-44 | 404 iff the post is missing or deleted, then 400 iff the body is invalid, then 403 iff the caller is not the author; success iff the post is live, the body valid and the caller the author; errors change nothing. On success only the sent fields of that post change. |
| PostViews.Destroy | backend/apps/posts/views.py:46-63 | 404 iff the post is missing or deleted; 403 iff the caller is not the author; errors change nothing. On success only the deletion flag of that post is set. |
| NotificationModels.TypeNamesDistinct | backend/apps/notificatons/models.py:9-19 | The ten stored type names are distinct. |
| NotificationModels.NewNotification | backend/apps/notificatons/models.py:56-57 | A new notification is neither read nor seen; the subject reference is kept as given, possibly absent. |
| NotificationModels.MarkReadEffect | backend/apps/notificatons/models.py:73-75 | Marking read sets the read flag, leaves the seen flag and the other fields alone, and is idempotent up to the timestamp. |
| NotificationModels.MarkSeenEffect | backend/apps/notificatons/models.py:77-79 | Marking seen sets the seen flag, leaves the read flag and the other fields alone, and is idempotent up to the timestamp. |
| NotificationModels.NotificationTable.Create | backend/apps/notificatons/models.py:21-60 | A new row takes a fresh id, is built from the writable fields only, and starts neither read nor seen; no other row changes. |
| NotificationModels.NotificationTable.MarkAsRead | backend/apps/notificatons/models.py:73-75 | Only that row changes, to its marked-read form. |
| NotificationModels.NotificationTable.MarkAsSeen | backend/apps/notificatons/models.py:77-79 | Only that row changes, to its marked-seen form. |
| NotificationModels.NotificationTable.BulkUpdate | backend/apps/notificatons/views.py:91-94 | The filtered rows take their new values; every other row is unchanged and no key is added or removed. |
| NotificationModels.DefaultPreferences | backend/apps/notificatons/models.py:89-106 | All twelve channel flags default to on. |
| NotificationModels.PreferenceTable.GetOrCreate | backend/apps/notificatons/views.py:141-145 | Creates iff the user has no record, then with the defaults; the result is the user's record; an existing record is returned unchanged. |
| NotificationViews.MeansTrueIff | backend/apps/notificatons/views.py:39-41 | The parameter asks for read notifications iff it is four characters lower-casing to `t`, `r`, `u`, `e`; every other value asks for unread ones. |
| NotificationViews.ListNotifications | backend/apps/notificatons/views.py:27-43 | Exactly the caller's notifications that pass the optional type and `is_read` filters, newest first. |
| NotificationViews.TypeFilterExact | backend/apps/notificatons/views.py:33-36 | A type filter keeps exactly the caller's notifications of that type. |
| NotificationViews.MarkNotificationRead | backend/apps/notificatons/views.py:64-73 | 404 iff the notification is not the caller's, and nothing changes. Otherwise only it is marked read. |
| NotificationViews.MarkNotificationSeen | backend/apps/notificatons/views.py:76-85 | 404 iff the notification is not the caller's, and nothing changes. Otherwise only it is marked seen. |
| NotificationViews.AllReadEffect | backend/apps/notificatons/views.py:88-99 | After marking all read: no unread notification is left for the caller, the seen flags and the caller's rows are unchanged, and other users' rows are untouched. |
| NotificationViews.AllSeenEffect | backend/apps/notificatons/views.py:102-113 | The same for seen, leaving the read flags unchanged. |
| NotificationViews.MarkAllRead | backend/apps/notificatons/views.py:88-99 | The updated count is the number of the caller's unread notifications; the table becomes the all-read table. |
| NotificationViews.MarkAllSeen | backend/apps/notificatons/views.py:102-113 | The updated count is the number of the caller's unseen notifications; the table becomes the all-seen table. |
| NotificationViews.EmptyWhenAllFlagged | backend/apps/notificatons/views.py:121-128 | No unread (unseen) notification iff every notification of the caller is read (seen). |
| NotificationViews.NotificationCounts | backend/apps/notificatons/views.py:116-134 | unread ≤ total and unseen ≤ total; a zero total gives zero of both; unread is 0 iff all the caller's notifications are read, and unseen is 0 iff all are seen. |
| NotificationViews.CountsAfterAllRead | backend/apps/notificatons/views.py:116-134 | After marking all read the unread count is 0, and the total and unseen counts are unchanged. |

## Left out

- HTTP and REST-framework plumbing is not modelled: routing, response bodies and messages, pagination, and read-only serializers. Status codes appear only as error kinds.
- A notification's `extra_data` JSON field is not modelled. No operation in this model reads or filters it; `NotificationCreateSerializer` only stores what it is given.
- The clock is not modelled. `updated_at` is a `now` parameter, and `created_at` order is id order.
- Authentication and accounts are not modelled. The caller is an authenticated user id, and the existing users are a set of ids. The profiles app's duplicate friendship model is not part of this model.
- Admin registrations are not modelled, being presentation only.
- File storage and upload validation are not modelled. An uploaded file is reduced to its MIME type.
- Content types: only `post` and `comment` are reactable subjects. Any other installed model name is treated as an unknown content type.
- Concurrency is not modelled. Every handler runs alone, with no transactions, so check-then-write races are out of scope.
- Field-level REST-framework processing is not modelled: whitespace trimming by `CharField`, model `max_length` checks and required/blank checks. The validators are modelled on the value they receive.
- Path ids are natural numbers. A non-numeric or negative `pk` in a URL is not modelled.
- `NotificationCreateView` and `NotificationDetailView` are not modelled. Their effect rests on REST-framework internals: the double `save()`, and the generic retrieve/update/destroy.
- The `friends` and `mutual_friends` actions are not modelled as handlers. They serialize `FriendshipModels.GetFriends` and `MutualFriends`, which are modelled, and `mutual_friends` adds only a 404 for an unknown user.
- PostViews.PerformUpdate: the serializer selection at backend/apps/posts/views.py:29-34 is not modelled. Because of its chained comparison and the `partial-update` spelling, a partial update goes through `PostSerializer` rather than `UpdatePostSerializer`. The model validates every update as `update` does. A PATCH therefore really goes through `PostSerializer`, which leaves `post_type`, `likes_count` and `comments_count` writable and has no 10000-character cap; `PostViews.UpdateKeepsOwnership` holds for full updates only.
- FriendshipModels.GetFriendSuggestions: the model states the friends-of-friends query the code evidently means. As written, the query names the related name `received_friend_requests`, which this model does not declare. Which users it returns within the limit is left unspecified, as the query has no ordering.
- LikeModels.ParseSubject: the lookup of an arbitrary installed model by name is narrowed to the two reactable models.
- NotificationViews.MeansTrue: lower-casing is ASCII-only. This agrees with Python's `str.lower` on whether the result equals `true`.
- Every `.get` that can find several rows is modelled as a `ServerError` outcome. The database's `unique_together` constraints are table invariants (`Valid`), not assumptions about callers.
