/// The notification tables (backend/apps/notificatons/models.py): typed
/// notifications with read and seen flags, and one record of channel
/// preferences per user.
module NotificationModels {
  import opened Common

  // ---------------------------------------------------------------------
  // NotificationType
  // ---------------------------------------------------------------------

  datatype NotificationType =
    | PostLike | PostComment | PostShare | FriendRequest | FriendAccept
    | CommentLike | CommentReply | Mention | Birthday | EventInvite

  function TypeName(t: NotificationType): string
  {
    match t
    case PostLike => "post_like"
    case PostComment => "post_comment"
    case PostShare => "post_share"
    case FriendRequest => "friend_request"
    case FriendAccept => "friend_accept"
    case CommentLike => "comment_like"
    case CommentReply => "comment_reply"
    case Mention => "mention"
    case Birthday => "birthday"
    case EventInvite => "event_invite"
  }

  /** The stored names are distinct, so a filter by name picks out exactly one type. */
  lemma TypeNamesDistinct(a: NotificationType, b: NotificationType)
    ensures TypeName(a) == TypeName(b) <==> a == b
  {
  }

  // ---------------------------------------------------------------------
  // Notification
  // ---------------------------------------------------------------------

  /**
   * One notification. The sender and the subject reference (content type
   * and object id) are optional; `updatedAt` is the time of the last save.
   */
  datatype Notification = Notification(
    recipient: UserId,
    sender: Option<UserId>,
    notificationType: NotificationType,
    title: string,
    message: string,
    contentType: Option<string>,
    objectId: Option<nat>,
    isRead: bool,
    isSeen: bool,
    updatedAt: nat)

  /** A freshly created row: neither read nor seen. */
  function NewNotification(recipient: UserId, sender: Option<UserId>, t: NotificationType, title: string, message: string,
                           contentType: Option<string>, objectId: Option<nat>, now: nat): (n: Notification)
    ensures !n.isRead && !n.isSeen
    ensures n.recipient == recipient && n.sender == sender && n.notificationType == t
    ensures n.contentType == contentType && n.objectId == objectId && n.updatedAt == now
  {
    Notification(recipient, sender, t, title, message, contentType, objectId, false, false, now)
  }

  /** The row after `mark_as_read` at time `now`. */
  function MarkedRead(n: Notification, now: nat): Notification
  {
    n.(isRead := true, updatedAt := now)
  }

  /** The row after `mark_as_seen` at time `now`. */
  function MarkedSeen(n: Notification, now: nat): Notification
  {
    n.(isSeen := true, updatedAt := now)
  }

  /**
   * Marking read sets the read flag and nothing else but the timestamp;
   * marking again changes only the timestamp.
   */
  lemma MarkReadEffect(n: Notification, t1: nat, t2: nat)
    ensures MarkedRead(n, t1).isRead
    ensures MarkedRead(n, t1).isSeen == n.isSeen
    ensures MarkedRead(n, t1).(updatedAt := n.updatedAt) == n.(isRead := true)
    ensures MarkedRead(MarkedRead(n, t1), t2) == MarkedRead(n, t2)
  {
  }

  /** The same for the seen flag, which leaves the read flag alone. */
  lemma MarkSeenEffect(n: Notification, t1: nat, t2: nat)
    ensures MarkedSeen(n, t1).isSeen
    ensures MarkedSeen(n, t1).isRead == n.isRead
    ensures MarkedSeen(n, t1).(updatedAt := n.updatedAt) == n.(isSeen := true)
    ensures MarkedSeen(MarkedSeen(n, t1), t2) == MarkedSeen(n, t2)
  {
  }

  /** The notification table with its id counter. */
  class NotificationTable {
    var rows: map<nat, Notification>
    var nextId: nat

    ghost predicate Valid()
      reads this
    {
      1 <= nextId && forall id :: id in rows ==> 0 < id < nextId
    }

    constructor ()
      ensures Valid() && rows == map[]
    {
      rows := map[];
      nextId := 1;
    }

    /**
     * `Notification.objects.create(...)` with the writable fields only: the
     * new row takes a fresh id and starts neither read nor seen.
     */
    method Create(recipient: UserId, sender: Option<UserId>, t: NotificationType, title: string, message: string,
                  contentType: Option<string>, objectId: Option<nat>, now: nat) returns (id: nat)
      requires Valid()
      modifies this
      ensures Valid()
      ensures id == old(nextId) && id !in old(rows)
      ensures rows == old(rows)[id := NewNotification(recipient, sender, t, title, message, contentType, objectId, now)]
      ensures !rows[id].isRead && !rows[id].isSeen && rows[id].recipient == recipient
    {
      id := nextId;
      rows := rows[id := NewNotification(recipient, sender, t, title, message, contentType, objectId, now)];
      nextId := nextId + 1;
    }

    /** `mark_as_read`: set the flag and save it with the timestamp. */
    method MarkAsRead(id: nat, now: nat)
      requires Valid() && id in rows
      modifies this`rows
      ensures Valid()
      ensures rows == old(rows)[id := MarkedRead(old(rows)[id], now)]
    {
      rows := rows[id := rows[id].(isRead := true, updatedAt := now)];
    }

    /** `mark_as_seen`: set the flag and save it with the timestamp. */
    method MarkAsSeen(id: nat, now: nat)
      requires Valid() && id in rows
      modifies this`rows
      ensures Valid()
      ensures rows == old(rows)[id := MarkedSeen(old(rows)[id], now)]
    {
      rows := rows[id := rows[id].(isSeen := true, updatedAt := now)];
    }

    /** A bulk `update(...)` of a filtered set: the rows in `ids` take their entries in `marked`, the rest stay. */
    method BulkUpdate(ids: set<nat>, marked: map<nat, Notification>)
      requires Valid()
      requires forall id :: id in ids ==> id in rows && id in marked
      modifies this`rows
      ensures Valid()
      ensures rows.Keys == old(rows).Keys
      ensures forall id :: id in rows ==> rows[id] == if id in ids then marked[id] else old(rows)[id]
    {
      rows := map id | id in rows :: if id in ids then marked[id] else rows[id];
    }
  }

  // ---------------------------------------------------------------------
  // NotificationPreference
  // ---------------------------------------------------------------------

  /** The twelve channel flags: email, push and in-app, each for likes, comments, friend requests and mentions. */
  datatype Preferences = Preferences(
    emailPostLikes: bool, emailComments: bool, emailFriendRequests: bool, emailMentions: bool,
    pushPostLikes: bool, pushComments: bool, pushFriendRequests: bool, pushMentions: bool,
    inappPostLikes: bool, inappComments: bool, inappFriendRequests: bool, inappMentions: bool)

  /** A new record: every channel on. */
  function DefaultPreferences(): (p: Preferences)
    ensures p.emailPostLikes && p.emailComments && p.emailFriendRequests && p.emailMentions
    ensures p.pushPostLikes && p.pushComments && p.pushFriendRequests && p.pushMentions
    ensures p.inappPostLikes && p.inappComments && p.inappFriendRequests && p.inappMentions
  {
    Preferences(true, true, true, true, true, true, true, true, true, true, true, true)
  }

  /**
   * The preference table. The one-to-one link to the user makes the user
   * the key, so a user has at most one record.
   */
  class PreferenceTable {
    var prefs: map<UserId, Preferences>

    constructor ()
      ensures prefs == map[]
    {
      prefs := map[];
    }

    /** `get_or_create(user=...)`: the user's record, made with the defaults when there is none. */
    method GetOrCreate(user: UserId) returns (p: Preferences, created: bool)
      modifies this
      ensures created <==> user !in old(prefs)
      ensures user in prefs && p == prefs[user]
      ensures !created ==> prefs == old(prefs)
      ensures created ==> prefs == old(prefs)[user := DefaultPreferences()]
    {
      created := user !in prefs;
      if created {
        prefs := prefs[user := DefaultPreferences()];
      }
      p := prefs[user];
    }
  }
}
