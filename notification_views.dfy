/// The notification handlers (backend/apps/notificatons/views.py): the
/// caller's filtered listing, marking one notification or all of them read
/// or seen, and the three counts.
module NotificationViews {
  import opened Common
  import opened NotificationModels

  // ---------------------------------------------------------------------
  // NotificationListView.get_queryset
  // ---------------------------------------------------------------------

  /**
   * ASCII lower-casing. For the one word compared against, `true`, it
   * agrees with Python's `str.lower`: no other character lower-cases to
   * one of its letters.
   */
  function Lower(c: char): char
  {
    if 'A' <= c <= 'Z' then (c as int + 32) as char else c
  }

  function LowerAll(s: string): (r: string)
    ensures |r| == |s|
    ensures forall i :: 0 <= i < |s| ==> r[i] == Lower(s[i])
  {
    if s == [] then [] else [Lower(s[0])] + LowerAll(s[1..])
  }

  /** The `is_read` parameter asks for read notifications: it lower-cases to `true`. */
  predicate MeansTrue(param: string)
  {
    LowerAll(param) == "true"
  }

  /**
   * The parameter asks for read notifications exactly when it is four
   * characters that lower-case to `t`, `r`, `u`, `e` (any capitalisation of
   * `true`); every other value asks for unread ones.
   */
  lemma MeansTrueIff(s: string)
    ensures MeansTrue(s) <==> |s| == 4 && Lower(s[0]) == 't' && Lower(s[1]) == 'r' && Lower(s[2]) == 'u' && Lower(s[3]) == 'e'
  {
    if MeansTrue(s) {
      assert |LowerAll(s)| == 4;
    } else if |s| == 4 {
      assert LowerAll(s) != "true";
    }
  }

  /**
   * A listed notification: the caller's, of the given type when a
   * non-empty type is asked for, and with the asked read flag when the
   * `is_read` parameter is present.
   */
  predicate Listed(rows: map<nat, Notification>, caller: UserId, typeParam: Option<string>, isReadParam: Option<string>, id: nat)
  {
    && id in rows
    && rows[id].recipient == caller
    && (typeParam.Some? && typeParam.value != "" ==> TypeName(rows[id].notificationType) == typeParam.value)
    && (isReadParam.Some? ==> rows[id].isRead == MeansTrue(isReadParam.value))
  }

  /** `get_queryset`: the listed notifications, newest first. */
  method ListNotifications(rows: map<nat, Notification>, caller: UserId, typeParam: Option<string>, isReadParam: Option<string>)
    returns (s: seq<nat>)
    ensures forall id :: id in s <==> Listed(rows, caller, typeParam, isReadParam, id)
    ensures forall id :: id in s ==> id in rows && rows[id].recipient == caller
    ensures Descending(s)
  {
    s := NewestFirst(set id | id in rows && Listed(rows, caller, typeParam, isReadParam, id));
  }

  /** A type filter keeps exactly the caller's notifications of that type. */
  lemma TypeFilterExact(rows: map<nat, Notification>, caller: UserId, t: NotificationType, id: nat)
    ensures Listed(rows, caller, Some(TypeName(t)), None, id)
      <==> id in rows && rows[id].recipient == caller && rows[id].notificationType == t
  {
    if id in rows {
      TypeNamesDistinct(rows[id].notificationType, t);
    }
  }

  // ---------------------------------------------------------------------
  // mark_notification_read, mark_notification_seen
  // ---------------------------------------------------------------------

  /** The notification exists and is addressed to the caller. */
  predicate Owns(rows: map<nat, Notification>, caller: UserId, pk: nat)
  {
    pk in rows && rows[pk].recipient == caller
  }

  /** `mark_notification_read`: 404 unless the caller is the recipient, else `mark_as_read`. */
  method MarkNotificationRead(t: NotificationTable, caller: UserId, pk: nat, now: nat) returns (r: Result<nat, Error>)
    requires t.Valid()
    modifies t`rows
    ensures t.Valid()
    ensures r.Err? <==> !Owns(old(t.rows), caller, pk)
    ensures r.Err? ==> r.error == NotFound && t.rows == old(t.rows)
    ensures r.Ok? ==> r.value == pk && t.rows == old(t.rows)[pk := MarkedRead(old(t.rows)[pk], now)]
  {
    if !Owns(t.rows, caller, pk) {
      return Err(NotFound);
    }
    t.MarkAsRead(pk, now);
    r := Ok(pk);
  }

  /** `mark_notification_seen`: 404 unless the caller is the recipient, else `mark_as_seen`. */
  method MarkNotificationSeen(t: NotificationTable, caller: UserId, pk: nat, now: nat) returns (r: Result<nat, Error>)
    requires t.Valid()
    modifies t`rows
    ensures t.Valid()
    ensures r.Err? <==> !Owns(old(t.rows), caller, pk)
    ensures r.Err? ==> r.error == NotFound && t.rows == old(t.rows)
    ensures r.Ok? ==> r.value == pk && t.rows == old(t.rows)[pk := MarkedSeen(old(t.rows)[pk], now)]
  {
    if !Owns(t.rows, caller, pk) {
      return Err(NotFound);
    }
    t.MarkAsSeen(pk, now);
    r := Ok(pk);
  }

  // ---------------------------------------------------------------------
  // mark_all_notifications_read, mark_all_notifications_seen
  // ---------------------------------------------------------------------

  function Mine(rows: map<nat, Notification>, caller: UserId): set<nat>
  {
    set id | id in rows && rows[id].recipient == caller
  }

  function Unread(rows: map<nat, Notification>, caller: UserId): set<nat>
  {
    set id | id in rows && rows[id].recipient == caller && !rows[id].isRead
  }

  function Unseen(rows: map<nat, Notification>, caller: UserId): set<nat>
  {
    set id | id in rows && rows[id].recipient == caller && !rows[id].isSeen
  }

  /** The table after the bulk update of the caller's unread rows. */
  function AllRead(rows: map<nat, Notification>, caller: UserId, now: nat): map<nat, Notification>
  {
    map id | id in rows :: if id in Unread(rows, caller) then MarkedRead(rows[id], now) else rows[id]
  }

  /** The table after the bulk update of the caller's unseen rows. */
  function AllSeen(rows: map<nat, Notification>, caller: UserId, now: nat): map<nat, Notification>
  {
    map id | id in rows :: if id in Unseen(rows, caller) then MarkedSeen(rows[id], now) else rows[id]
  }

  /**
   * After marking all read the caller has no unread notification, a second
   * run would update none, the seen flags are as they were, and every other
   * user's rows are untouched.
   */
  lemma AllReadEffect(rows: map<nat, Notification>, caller: UserId, now: nat)
    ensures var after := AllRead(rows, caller, now);
      && after.Keys == rows.Keys
      && Unread(after, caller) == {}
      && Unseen(after, caller) == Unseen(rows, caller)
      && Mine(after, caller) == Mine(rows, caller)
      && (forall id :: id in rows && rows[id].recipient != caller ==> after[id] == rows[id])
  {
    var after := AllRead(rows, caller, now);
    assert Unread(after, caller) == {} by {
      forall id | id in after && after[id].recipient == caller
        ensures after[id].isRead
      {
      }
    }
  }

  /** The same for marking all seen. */
  lemma AllSeenEffect(rows: map<nat, Notification>, caller: UserId, now: nat)
    ensures var after := AllSeen(rows, caller, now);
      && after.Keys == rows.Keys
      && Unseen(after, caller) == {}
      && Unread(after, caller) == Unread(rows, caller)
      && Mine(after, caller) == Mine(rows, caller)
      && (forall id :: id in rows && rows[id].recipient != caller ==> after[id] == rows[id])
  {
    var after := AllSeen(rows, caller, now);
    assert Unseen(after, caller) == {} by {
      forall id | id in after && after[id].recipient == caller
        ensures after[id].isSeen
      {
      }
    }
  }

  /** `mark_all_notifications_read`: the bulk update, answering how many rows it changed. */
  method MarkAllRead(t: NotificationTable, caller: UserId, now: nat) returns (updated: nat)
    requires t.Valid()
    modifies t`rows
    ensures t.Valid()
    ensures updated == |Unread(old(t.rows), caller)|
    ensures t.rows == AllRead(old(t.rows), caller, now)
  {
    var ids := Unread(t.rows, caller);
    var marked := map id | id in ids :: MarkedRead(t.rows[id], now);
    t.BulkUpdate(ids, marked);
    updated := |ids|;
  }

  /** `mark_all_notifications_seen`: the bulk update, answering how many rows it changed. */
  method MarkAllSeen(t: NotificationTable, caller: UserId, now: nat) returns (updated: nat)
    requires t.Valid()
    modifies t`rows
    ensures t.Valid()
    ensures updated == |Unseen(old(t.rows), caller)|
    ensures t.rows == AllSeen(old(t.rows), caller, now)
  {
    var ids := Unseen(t.rows, caller);
    var marked := map id | id in ids :: MarkedSeen(t.rows[id], now);
    t.BulkUpdate(ids, marked);
    updated := |ids|;
  }

  // ---------------------------------------------------------------------
  // notification_counts
  // ---------------------------------------------------------------------

  datatype Counts = Counts(total: nat, unread: nat, unseen: nat)

  lemma EmptyWhenAllFlagged(rows: map<nat, Notification>, caller: UserId)
    ensures |Unread(rows, caller)| == 0 <==> forall id :: id in rows && rows[id].recipient == caller ==> rows[id].isRead
    ensures |Unseen(rows, caller)| == 0 <==> forall id :: id in rows && rows[id].recipient == caller ==> rows[id].isSeen
  {
    if |Unread(rows, caller)| != 0 {
      var id :| id in Unread(rows, caller);
      assert !(id in rows && rows[id].recipient == caller ==> rows[id].isRead);
    } else {
      forall id | id in rows && rows[id].recipient == caller
        ensures rows[id].isRead
      {
        assert id !in Unread(rows, caller);
      }
    }
    if |Unseen(rows, caller)| != 0 {
      var id :| id in Unseen(rows, caller);
      assert !(id in rows && rows[id].recipient == caller ==> rows[id].isSeen);
    } else {
      forall id | id in rows && rows[id].recipient == caller
        ensures rows[id].isSeen
      {
        assert id !in Unseen(rows, caller);
      }
    }
  }

  /** `notification_counts`: the caller's notifications, and how many of them are unread and unseen. */
  function NotificationCounts(rows: map<nat, Notification>, caller: UserId): (c: Counts)
    ensures c.unread <= c.total && c.unseen <= c.total
    ensures c.total == 0 ==> c.unread == 0 && c.unseen == 0
    ensures c.unread == 0 <==> forall id :: id in rows && rows[id].recipient == caller ==> rows[id].isRead
    ensures c.unseen == 0 <==> forall id :: id in rows && rows[id].recipient == caller ==> rows[id].isSeen
  {
    SubsetCard(Unread(rows, caller), Mine(rows, caller));
    SubsetCard(Unseen(rows, caller), Mine(rows, caller));
    EmptyWhenAllFlagged(rows, caller);
    Counts(|Mine(rows, caller)|, |Unread(rows, caller)|, |Unseen(rows, caller)|)
  }

  /** After marking all read the unread count is zero and the total is unchanged. */
  lemma CountsAfterAllRead(rows: map<nat, Notification>, caller: UserId, now: nat)
    ensures var c := NotificationCounts(AllRead(rows, caller, now), caller);
      c.unread == 0 && c.total == NotificationCounts(rows, caller).total
      && c.unseen == NotificationCounts(rows, caller).unseen
  {
    AllReadEffect(rows, caller, now);
  }
}
