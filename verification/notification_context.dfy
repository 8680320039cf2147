/**
 * The notification context: the notifications and the unread counter the
 * whole application shares, loaded from the server and updated
 * optimistically by mark-as-read, mark-all-as-read and delete, each of
 * which reloads everything when the server call fails.
 */
module NotificationContext {
  import opened Common
  import opened Notices

  /** What `Promise.all([getAll(), getUnreadCount()])` resolved to: the
      notifications' `data` and the counter's `data`. */
  datatype Loaded = Loaded(notifications: Option<seq<Notification>>, count: Option<int>)

  /** The state after `fetchData()`: `data || []` and `data || 0`, or the
      state unchanged when either request failed. */
  function Reloaded(notifications: seq<Notification>, unreadCount: int, result: Fetched<Loaded>): (seq<Notification>, int) {
    if result.Failed? then (notifications, unreadCount)
    else
      (if result.data.notifications.Some? then result.data.notifications.value else [],
       IntOrZero(result.data.count))
  }

  /** `Math.max(0, count - 1)` */
  function Decrement(count: int): (r: int)
    ensures r >= 0
    ensures count >= 1 ==> r == count - 1
    ensures count < 1 ==> r == 0
  {
    if count - 1 > 0 then count - 1 else 0
  }

  class Store {
    var notifications: seq<Notification>
    var unreadCount: int

    /** The counter agrees with the list, whose ids are distinct. */
    predicate Consistent()
      reads this
    {
      DistinctIds(notifications) && unreadCount == UnreadCount(notifications)
    }

    function State(): (seq<Notification>, int)
      reads this
    {
      (notifications, unreadCount)
    }

    constructor()
      ensures notifications == [] && unreadCount == 0
      ensures Consistent()
    {
      notifications, unreadCount := [], 0;
    }

    /** The effect when the user is not authenticated: everything is
        cleared. */
    method SignedOut()
      modifies this
      ensures notifications == [] && unreadCount == 0
      ensures Consistent()
    {
      notifications, unreadCount := [], 0;
    }

    /** `fetchData()` */
    method FetchData(result: Fetched<Loaded>)
      modifies this
      ensures State() == Reloaded(old(notifications), old(unreadCount), result)
    {
      if result.Received? {
        notifications := if result.data.notifications.Some? then result.data.notifications.value else [];
        unreadCount := IntOrZero(result.data.count);
      }
    }

    /** `fetchUnreadCount()`, the polled counter. */
    method FetchUnreadCount(result: Fetched<Option<int>>)
      modifies this
      ensures notifications == old(notifications)
      ensures unreadCount == (if result.Received? then IntOrZero(result.data) else old(unreadCount))
    {
      if result.Received? {
        unreadCount := IntOrZero(result.data);
      }
    }

    /** `markAsRead(id)`: the notifications with `id` become read and the
        counter drops by one (not below 0) when `id` was unread; a failed
        call reloads from `reload`. */
    method MarkAsRead(id: Option<int>, succeeded: bool, reload: Fetched<Loaded>)
      modifies this
      ensures var optimistic := (MarkRead(old(notifications), id),
                                 if WasUnread(old(notifications), id) then Decrement(old(unreadCount)) else old(unreadCount));
        State() == (if succeeded then optimistic else Reloaded(optimistic.0, optimistic.1, reload))
      ensures succeeded && old(Consistent()) ==> Consistent()
    {
      ghost var before := notifications;
      var wasUnread := WasUnread(notifications, id);
      notifications := MarkRead(notifications, id);
      if wasUnread {
        unreadCount := Decrement(unreadCount);
      }
      if old(Consistent()) {
        UnreadAfterMarkRead(before, id);
        AtMostOneUnreadWithId(before, id);
        OperationsKeepIdsDistinct(before, id);
        if wasUnread {
          Lists.CountWherePositive(before, Unread);
          var i :| 0 <= i < |before| && before[i].notificationId == id && !before[i].isRead;
          assert Unread(before[i]);
        }
      }
      if !succeeded {
        FetchData(reload);
      }
    }

    /** `markAllAsRead()`: every notification becomes read and the counter
        0; a failed call reloads. */
    method MarkAllAsRead(succeeded: bool, reload: Fetched<Loaded>)
      modifies this
      ensures State() == (if succeeded then (MarkAllRead(old(notifications)), 0)
                          else Reloaded(MarkAllRead(old(notifications)), 0, reload))
      ensures |MarkAllRead(old(notifications))| == |old(notifications)|
      ensures succeeded && old(Consistent()) ==> Consistent()
    {
      ghost var before := notifications;
      notifications := MarkAllRead(notifications);
      unreadCount := 0;
      MarkAllLeavesNoneUnread(before);
      if old(Consistent()) {
        OperationsKeepIdsDistinct(before, None);
      }
      if !succeeded {
        FetchData(reload);
      }
    }

    /** `deleteNotification(id)`: the notifications with `id` are removed and
        the counter drops by one (not below 0) when the first of them was
        unread; a failed call reloads. */
    method DeleteNotification(id: Option<int>, succeeded: bool, reload: Fetched<Loaded>)
      modifies this
      ensures var found := FindById(old(notifications), id);
        var optimistic := (Without(old(notifications), id),
                           if found.Some? && !found.value.isRead then Decrement(old(unreadCount)) else old(unreadCount));
        State() == (if succeeded then optimistic else Reloaded(optimistic.0, optimistic.1, reload))
      ensures succeeded && old(Consistent()) ==> Consistent()
    {
      ghost var before := notifications;
      var notif := FindById(notifications, id);
      notifications := Without(notifications, id);
      if notif.Some? && !notif.value.isRead {
        unreadCount := Decrement(unreadCount);
      }
      if old(Consistent()) {
        FoundUnreadIffWasUnread(before, id);
        UnreadAfterDelete(before, id);
        AtMostOneUnreadWithId(before, id);
        OperationsKeepIdsDistinct(before, id);
        if notif.Some? && !notif.value.isRead {
          var i :| 0 <= i < |before| && before[i] == notif.value;
          assert Unread(before[i]);
          Lists.CountWherePositive(before, Unread);
        }
      }
      if !succeeded {
        FetchData(reload);
      }
    }
  }

  /** Marking an already-read or unknown id read changes no counter and no
      notification. */
  lemma MarkingReadTwiceChangesNothing(ns: seq<Notification>, id: Option<int>)
    requires !WasUnread(ns, id)
    ensures MarkRead(ns, id) == ns
  {
    var r := MarkRead(ns, id);
    forall i | 0 <= i < |ns|
      ensures r[i] == ns[i]
    {
      if ns[i].notificationId == id {
        assert ns[i].isRead;
      }
    }
  }
}
