/**
 * The notification centre page: its own list of notifications with an
 * error message, the optimistic mark-as-read, mark-all-as-read and delete
 * buttons that reload on failure, and when the "mark all as read" button
 * shows.
 */
module NotificationCenter {
  import opened Common
  import opened Lists
  import opened Notices

  const LoadError: string := "Impossible de charger les notifications"

  /** The "Tout marquer comme lu" button shows while some notification is
      unread. */
  predicate ShowsMarkAll(ns: seq<Notification>) {
    exists i :: 0 <= i < |ns| && !ns[i].isRead
  }

  /** The button shows exactly when the unread count is positive, and never
      right after marking all as read. */
  lemma MarkAllButton(ns: seq<Notification>)
    ensures ShowsMarkAll(ns) <==> UnreadCount(ns) > 0
    ensures !ShowsMarkAll(MarkAllRead(ns))
  {
    CountWherePositive(ns, Unread);
    if ShowsMarkAll(ns) {
      var i :| 0 <= i < |ns| && !ns[i].isRead;
      assert Unread(ns[i]);
    }
    MarkAllLeavesNoneUnread(ns);
  }

  /** After a delete the button shows exactly when some notification with
      another id is unread. */
  lemma ShowsMarkAllAfterDelete(ns: seq<Notification>, id: Option<int>)
    ensures ShowsMarkAll(Without(ns, id)) <==> exists i :: 0 <= i < |ns| && ns[i].notificationId != id && !ns[i].isRead
  {
    var w := Without(ns, id);
    if ShowsMarkAll(w) {
      var i :| 0 <= i < |w| && !w[i].isRead;
      assert w[i] in ns;
      var k :| 0 <= k < |ns| && ns[k] == w[i];
      assert ns[k].notificationId != id;
    }
    if exists i :: 0 <= i < |ns| && ns[i].notificationId != id && !ns[i].isRead {
      var i :| 0 <= i < |ns| && ns[i].notificationId != id && !ns[i].isRead;
      assert ns[i] in w;
    }
  }

  class Page {
    var notifications: seq<Notification>
    var error: Option<string>

    constructor()
      ensures notifications == [] && error == None
    {
      notifications, error := [], None;
    }

    /** `fetchNotifications()`: `data || []` and no error, or the list kept
        and the error message set. */
    method Fetch(result: Fetched<Option<seq<Notification>>>)
      modifies this
      ensures result.Received? ==>
        notifications == (if result.data.Some? then result.data.value else []) && error == None
      ensures result.Failed? ==> notifications == old(notifications) && error == Some(LoadError)
    {
      if result.Received? {
        notifications := if result.data.Some? then result.data.value else [];
        error := None;
      } else {
        error := Some(LoadError);
      }
    }

    /** `handleMarkAsRead(id)`; a failed call reloads from `reload`. */
    method HandleMarkAsRead(id: Option<int>, succeeded: bool, reload: Fetched<Option<seq<Notification>>>)
      modifies this
      ensures succeeded ==> notifications == MarkRead(old(notifications), id) && error == old(error)
      ensures !succeeded && reload.Received? ==>
        notifications == (if reload.data.Some? then reload.data.value else []) && error == None
      ensures !succeeded && reload.Failed? ==> notifications == MarkRead(old(notifications), id) && error == Some(LoadError)
    {
      notifications := MarkRead(notifications, id);
      if !succeeded {
        Fetch(reload);
      }
    }

    /** `handleMarkAllAsRead()`; a failed call reloads from `reload`. */
    method HandleMarkAllAsRead(succeeded: bool, reload: Fetched<Option<seq<Notification>>>)
      modifies this
      ensures succeeded ==> notifications == MarkAllRead(old(notifications)) && error == old(error)
      ensures succeeded ==> !ShowsMarkAll(notifications)
      ensures !succeeded && reload.Received? ==>
        notifications == (if reload.data.Some? then reload.data.value else []) && error == None
      ensures !succeeded && reload.Failed? ==> notifications == MarkAllRead(old(notifications)) && error == Some(LoadError)
    {
      MarkAllButton(notifications);
      notifications := MarkAllRead(notifications);
      if !succeeded {
        Fetch(reload);
      }
    }

    /** `handleDelete(id)`; a failed call reloads from `reload`. */
    method HandleDelete(id: Option<int>, succeeded: bool, reload: Fetched<Option<seq<Notification>>>)
      modifies this
      ensures succeeded ==> notifications == Without(old(notifications), id) && error == old(error)
      ensures succeeded ==> forall n :: n in notifications ==> n.notificationId != id
      ensures !succeeded && reload.Received? ==>
        notifications == (if reload.data.Some? then reload.data.value else []) && error == None
      ensures !succeeded && reload.Failed? ==> notifications == Without(old(notifications), id) && error == Some(LoadError)
    {
      notifications := Without(notifications, id);
      if !succeeded {
        Fetch(reload);
      }
    }
  }
}
