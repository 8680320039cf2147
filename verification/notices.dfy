/**
 * Notifications as the notification context and the notification centre
 * hold them, and the list operations both apply optimistically: mark one as
 * read, mark all as read, delete one; with the unread count they keep in
 * step.
 */
module Notices {
  import opened Common
  import opened Lists

  /** A notification object; the other properties are carried along
      untouched. */
  datatype Notification = Notification(notificationId: Option<int>, isRead: bool, others: map<string, string>)

  predicate Unread(n: Notification) {
    !n.isRead
  }

  /** The number of unread notifications in the list. */
  function UnreadCount(ns: seq<Notification>): nat {
    CountWhere(ns, Unread)
  }

  /** No two notifications share an id. */
  predicate DistinctIds(ns: seq<Notification>) {
    forall i, j :: 0 <= i < j < |ns| ==> ns[i].notificationId != ns[j].notificationId
  }

  /** `ns.map(n => n.notificationId === id ? { ...n, isRead: true } : n)` */
  function MarkRead(ns: seq<Notification>, id: Option<int>): (r: seq<Notification>)
    ensures |r| == |ns|
    ensures forall i :: 0 <= i < |ns| && ns[i].notificationId == id ==> r[i] == ns[i].(isRead := true)
    ensures forall i :: 0 <= i < |ns| && ns[i].notificationId != id ==> r[i] == ns[i]
  {
    Map(ns, (n: Notification) => if n.notificationId == id then n.(isRead := true) else n)
  }

  /** `ns.map(n => ({ ...n, isRead: true }))` */
  function MarkAllRead(ns: seq<Notification>): (r: seq<Notification>)
    ensures |r| == |ns|
    ensures forall i :: 0 <= i < |ns| ==> r[i] == ns[i].(isRead := true)
  {
    Map(ns, (n: Notification) => n.(isRead := true))
  }

  /** `ns.filter(n => n.notificationId !== id)` */
  function Without(ns: seq<Notification>, id: Option<int>): (r: seq<Notification>)
    ensures IsSubsequence(r, ns)
    ensures forall i :: 0 <= i < |r| ==> r[i].notificationId != id
    ensures forall n :: n in ns && n.notificationId != id ==> n in r
  {
    FilterSpec(ns, (n: Notification) => n.notificationId != id);
    Filter(ns, (n: Notification) => n.notificationId != id)
  }

  /** `n` is the first notification of `ns` with the id. */
  predicate FirstWithId(ns: seq<Notification>, id: Option<int>, n: Notification) {
    exists i :: 0 <= i < |ns| && ns[i] == n && n.notificationId == id
      && (forall j :: 0 <= j < i ==> ns[j].notificationId != id)
  }

  /** `ns.find(n => n.notificationId === id)` */
  function FindById(ns: seq<Notification>, id: Option<int>): (r: Option<Notification>)
    ensures r.None? <==> forall i :: 0 <= i < |ns| ==> ns[i].notificationId != id
    ensures r.Some? ==> FirstWithId(ns, id, r.value)
  {
    if ns == [] then None
    else if ns[0].notificationId == id then Some(ns[0])
    else
      var r := FindById(ns[1..], id);
      FirstMatchShift(ns, id, r);
      r
  }

  /** A first match in the tail is a first match in the whole list when the
      head does not match. */
  lemma FirstMatchShift(ns: seq<Notification>, id: Option<int>, r: Option<Notification>)
    requires ns != [] && ns[0].notificationId != id
    requires r.Some? ==> FirstWithId(ns[1..], id, r.value)
    ensures r.Some? ==> FirstWithId(ns, id, r.value)
  {
    if r.Some? {
      var i :| 0 <= i < |ns[1..]| && ns[1..][i] == r.value && r.value.notificationId == id
        && (forall j :: 0 <= j < i ==> ns[1..][j].notificationId != id);
      assert ns[i + 1] == r.value;
      forall j | 0 <= j < i + 1
        ensures ns[j].notificationId != id
      {
        if j > 0 {
          assert ns[j] == ns[1..][j - 1];
        }
      }
    }
  }

  /** `ns.find(n => n.notificationId === id && !n.isRead)` is truthy. */
  predicate WasUnread(ns: seq<Notification>, id: Option<int>) {
    exists i :: 0 <= i < |ns| && ns[i].notificationId == id && !ns[i].isRead
  }

  /** Whether a notification is the unread one with id `id`. */
  function UnreadWithId(id: Option<int>): Notification -> bool {
    (n: Notification) => n.notificationId == id && !n.isRead
  }

  /** Marking `id` read removes from the unread count exactly the unread
      notifications with that id. */
  lemma {:induction false} UnreadAfterMarkRead(ns: seq<Notification>, id: Option<int>)
    ensures UnreadCount(MarkRead(ns, id)) == UnreadCount(ns) - CountWhere(ns, UnreadWithId(id))
  {
    if ns != [] {
      UnreadAfterMarkRead(ns[1..], id);
      assert MarkRead(ns, id)[1..] == MarkRead(ns[1..], id);
    }
  }

  /** Deleting `id` removes from the unread count exactly the unread
      notifications with that id. */
  lemma {:induction false} UnreadAfterDelete(ns: seq<Notification>, id: Option<int>)
    ensures UnreadCount(Without(ns, id)) == UnreadCount(ns) - CountWhere(ns, UnreadWithId(id))
  {
    if ns != [] {
      UnreadAfterDelete(ns[1..], id);
      var keep := (n: Notification) => n.notificationId != id;
      if keep(ns[0]) {
        assert Filter(ns, keep) == [ns[0]] + Filter(ns[1..], keep);
        assert Filter(ns, keep)[1..] == Filter(ns[1..], keep);
      }
    }
  }

  /** After marking all as read nothing is unread. */
  lemma {:induction false} MarkAllLeavesNoneUnread(ns: seq<Notification>)
    ensures UnreadCount(MarkAllRead(ns)) == 0
    ensures forall i :: 0 <= i < |MarkAllRead(ns)| ==> MarkAllRead(ns)[i].isRead
  {
    if ns != [] {
      MarkAllLeavesNoneUnread(ns[1..]);
      assert MarkAllRead(ns)[1..] == MarkAllRead(ns[1..]);
    }
  }

  /** With distinct ids at most one notification is the unread one with
      `id`: one exactly when `id` was unread. */
  lemma {:induction false} AtMostOneUnreadWithId(ns: seq<Notification>, id: Option<int>)
    requires DistinctIds(ns)
    ensures CountWhere(ns, UnreadWithId(id)) == (if WasUnread(ns, id) then 1 else 0)
  {
    if ns != [] {
      var rest := ns[1..];
      assert DistinctIds(rest) by {
        forall i, j | 0 <= i < j < |rest| ensures rest[i].notificationId != rest[j].notificationId {
          assert rest[i] == ns[i + 1] && rest[j] == ns[j + 1];
        }
      }
      AtMostOneUnreadWithId(rest, id);
      if WasUnread(rest, id) {
        var i :| 0 <= i < |rest| && rest[i].notificationId == id && !rest[i].isRead;
        assert ns[i + 1] == rest[i];
      }
      if WasUnread(ns, id) && !UnreadWithId(id)(ns[0]) {
        var i :| 0 <= i < |ns| && ns[i].notificationId == id && !ns[i].isRead;
        assert rest[i - 1] == ns[i];
      }
    }
  }

  /** With distinct ids the notification found by id is unread exactly when
      `id` was unread. */
  lemma FoundUnreadIffWasUnread(ns: seq<Notification>, id: Option<int>)
    requires DistinctIds(ns)
    ensures (FindById(ns, id).Some? && !FindById(ns, id).value.isRead) <==> WasUnread(ns, id)
  {
    var f := FindById(ns, id);
    if f.Some? {
      var k :| 0 <= k < |ns| && ns[k] == f.value;
      if WasUnread(ns, id) {
        var i :| 0 <= i < |ns| && ns[i].notificationId == id && !ns[i].isRead;
        assert i == k;
      }
    }
  }

  /** Marking read is idempotent. */
  lemma MarkReadIdempotent(ns: seq<Notification>, id: Option<int>)
    ensures MarkRead(MarkRead(ns, id), id) == MarkRead(ns, id)
  {
    var once := MarkRead(ns, id);
    assert forall i :: 0 <= i < |once| ==> once[i].notificationId == ns[i].notificationId;
  }

  /** The list operations keep ids distinct. */
  lemma OperationsKeepIdsDistinct(ns: seq<Notification>, id: Option<int>)
    requires DistinctIds(ns)
    ensures DistinctIds(MarkRead(ns, id)) && DistinctIds(MarkAllRead(ns)) && DistinctIds(Without(ns, id))
  {
    var w := Without(ns, id);
    forall i, j | 0 <= i < j < |w|
      ensures w[i].notificationId != w[j].notificationId
    {
      SubsequenceIndices(w, ns, i, j);
    }
  }
}
