/** The notification reducer of the client (client/src/contexts/NotificationContext.jsx):
    a list of notifications with an unread counter that the actions keep in step
    with the list only as long as they are used as intended. */
module NotificationReducer {
  import opened Common

  datatype Notification = Notification(id: string, kind: string, title: string, message: string,
                                       isRead: bool, readAt: Option<Instant>)

  datatype State = State(notifications: seq<Notification>, unreadCount: int, loading: bool)

  const InitialState := State([], 0, false)

  /** The dispatched actions; `at` is the moment `new Date()` is read while reducing. */
  datatype Action =
    | SetLoading(loading: bool)
    | SetNotifications(list: seq<Notification>, count: int)
    | AddNotification(notification: Notification)
    | MarkAsRead(id: string, at: Instant)
    | MarkAllRead(at: Instant)
    | RemoveNotification(id: string)
    | UnknownAction(kind: string)

  // ---------------------------------------------------------------------------
  // List updates

  function MarkedRead(n: Notification, at: Instant): (r: Notification)
    ensures r.isRead && r.readAt == Some(at)
    ensures r == n.(isRead := true, readAt := Some(at))
  {
    n.(isRead := true, readAt := Some(at))
  }

  /** The `map` of MARK_AS_READ: entries with the id are marked, the others kept. */
  function MarkMatching(ns: seq<Notification>, id: string, at: Instant): (r: seq<Notification>)
    ensures |r| == |ns|
    ensures forall i :: 0 <= i < |ns| ==> r[i] == if ns[i].id == id then MarkedRead(ns[i], at) else ns[i]
  {
    if ns == [] then [] else [if ns[0].id == id then MarkedRead(ns[0], at) else ns[0]] + MarkMatching(ns[1..], id, at)
  }

  /** The `map` of MARK_ALL_READ. */
  function MarkEvery(ns: seq<Notification>, at: Instant): (r: seq<Notification>)
    ensures |r| == |ns|
    ensures forall i :: 0 <= i < |ns| ==> r[i] == MarkedRead(ns[i], at)
  {
    if ns == [] then [] else [MarkedRead(ns[0], at)] + MarkEvery(ns[1..], at)
  }

  /** The `filter` of REMOVE_NOTIFICATION. */
  function Without(ns: seq<Notification>, id: string): (r: seq<Notification>)
    ensures |r| <= |ns|
    ensures forall n :: n in r <==> n in ns && n.id != id
  {
    if ns == [] then []
    else if ns[0].id != id then [ns[0]] + Without(ns[1..], id)
    else Without(ns[1..], id)
  }

  function Decrement(c: int): (r: int)
    ensures r >= 0
    ensures c >= 1 ==> r == c - 1
    ensures c <= 1 ==> r == 0
  {
    if c - 1 > 0 then c - 1 else 0
  }

  /** `notificationReducer`. */
  function Reduce(s: State, a: Action): State {
    match a
    case SetLoading(loading) => s.(loading := loading)
    case SetNotifications(list, count) => s.(notifications := list, unreadCount := count)
    case AddNotification(n) => s.(notifications := [n] + s.notifications, unreadCount := s.unreadCount + 1)
    case MarkAsRead(id, at) => s.(notifications := MarkMatching(s.notifications, id, at), unreadCount := Decrement(s.unreadCount))
    case MarkAllRead(at) => s.(notifications := MarkEvery(s.notifications, at), unreadCount := 0)
    case RemoveNotification(id) => s.(notifications := Without(s.notifications, id), unreadCount := Decrement(s.unreadCount))
    case UnknownAction(_) => s
  }

  function ReduceAll(s: State, actions: seq<Action>): State
    decreases |actions|
  {
    if actions == [] then s else ReduceAll(Reduce(s, actions[0]), actions[1..])
  }

  // ---------------------------------------------------------------------------
  // What each action does

  /** ADD_NOTIFICATION puts the new entry first and counts one more unread. */
  lemma AddNotificationEffect(s: State, n: Notification)
    ensures Reduce(s, AddNotification(n)).notifications == [n] + s.notifications
    ensures Reduce(s, AddNotification(n)).unreadCount == s.unreadCount + 1
    ensures Reduce(s, AddNotification(n)).loading == s.loading
  {
  }

  /** MARK_AS_READ marks only the entries with the id, keeps the length, and takes one
      off the counter (never below zero) whether or not any unread entry matched. */
  lemma MarkAsReadEffect(s: State, id: string, at: Instant)
    ensures var r := Reduce(s, MarkAsRead(id, at));
      && |r.notifications| == |s.notifications|
      && (forall i :: 0 <= i < |s.notifications| && s.notifications[i].id == id ==>
            r.notifications[i].isRead && r.notifications[i].readAt == Some(at))
      && (forall i :: 0 <= i < |s.notifications| && s.notifications[i].id != id ==> r.notifications[i] == s.notifications[i])
      && r.unreadCount == (if s.unreadCount - 1 > 0 then s.unreadCount - 1 else 0)
      && r.loading == s.loading
  {
  }

  /** MARK_ALL_READ marks every entry read and zeroes the counter; doing it again at
      the same moment changes nothing, and at another moment changes only `readAt`. */
  lemma MarkAllReadEffect(s: State, at: Instant, at': Instant)
    ensures var r := Reduce(s, MarkAllRead(at));
      && |r.notifications| == |s.notifications|
      && (forall i :: 0 <= i < |r.notifications| ==> r.notifications[i].isRead)
      && r.unreadCount == 0
      && Reduce(r, MarkAllRead(at)) == r
      && Reduce(r, MarkAllRead(at')) == Reduce(s, MarkAllRead(at'))
  {
  }

  /** REMOVE_NOTIFICATION drops exactly the entries with the id and takes one off the
      counter (never below zero). */
  lemma RemoveNotificationEffect(s: State, id: string)
    ensures var r := Reduce(s, RemoveNotification(id));
      && (forall n :: n in r.notifications <==> n in s.notifications && n.id != id)
      && r.unreadCount == (if s.unreadCount - 1 > 0 then s.unreadCount - 1 else 0)
      && r.loading == s.loading
  {
  }

  /** SET_LOADING changes only `loading`, SET_NOTIFICATIONS replaces the list and the
      counter, and an unknown action returns the state it was given. */
  lemma OtherActionsEffect(s: State, loading: bool, list: seq<Notification>, count: int, kind: string)
    ensures Reduce(s, SetLoading(loading)) == State(s.notifications, s.unreadCount, loading)
    ensures Reduce(s, SetNotifications(list, count)) == State(list, count, s.loading)
    ensures Reduce(s, UnknownAction(kind)) == s
  {
  }

  // ---------------------------------------------------------------------------
  // The counter never goes negative

  predicate NonNegativePayloads(actions: seq<Action>) {
    forall i :: 0 <= i < |actions| && actions[i].SetNotifications? ==> actions[i].count >= 0
  }

  /** From a non-negative counter, every action sequence whose SET_NOTIFICATIONS
      payloads are non-negative keeps the counter non-negative. */
  lemma {:induction false} CountStaysNonNegative(s: State, actions: seq<Action>)
    requires s.unreadCount >= 0
    requires NonNegativePayloads(actions)
    ensures ReduceAll(s, actions).unreadCount >= 0
    decreases |actions|
  {
    if actions != [] {
      assert actions[0] == actions[0 as int];
      var next := Reduce(s, actions[0]);
      assert next.unreadCount >= 0;
      assert NonNegativePayloads(actions[1..]) by {
        forall i | 0 <= i < |actions[1..]| && actions[1..][i].SetNotifications?
          ensures actions[1..][i].count >= 0
        {
          assert actions[1..][i] == actions[i + 1];
        }
      }
      CountStaysNonNegative(next, actions[1..]);
    }
  }

  // ---------------------------------------------------------------------------
  // When the counter agrees with the list

  /** Number of unread entries. */
  function UnreadIn(ns: seq<Notification>): (k: nat)
    ensures k <= |ns|
  {
    if ns == [] then 0 else (if ns[0].isRead then 0 else 1) + UnreadIn(ns[1..])
  }

  /** Number of unread entries with the id. */
  function UnreadWithId(ns: seq<Notification>, id: string): (k: nat)
    ensures k <= UnreadIn(ns)
  {
    if ns == [] then 0 else (if ns[0].isRead || ns[0].id != id then 0 else 1) + UnreadWithId(ns[1..], id)
  }

  predicate Consistent(s: State) {
    s.unreadCount == UnreadIn(s.notifications)
  }

  predicate UniqueIds(ns: seq<Notification>) {
    forall i, j :: 0 <= i < j < |ns| ==> ns[i].id != ns[j].id
  }

  lemma {:induction false} UnreadWithAbsentId(ns: seq<Notification>, id: string)
    requires forall i :: 0 <= i < |ns| ==> ns[i].id != id
    ensures UnreadWithId(ns, id) == 0
  {
    if ns != [] {
      assert ns[0].id != id;
      UnreadWithAbsentId(ns[1..], id);
    }
  }

  /** With unique ids at most one unread entry carries a given id. */
  lemma {:induction false} UnreadWithUniqueId(ns: seq<Notification>, id: string)
    requires UniqueIds(ns)
    ensures UnreadWithId(ns, id) <= 1
  {
    if ns != [] {
      var tail := ns[1..];
      assert UniqueIds(tail) by {
        forall i, j | 0 <= i < j < |tail| ensures tail[i].id != tail[j].id {
          assert tail[i] == ns[i + 1] && tail[j] == ns[j + 1];
        }
      }
      if ns[0].id == id {
        forall i | 0 <= i < |tail| ensures tail[i].id != id {
          assert tail[i] == ns[i + 1];
        }
        UnreadWithAbsentId(tail, id);
      } else {
        UnreadWithUniqueId(tail, id);
      }
    }
  }

  lemma {:induction false} UnreadAfterMarking(ns: seq<Notification>, id: string, at: Instant)
    ensures UnreadIn(MarkMatching(ns, id, at)) == UnreadIn(ns) - UnreadWithId(ns, id)
  {
    if ns != [] {
      var r := MarkMatching(ns, id, at);
      assert r[1..] == MarkMatching(ns[1..], id, at);
      UnreadAfterMarking(ns[1..], id, at);
    }
  }

  lemma {:induction false} UnreadAfterRemoving(ns: seq<Notification>, id: string)
    ensures UnreadIn(Without(ns, id)) == UnreadIn(ns) - UnreadWithId(ns, id)
  {
    if ns != [] {
      UnreadAfterRemoving(ns[1..], id);
      if ns[0].id != id {
        assert ([ns[0]] + Without(ns[1..], id))[1..] == Without(ns[1..], id);
      }
    }
  }

  lemma {:induction false} UnreadAfterMarkingAll(ns: seq<Notification>, at: Instant)
    ensures UnreadIn(MarkEvery(ns, at)) == 0
  {
    if ns != [] {
      assert MarkEvery(ns, at)[1..] == MarkEvery(ns[1..], at);
      UnreadAfterMarkingAll(ns[1..], at);
    }
  }

  /** On a counter that agrees with a list of unique ids, adding keeps them in step
      exactly when the new entry is unread; marking or removing by id keeps them in
      step exactly when an unread entry had that id or the counter was already zero
      (marking an entry already read, or an absent one, makes the counter too small);
      marking all always puts them in step. */
  lemma CounterAgreement(s: State, n: Notification, id: string, at: Instant)
    requires Consistent(s) && UniqueIds(s.notifications)
    ensures Consistent(Reduce(s, AddNotification(n))) <==> !n.isRead
    ensures Consistent(Reduce(s, MarkAsRead(id, at))) <==>
      UnreadWithId(s.notifications, id) == 1 || s.unreadCount == 0
    ensures Consistent(Reduce(s, RemoveNotification(id))) <==>
      UnreadWithId(s.notifications, id) == 1 || s.unreadCount == 0
    ensures Consistent(Reduce(s, MarkAllRead(at)))
  {
    assert ([n] + s.notifications)[1..] == s.notifications;
    UnreadWithUniqueId(s.notifications, id);
    UnreadAfterMarking(s.notifications, id, at);
    UnreadAfterRemoving(s.notifications, id);
    UnreadAfterMarkingAll(s.notifications, at);
  }

  /** The drift in one step: one entry read and one unread, counter 1; marking the
      already-read entry zeroes the counter while an unread entry remains. */
  lemma MarkingReadEntryDrifts(at: Instant)
    ensures var s := State([Notification("a", "", "", "", true, None), Notification("b", "", "", "", false, None)], 1, false);
      && Consistent(s)
      && var r := Reduce(s, MarkAsRead("a", at));
      && r.unreadCount == 0 && UnreadIn(r.notifications) == 1
  {
    var s := State([Notification("a", "", "", "", true, None), Notification("b", "", "", "", false, None)], 1, false);
    assert s.notifications[1..][1..] == [];
    var r := Reduce(s, MarkAsRead("a", at));
    assert r.notifications[1..][1..] == [];
  }
}
