/** The two actions on stored low-stock notifications: mark one as read and
    delete one, each answering with a flash message. */
module StockNotifications {
  import opened Wrappers
  import opened Entities
  import opened Database
  import Seqs

  const MarkedMessage: string := "Notification marked as read"
  const DeletedMessage: string := "Notification deleted"
  const NotFoundMessage: string := "Notification not found"

  /** `is_read = true` on the row with id `id`; every other row and column stays. */
  function MarkRead(ns: seq<StockNotification>, id: Id): (r: seq<StockNotification>)
    ensures |r| == |ns|
    ensures forall i :: 0 <= i < |ns| && ns[i].id == id ==> r[i] == ns[i].(isRead := true)
    ensures forall i :: 0 <= i < |ns| && ns[i].id != id ==> r[i] == ns[i]
  {
    if ns == [] then []
    else [if ns[0].id == id then ns[0].(isRead := true) else ns[0]] + MarkRead(ns[1..], id)
  }

  /** The rows left after deleting the row with id `id`. */
  function Without(ns: seq<StockNotification>, id: Id): (r: seq<StockNotification>)
    ensures |r| <= |ns|
  {
    Seqs.Filter(ns, (n: StockNotification) => n.id != id)
  }

  /** Marking as read twice is the same as marking once. */
  lemma MarkReadIdempotent(ns: seq<StockNotification>, id: Id)
    ensures MarkRead(MarkRead(ns, id), id) == MarkRead(ns, id)
  {
    var once := MarkRead(ns, id);
    var twice := MarkRead(once, id);
    assert forall i :: 0 <= i < |ns| ==> twice[i] == once[i];
  }

  /** Marking keeps every id, so the table's keys stay valid. */
  lemma MarkReadKeepsKeys(ns: seq<StockNotification>, id: Id, next: nat)
    requires NotificationKeys(ns, next)
    ensures NotificationKeys(MarkRead(ns, id), next)
  {
    var r := MarkRead(ns, id);
    assert forall i :: 0 <= i < |ns| ==> r[i].id == ns[i].id;
  }

  /** A notification survives a delete exactly when it is not the deleted one. */
  lemma WithoutMembership(ns: seq<StockNotification>, id: Id, n: StockNotification)
    ensures n in Without(ns, id) <==> n in ns && n.id != id
  {
    Seqs.FilterMembership(ns, (n: StockNotification) => n.id != id, n);
  }

  /** Deleting an existing id removes exactly one row (keys are unique). */
  lemma {:induction false} WithoutRemovesOne(ns: seq<StockNotification>, id: Id)
    requires forall i, j :: 0 <= i < j < |ns| ==> ns[i].id != ns[j].id
    requires HasNotification(ns, id)
    ensures |Without(ns, id)| == |ns| - 1
  {
    var keep := (n: StockNotification) => n.id != id;
    if ns[0].id == id {
      forall i | 0 <= i < |ns[1..]| ensures keep(ns[1..][i]) {
        assert ns[1..][i] == ns[i + 1];
      }
      Seqs.FilterKeepsAll(ns[1..], keep);
    } else {
      var k :| 0 <= k < |ns| && ns[k].id == id;
      assert ns[1..][k - 1] == ns[k];
      WithoutRemovesOne(ns[1..], id);
    }
  }

  /** Deleting keeps the survivors' keys unique and below the counter. */
  lemma {:induction false} WithoutKeepsKeys(ns: seq<StockNotification>, id: Id, next: nat)
    requires NotificationKeys(ns, next)
    ensures NotificationKeys(Without(ns, id), next)
  {
    var keep := (n: StockNotification) => n.id != id;
    if ns != [] {
      WithoutKeepsKeys(ns[1..], id, next);
      forall n | n in Without(ns[1..], id) ensures n.id != ns[0].id {
        Seqs.FilterMembership(ns[1..], keep, n);
      }
    }
  }

  /** `markAsRead($id)`. */
  method MarkAsRead(db: Store, id: Id) returns (reply: Reply)
    requires NotificationKeys(db.notifications, db.nextNotificationId)
    modifies db`notifications
    ensures NotificationKeys(db.notifications, db.nextNotificationId)
    ensures HasNotification(old(db.notifications), id) ==>
      reply == Success(MarkedMessage) && db.notifications == MarkRead(old(db.notifications), id)
    ensures !HasNotification(old(db.notifications), id) ==>
      reply == Failure(NotFoundMessage) && db.notifications == old(db.notifications)
  {
    var found := Seqs.Find(db.notifications, (n: StockNotification) => n.id == id);   // find($id)
    if found.Some? {
      MarkReadKeepsKeys(db.notifications, id, db.nextNotificationId);
      db.notifications := MarkRead(db.notifications, id);
      reply := Success(MarkedMessage);
    } else {
      reply := Failure(NotFoundMessage);
    }
  }

  /** `delete($id)`. */
  method Delete(db: Store, id: Id) returns (reply: Reply)
    requires NotificationKeys(db.notifications, db.nextNotificationId)
    modifies db`notifications
    ensures NotificationKeys(db.notifications, db.nextNotificationId)
    ensures HasNotification(old(db.notifications), id) ==>
      reply == Success(DeletedMessage) && db.notifications == Without(old(db.notifications), id)
      && |db.notifications| == |old(db.notifications)| - 1
    ensures !HasNotification(old(db.notifications), id) ==>
      reply == Failure(NotFoundMessage) && db.notifications == old(db.notifications)
  {
    var found := Seqs.Find(db.notifications, (n: StockNotification) => n.id == id);   // find($id)
    if found.Some? {
      WithoutKeepsKeys(db.notifications, id, db.nextNotificationId);
      WithoutRemovesOne(db.notifications, id);
      db.notifications := Without(db.notifications, id);
      reply := Success(DeletedMessage);
    } else {
      reply := Failure(NotFoundMessage);
    }
  }
}
