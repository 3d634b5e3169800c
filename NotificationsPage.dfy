/** The notifications page (src/app/pages/notifications/notifications.component.ts). */
module NotificationsPage {
  import opened Models

  /** Every notification read, everything else kept. */
  function AllRead(items: seq<Notification>): (r: seq<Notification>)
    ensures |r| == |items|
    ensures forall k :: 0 <= k < |items| ==> r[k].isRead && r[k].(isRead := items[k].isRead) == items[k]
  {
    seq(|items|, k requires 0 <= k < |items| => items[k].(isRead := true))
  }

  /** Marking all read twice is marking them once, and a list already read is unchanged. */
  lemma AllReadIdempotent(items: seq<Notification>)
    ensures AllRead(AllRead(items)) == AllRead(items)
    ensures (forall k :: 0 <= k < |items| ==> items[k].isRead) ==> AllRead(items) == items
  {
    if forall k :: 0 <= k < |items| ==> items[k].isRead {
      assert forall k :: 0 <= k < |items| ==> items[k].(isRead := true) == items[k];
    }
  }

  /** `getIcon(type)` */
  function Icon(kind: NotificationType): (icon: string)
    ensures kind.AssignmentNotice? <==> icon == "assignment"
    ensures kind.GradeNotice? <==> icon == "grade"
    ensures kind.ClassNotice? <==> icon == "class"
    ensures kind.GeneralNotice? <==> icon == "notifications"
  {
    match kind
    case AssignmentNotice => "assignment"
    case GradeNotice => "grade"
    case ClassNotice => "class"
    case GeneralNotice => "notifications"
  }

  class NotificationsScreen {
    var notifications: seq<Notification>

    constructor()
      ensures notifications == []
    {
      notifications := [];
    }

    /** The success branch of `loadNotifications`. */
    method OnNotificationsLoaded(items: seq<Notification>)
      modifies this
      ensures notifications == items
    {
      notifications := items;
    }

    /** `markAllRead`: the list replaced by a copy with every entry read, in order. */
    method MarkAllRead()
      modifies this
      ensures notifications == AllRead(old(notifications))
      ensures forall k :: 0 <= k < |notifications| ==> notifications[k].isRead
    {
      var marked: seq<Notification> := [];
      for k := 0 to |notifications|
        invariant marked == AllRead(notifications[..k])
      {
        assert notifications[..k + 1] == notifications[..k] + [notifications[k]];
        marked := marked + [notifications[k].(isRead := true)];
      }
      assert notifications[..|notifications|] == notifications;
      notifications := marked;
    }
  }
}
