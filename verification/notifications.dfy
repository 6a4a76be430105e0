/** NotificationContext: one list of notifications shared by all users,
    newest first. Each user sees and counts only the items addressed to
    them. The toast shown for the current user's own notifications is left
    out; the clock is the `now` parameter. */
module NotificationContext {
  import opened Common
  import AuthContext
  import DocumentsContext

  datatype Notification = Notification(
    id: string,
    userId: string,
    title: string,
    message: string,
    createdAt: int,
    read: bool,
    link: Option<string>,
    documentId: Option<string>,
    feedbackId: Option<string>)

  /** `Omit<Notification, 'id' | 'createdAt' | 'read'>`. */
  datatype NotificationInput = NotificationInput(
    userId: string,
    title: string,
    message: string,
    link: Option<string>,
    documentId: Option<string>,
    feedbackId: Option<string>)

  /** The administrator every upload is reported to. */
  const DemoAdminId: string := "7654321"

  /** `!n.read && n.userId === user?.id`: without a user nothing matches,
      since no item's user id is `undefined`. */
  function UnreadFor(user: Option<AuthContext.User>): Notification -> bool
  {
    (n: Notification) => user.Some? && !n.read && n.userId == user.value.id
  }

  /** `unreadCount`. */
  function UnreadCount(ns: seq<Notification>, user: Option<AuthContext.User>): (r: nat)
    ensures r <= |ns|
    ensures user.None? ==> r == 0
    ensures r == 0 <==> forall n :: n in ns ==> n.read || user.None? || n.userId != user.value.id
    ensures user.Some? ==> r == |set i: nat | i < |ns| && ns[i].userId == user.value.id && !ns[i].read|
  {
    var unread := Filter(ns, UnreadFor(user));
    assert unread == [] || unread[0] in unread;
    CountIsPositions(ns, UnreadFor(user));
    assert user.Some? ==>
      Positions(ns, UnreadFor(user)) == set i: nat | i < |ns| && ns[i].userId == user.value.id && !ns[i].read;
    |unread|
  }

  /** `addNotification(n)`: the new item goes first, unread, stamped with the
      clock reading as id and creation time. */
  function AddNotification(ns: seq<Notification>, input: NotificationInput, now: nat): (r: seq<Notification>)
    ensures |r| == |ns| + 1 && r[1..] == ns
    ensures !r[0].read
    ensures r[0].userId == input.userId && r[0].title == input.title && r[0].message == input.message &&
            r[0].link == input.link && r[0].documentId == input.documentId && r[0].feedbackId == input.feedbackId
    ensures r[0].id == DecimalString(now) && r[0].createdAt == now
  {
    [Notification(DecimalString(now), input.userId, input.title, input.message, now, false,
                  input.link, input.documentId, input.feedbackId)] + ns
  }

  /** The new item counts as unread exactly for its addressee. */
  lemma AddNotificationCount(ns: seq<Notification>, input: NotificationInput, now: nat, user: Option<AuthContext.User>)
    ensures UnreadCount(AddNotification(ns, input, now), user) ==
            UnreadCount(ns, user) + (if user.Some? && input.userId == user.value.id then 1 else 0)
  {
    var r := AddNotification(ns, input, now);
    assert r == [r[0]] + ns;
    FilterAppend([r[0]], ns, UnreadFor(user));
  }

  function WithId(id: string): Notification -> bool
  {
    (n: Notification) => n.id == id
  }

  function AddressedTo(userId: string): Notification -> bool
  {
    (n: Notification) => n.userId == userId
  }

  function SetRead(): Notification -> Notification
  {
    (n: Notification) => n.(read := true)
  }

  /** `markAsRead(id)`: the items with that id become read, nothing else changes. */
  function MarkAsRead(ns: seq<Notification>, id: string): (r: seq<Notification>)
    ensures |r| == |ns|
    ensures forall i :: 0 <= i < |ns| ==> r[i] == if ns[i].id == id then ns[i].(read := true) else ns[i]
  {
    MapWhere(ns, WithId(id), SetRead())
  }

  /** Marking the same item twice is marking it once. */
  lemma MarkAsReadIdempotent(ns: seq<Notification>, id: string)
    ensures MarkAsRead(MarkAsRead(ns, id), id) == MarkAsRead(ns, id)
  {
  }

  /** `markAllAsRead()`: nothing without a user; otherwise the user's own
      items become read and every other user's items are untouched. */
  function MarkAllAsRead(ns: seq<Notification>, user: Option<AuthContext.User>): (r: seq<Notification>)
    ensures user.None? ==> r == ns
    ensures |r| == |ns|
    ensures user.Some? ==> forall i :: 0 <= i < |ns| ==>
              r[i] == if ns[i].userId == user.value.id then ns[i].(read := true) else ns[i]
  {
    match user
    case None => ns
    case Some(u) => MapWhere(ns, AddressedTo(u.id), SetRead())
  }

  /** After marking all as read the current user has no unread items. */
  lemma MarkAllAsReadClears(ns: seq<Notification>, user: AuthContext.User)
    ensures UnreadCount(MarkAllAsRead(ns, Some(user)), Some(user)) == 0
  {
    var r := MarkAllAsRead(ns, Some(user));
    forall n | n in r
      ensures !UnreadFor(Some(user))(n)
    {
      var i :| 0 <= i < |r| && r[i] == n;
      assert n == if ns[i].userId == user.id then ns[i].(read := true) else ns[i];
    }
    FilterNone(r, UnreadFor(Some(user)));
  }

  /** Filtering after a rewrite that only ever turns matches into non-matches
      keeps at most as many elements. */
  lemma {:induction false} RewriteNeverAdds<T(!new)>(xs: seq<T>, p: T -> bool, q: T -> bool, f: T -> T)
    requires forall x :: p(f(x)) ==> p(x)
    ensures |Filter(MapWhere(xs, q, f), p)| <= |Filter(xs, p)|
    decreases |xs|
  {
    if xs != [] {
      MapWhereCons(xs, q, f);
      RewriteNeverAdds(xs[1..], p, q, f);
      var m := MapWhere(xs, q, f);
      assert m[1..] == MapWhere(xs[1..], q, f);
    }
  }

  /** Marking one item read never raises anyone's unread count. */
  lemma MarkAsReadNeverRaises(ns: seq<Notification>, id: string, user: Option<AuthContext.User>)
    ensures UnreadCount(MarkAsRead(ns, id), user) <= UnreadCount(ns, user)
  {
    RewriteNeverAdds(ns, UnreadFor(user), WithId(id), SetRead());
  }

  /** The opening of a status message: the title and the decision. */
  function StatusMessageBase(title: string, status: DocumentsContext.Status): string
  {
    "Your document \"" + title + "\" has been " + DocumentsContext.StatusName(status)
  }

  /** Whether `comments ? … : ''` takes the first branch: a present,
      non-empty string. */
  predicate Truthy(comments: Option<string>)
  {
    comments.Some? && comments.value != ""
  }

  /** The message of `documentStatusChanged`: the opening, then the comments
      exactly when they are truthy. */
  function StatusMessage(title: string, status: DocumentsContext.Status, comments: Option<string>): (r: string)
    ensures StartsWith(r, StatusMessageBase(title, status))
    ensures |r| > |StatusMessageBase(title, status)| <==> Truthy(comments)
    ensures Truthy(comments) ==> r[|StatusMessageBase(title, status)|..] == " with comments: " + comments.value
  {
    var base := StatusMessageBase(title, status);
    var suffix := if Truthy(comments) then " with comments: " + comments.value else "";
    assert (base + suffix)[..|base|] == base;
    assert (base + suffix)[|base|..] == suffix;
    base + suffix
  }

  /** `documentStatusChanged(document, status, comments)`: the owner of the
      document is told of the decision, with a link to their documents. */
  function DocumentStatusChanged(ns: seq<Notification>, doc: DocumentsContext.Document,
                                 status: DocumentsContext.Status, comments: Option<string>, now: nat): (r: seq<Notification>)
    requires status != DocumentsContext.Pending
    ensures |r| == |ns| + 1 && r[1..] == ns
    ensures r[0].userId == doc.userId && !r[0].read
    ensures r[0].title == if status == DocumentsContext.Approved then "Document Approved" else "Document Rejected"
    ensures r[0].message == StatusMessage(doc.title, status, comments)
    ensures r[0].documentId == Some(doc.id) && r[0].link == Some("/my-documents")
  {
    AddNotification(ns, NotificationInput(doc.userId,
                                          if status == DocumentsContext.Approved then "Document Approved" else "Document Rejected",
                                          StatusMessage(doc.title, status, comments),
                                          Some("/my-documents"), Some(doc.id), None), now)
  }

  /** `documentUploaded(document)`: always addressed to the fixed administrator. */
  function DocumentUploaded(ns: seq<Notification>, doc: DocumentsContext.Document, now: nat): (r: seq<Notification>)
    ensures |r| == |ns| + 1 && r[1..] == ns
    ensures r[0].userId == DemoAdminId && !r[0].read
    ensures r[0].title == "New Document Uploaded"
    ensures r[0].message == doc.userName + " uploaded a new document: \"" + doc.title + "\""
    ensures r[0].documentId == Some(doc.id) && r[0].link == Some("/admin/documents")
  {
    AddNotification(ns, NotificationInput(DemoAdminId, "New Document Uploaded",
                                          doc.userName + " uploaded a new document: \"" + doc.title + "\"",
                                          Some("/admin/documents"), Some(doc.id), None), now)
  }

  /** `feedbackReceived(userId, subject, fromName)`. */
  function FeedbackReceived(ns: seq<Notification>, userId: string, subject: string, fromName: string,
                            now: nat): (r: seq<Notification>)
    ensures |r| == |ns| + 1 && r[1..] == ns
    ensures r[0].userId == userId && !r[0].read
    ensures r[0].title == "New Feedback"
    ensures r[0].message == fromName + " sent feedback: \"" + subject + "\""
    ensures r[0].link == Some("/feedback") && r[0].documentId.None? && r[0].feedbackId.None?
  {
    AddNotification(ns, NotificationInput(userId, "New Feedback", fromName + " sent feedback: \"" + subject + "\"",
                                          Some("/feedback"), None, None), now)
  }

  /** A status notification raises the owner's unread count by one and no one
      else's. */
  lemma StatusNotificationReachesOwner(ns: seq<Notification>, doc: DocumentsContext.Document,
                                       status: DocumentsContext.Status, comments: Option<string>, now: nat,
                                       user: AuthContext.User)
    requires status != DocumentsContext.Pending
    ensures UnreadCount(DocumentStatusChanged(ns, doc, status, comments, now), Some(user)) ==
            UnreadCount(ns, Some(user)) + (if user.id == doc.userId then 1 else 0)
  {
    AddNotificationCount(ns, NotificationInput(doc.userId,
                                               if status == DocumentsContext.Approved then "Document Approved" else "Document Rejected",
                                               StatusMessage(doc.title, status, comments),
                                               Some("/my-documents"), Some(doc.id), None), now, Some(user));
  }
}
