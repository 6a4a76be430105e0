/** FeedbackContext: messages between students and the administrator,
    newest first. Sending and replying also notify the receiver, so the
    operations that do both take and return the notification list as well.
    The clock is the `now` parameter; toasts are left out. */
module FeedbackContext {
  import opened Common
  import AuthContext
  import NotificationContext

  datatype Feedback = Feedback(
    id: string,
    senderId: string,
    senderName: string,
    receiverId: string,
    subject: string,
    message: string,
    createdAt: int,
    read: bool,
    replied: bool)

  /** The feedback list together with the shared notification list. */
  datatype Mailbox = Mailbox(feedback: seq<Feedback>, notifications: seq<NotificationContext.Notification>)

  /** A new, unread, unanswered message from `user`. */
  function NewFeedback(user: AuthContext.User, receiverId: string, subject: string, message: string,
                       now: nat): Feedback
  {
    Feedback(DecimalString(now), user.id, user.name, receiverId, subject, message, now, false, false)
  }

  /** `sendFeedback(receiverId, subject, message)`: nothing without a user;
      otherwise the message goes first and the receiver is notified once. */
  function SendFeedback(box: Mailbox, user: Option<AuthContext.User>, receiverId: string, subject: string,
                        message: string, now: nat): (r: Mailbox)
    ensures user.None? ==> r == box
    ensures user.Some? ==> |r.feedback| == |box.feedback| + 1 && r.feedback[1..] == box.feedback
    ensures user.Some? ==> var f := r.feedback[0];
              f.senderId == user.value.id && f.senderName == user.value.name && f.receiverId == receiverId &&
              f.subject == subject && f.message == message && !f.read && !f.replied && f.id == DecimalString(now)
    ensures user.Some? ==>
              r.notifications == NotificationContext.FeedbackReceived(box.notifications, receiverId, subject,
                                                                      user.value.name, now)
  {
    match user
    case None => box
    case Some(u) =>
      Mailbox([NewFeedback(u, receiverId, subject, message, now)] + box.feedback,
              NotificationContext.FeedbackReceived(box.notifications, receiverId, subject, u.name, now))
  }

  function WithId(id: string): Feedback -> bool
  {
    (f: Feedback) => f.id == id
  }

  function NotId(id: string): Feedback -> bool
  {
    (f: Feedback) => f.id != id
  }

  function SetRead(): Feedback -> Feedback
  {
    (f: Feedback) => f.(read := true)
  }

  function SetReplied(): Feedback -> Feedback
  {
    (f: Feedback) => f.(replied := true)
  }

  /** `markAsRead(id)`. */
  function MarkAsRead(fs: seq<Feedback>, id: string): (r: seq<Feedback>)
    ensures |r| == |fs|
    ensures forall i :: 0 <= i < |fs| ==> r[i] == if fs[i].id == id then fs[i].(read := true) else fs[i]
  {
    MapWhere(fs, WithId(id), SetRead())
  }

  /** `replyToFeedback(originalId, message)`: nothing without a user or
      when no item has that id. Otherwise every item with the id is marked
      replied, the reply goes first, addressed to the original sender under
      `RE: ` and the original subject, and that sender is notified. */
  function ReplyToFeedback(box: Mailbox, user: Option<AuthContext.User>, originalId: string, message: string,
                           now: nat): (r: Mailbox)
    ensures user.None? || (forall f :: f in box.feedback ==> f.id != originalId) ==> r == box
    ensures user.Some? && (exists f :: f in box.feedback && f.id == originalId) ==>
              && |r.feedback| == |box.feedback| + 1
              && (forall i :: 0 <= i < |box.feedback| ==>
                    r.feedback[i + 1] == if box.feedback[i].id == originalId then box.feedback[i].(replied := true)
                                         else box.feedback[i])
              && exists k :: 0 <= k < |box.feedback| && box.feedback[k].id == originalId &&
                   (forall j :: 0 <= j < k ==> box.feedback[j].id != originalId) &&
                   var original := box.feedback[k];
                   && r.feedback[0] == NewFeedback(user.value, original.senderId, "RE: " + original.subject, message, now)
                   && r.notifications == NotificationContext.FeedbackReceived(
                        box.notifications, original.senderId, "RE: " + original.subject, user.value.name, now)
  {
    match user
    case None => box
    case Some(u) =>
      match Find(box.feedback, WithId(originalId))
      case None => box
      case Some(original) =>
        var reply := NewFeedback(u, original.senderId, "RE: " + original.subject, message, now);
        var marked := MapWhere(box.feedback, WithId(originalId), SetReplied());
        assert ([reply] + marked)[1..] == marked;
        Mailbox([reply] + marked,
                NotificationContext.FeedbackReceived(box.notifications, original.senderId,
                                                     "RE: " + original.subject, u.name, now))
  }

  /** Replying to the newest item answers it and puts the reply in front,
      with `RE: ` added even when the subject already starts with it. */
  lemma ReplyToNewest(box: Mailbox, user: AuthContext.User, message: string, now: nat)
    requires box.feedback != []
    ensures var original := box.feedback[0];
            var r := ReplyToFeedback(box, Some(user), original.id, message, now);
            && |r.feedback| >= 2
            && r.feedback[0] == NewFeedback(user, original.senderId, "RE: " + original.subject, message, now)
            && r.feedback[1] == original.(replied := true)
  {
    assert Find(box.feedback, WithId(box.feedback[0].id)) == Some(box.feedback[0]);
  }

  /** After marking the items with `id` replied, every item with that id is
      replied. */
  lemma MarkedAreReplied(fs: seq<Feedback>, id: string)
    ensures forall g :: g in MapWhere(fs, WithId(id), SetReplied()) && g.id == id ==> g.replied
  {
    var marked := MapWhere(fs, WithId(id), SetReplied());
    forall g | g in marked && g.id == id
      ensures g.replied
    {
      var i :| 0 <= i < |marked| && marked[i] == g;
    }
  }

  /** The item found for a unique id is that item. */
  lemma FindUnique(fs: seq<Feedback>, f: Feedback)
    requires f in fs
    requires forall g :: g in fs && g.id == f.id ==> g == f
    ensures Find(fs, WithId(f.id)) == Some(f)
  {
    assert WithId(f.id)(f);
  }

  /** Replying to an item whose id no other item shares answers exactly
      that item: the reply goes to its sender under `RE: ` and its subject,
      and every copy of it further down is marked replied. */
  lemma ReplyToUniqueItem(box: Mailbox, user: AuthContext.User, f: Feedback, message: string, now: nat)
    requires f in box.feedback
    requires forall g :: g in box.feedback && g.id == f.id ==> g == f
    ensures var r := ReplyToFeedback(box, Some(user), f.id, message, now);
            && |r.feedback| == |box.feedback| + 1
            && r.feedback[0] == NewFeedback(user, f.senderId, "RE: " + f.subject, message, now)
            && forall g :: g in r.feedback[1..] && g.id == f.id ==> g.replied
  {
    FindUnique(box.feedback, f);
    var marked := MapWhere(box.feedback, WithId(f.id), SetReplied());
    MarkedAreReplied(box.feedback, f.id);
    var r := ReplyToFeedback(box, Some(user), f.id, message, now);
    var reply := NewFeedback(user, f.senderId, "RE: " + f.subject, message, now);
    assert r.feedback == [reply] + marked;
    assert r.feedback[1..] == marked;
  }

  /** A reply to a message just sent goes back to its sender under `RE: `
      and marks the message replied. */
  lemma SendThenReply(box: Mailbox, student: AuthContext.User, admin: AuthContext.User, subject: string,
                      t1: nat, t2: nat)
    ensures var sent := SendFeedback(box, Some(student), admin.id, subject, "question", t1);
            var answered := ReplyToFeedback(sent, Some(admin), DecimalString(t1), "answer", t2);
            && |answered.feedback| >= 2
            && answered.feedback[0] == NewFeedback(admin, student.id, "RE: " + subject, "answer", t2)
            && answered.feedback[1].replied
  {
    var sent := SendFeedback(box, Some(student), admin.id, subject, "question", t1);
    assert sent.feedback[0] == NewFeedback(student, admin.id, subject, "question", t1);
    ReplyToNewest(sent, admin, "answer", t2);
  }

  /** `getUnreadFeedback()`: without a user, nothing; otherwise the unread
      items addressed to the user, in order. */
  function GetUnreadFeedback(fs: seq<Feedback>, user: Option<AuthContext.User>): (r: seq<Feedback>)
    ensures user.None? ==> r == []
    ensures user.Some? ==> forall f :: f in r <==> f in fs && f.receiverId == user.value.id && !f.read
    ensures user.Some? ==> forall f {:trigger multiset(r)[f]} :: multiset(r)[f] ==
                             if f.receiverId == user.value.id && !f.read then multiset(fs)[f] else 0
    ensures IsSubsequence(r, fs)
  {
    match user
    case None => []
    case Some(u) =>
      FilterMultiplicity(fs, UnreadBy(u.id));
      Filter(fs, UnreadBy(u.id))
  }

  function UnreadBy(userId: string): Feedback -> bool
  {
    (f: Feedback) => f.receiverId == userId && !f.read
  }

  /** Marking an item read takes it, and only it, off the unread list. */
  lemma MarkAsReadLeavesUnread(fs: seq<Feedback>, id: string, user: AuthContext.User)
    ensures GetUnreadFeedback(MarkAsRead(fs, id), Some(user)) == Filter(GetUnreadFeedback(fs, Some(user)), NotId(id))
  {
    FilterMapWhere(fs, UnreadBy(user.id), WithId(id), NotId(id), SetRead());
  }

  function Involves(userId: string): Feedback -> bool
  {
    (f: Feedback) => f.receiverId == userId || f.senderId == userId
  }

  /** `getFeedbackForUser(userId)`: the items the user sent or received, in order. */
  function GetFeedbackForUser(fs: seq<Feedback>, userId: string): (r: seq<Feedback>)
    ensures forall f :: f in r <==> f in fs && (f.receiverId == userId || f.senderId == userId)
    ensures forall f {:trigger multiset(r)[f]} :: multiset(r)[f] == if f.receiverId == userId || f.senderId == userId then multiset(fs)[f] else 0
    ensures IsSubsequence(r, fs)
  {
    FilterMultiplicity(fs, Involves(userId));
    Filter(fs, Involves(userId))
  }

  /** A sent message heads both the sender's and the receiver's lists and
      is invisible to everyone else. */
  lemma SentFeedbackVisibility(box: Mailbox, user: AuthContext.User, receiverId: string, subject: string,
                               message: string, now: nat, other: string)
    requires other != user.id && other != receiverId
    ensures var r := SendFeedback(box, Some(user), receiverId, subject, message, now).feedback;
            && GetFeedbackForUser(r, user.id) == [r[0]] + GetFeedbackForUser(box.feedback, user.id)
            && GetFeedbackForUser(r, receiverId) == [r[0]] + GetFeedbackForUser(box.feedback, receiverId)
            && GetFeedbackForUser(r, other) == GetFeedbackForUser(box.feedback, other)
  {
    var r := SendFeedback(box, Some(user), receiverId, subject, message, now).feedback;
    assert r == [r[0]] + box.feedback;
    FilterAppend([r[0]], box.feedback, Involves(user.id));
    FilterAppend([r[0]], box.feedback, Involves(receiverId));
    FilterAppend([r[0]], box.feedback, Involves(other));
  }
}
