/** Feedback page: the user's conversations sorted newest first on a copy,
    split into received and sent, the mark-read-on-view rule and the choice
    of receiver for new messages. */
module FeedbackPage {
  import opened Common
  import Sorting
  import AuthContext
  import NotificationContext
  import FeedbackContext

  type Feedback = FeedbackContext.Feedback

  function CreatedAt(): Feedback -> int
  {
    (f: Feedback) => f.createdAt
  }

  function ReceivedBy(userId: string): Feedback -> bool
  {
    (f: Feedback) => f.receiverId == userId
  }

  function SentBy(userId: string): Feedback -> bool
  {
    (f: Feedback) => f.senderId == userId
  }

  /** The two tabs of a feedback page, both newest first. */
  datatype Tabs = Tabs(received: seq<Feedback>, sent: seq<Feedback>)

  /** `receivedFeedback` and `sentFeedback` out of a list sorted newest first. */
  function Partition(sorted: seq<Feedback>, userId: string): (r: Tabs)
    requires Sorting.NewestFirst(sorted, CreatedAt())
    ensures forall f :: f in r.received <==> f in sorted && f.receiverId == userId
    ensures forall f :: f in r.sent <==> f in sorted && f.senderId == userId
    ensures forall f {:trigger multiset(r.received)[f]} :: multiset(r.received)[f] ==
              if f.receiverId == userId then multiset(sorted)[f] else 0
    ensures forall f {:trigger multiset(r.sent)[f]} :: multiset(r.sent)[f] ==
              if f.senderId == userId then multiset(sorted)[f] else 0
    ensures IsSubsequence(r.received, sorted) && IsSubsequence(r.sent, sorted)
    ensures Sorting.NewestFirst(r.received, CreatedAt()) && Sorting.NewestFirst(r.sent, CreatedAt())
  {
    Sorting.FilterNewestFirst(sorted, ReceivedBy(userId), CreatedAt());
    Sorting.FilterNewestFirst(sorted, SentBy(userId), CreatedAt());
    FilterMultiplicity(sorted, ReceivedBy(userId));
    FilterMultiplicity(sorted, SentBy(userId));
    Tabs(Filter(sorted, ReceivedBy(userId)), Filter(sorted, SentBy(userId)))
  }

  /** What the page shows: the tabs, the receiver given to the send form, and
      whether that form is shown at all. */
  datatype View = View(tabs: Tabs, receiverId: string, sendForm: bool)

  /** The page: nothing without a user; students write to the fixed
      administrator, admins get an empty receiver and no send form. */
  function Render(fs: seq<Feedback>, user: Option<AuthContext.User>): (r: Option<View>)
    ensures r.None? <==> user.None?
    ensures r.Some? ==> forall f :: f in r.value.tabs.received <==> f in fs && f.receiverId == user.value.id
    ensures r.Some? ==> forall f :: f in r.value.tabs.sent <==> f in fs && f.senderId == user.value.id
    ensures r.Some? ==> Sorting.NewestFirst(r.value.tabs.received, CreatedAt()) &&
                        Sorting.NewestFirst(r.value.tabs.sent, CreatedAt())
    ensures r.Some? ==> r.value.tabs.received == Sorting.SortNewestFirst(Filter(fs, ReceivedBy(user.value.id)), CreatedAt())
    ensures r.Some? ==> r.value.tabs.sent == Sorting.SortNewestFirst(Filter(fs, SentBy(user.value.id)), CreatedAt())
    ensures r.Some? ==> (r.value.sendForm <==> user.value.role == AuthContext.Student)
    ensures r.Some? ==> r.value.receiverId == if user.value.role == AuthContext.Student
                                             then NotificationContext.DemoAdminId else ""
  {
    match user
    case None => None
    case Some(u) =>
      var sorted := Sorting.SortNewestFirst(FeedbackContext.GetFeedbackForUser(fs, u.id), CreatedAt());
      Sorting.SortSameElements(FeedbackContext.GetFeedbackForUser(fs, u.id), CreatedAt());
      SelectThenSort(fs, u.id);
      var student := u.role == AuthContext.Student;
      Some(View(Partition(sorted, u.id), if student then NotificationContext.DemoAdminId else "", student))
  }

  /** Each tab of the page is the user's received (or sent) items, sorted
      newest first: taking the user's conversations first changes nothing. */
  lemma SelectThenSort(fs: seq<Feedback>, userId: string)
    ensures var sorted := Sorting.SortNewestFirst(FeedbackContext.GetFeedbackForUser(fs, userId), CreatedAt());
            && Filter(sorted, ReceivedBy(userId)) == Sorting.SortNewestFirst(Filter(fs, ReceivedBy(userId)), CreatedAt())
            && Filter(sorted, SentBy(userId)) == Sorting.SortNewestFirst(Filter(fs, SentBy(userId)), CreatedAt())
  {
    var mine := FeedbackContext.GetFeedbackForUser(fs, userId);
    Sorting.FilterSortCommute(mine, ReceivedBy(userId), CreatedAt());
    Sorting.FilterSortCommute(mine, SentBy(userId), CreatedAt());
    FilterFilter(fs, FeedbackContext.Involves(userId), ReceivedBy(userId), ReceivedBy(userId));
    FilterFilter(fs, FeedbackContext.Involves(userId), SentBy(userId), SentBy(userId));
  }

  /** A message a user sends to themselves shows in both tabs. */
  lemma SelfAddressedInBoth(fs: seq<Feedback>, user: AuthContext.User, f: Feedback)
    requires f in fs && f.senderId == user.id && f.receiverId == user.id
    ensures f in Render(fs, Some(user)).value.tabs.received && f in Render(fs, Some(user)).value.tabs.sent
  {
  }

  /** Whether viewing an item marks it read: received by the viewer and unread. */
  predicate MarksRead(user: AuthContext.User, f: Feedback)
  {
    f.receiverId == user.id && !f.read
  }

  /** The list and the dialog state the view and reply handlers drive. */
  datatype Selection = Selection(feedback: seq<Feedback>, selected: Option<Feedback>, dialogOpen: bool)

  /** `handleView(item)`, shared word for word by AdminFeedback: select the
      item, open the dialog, and mark the item read when it was received by
      the viewer and unread. */
  function HandleView(s: Selection, user: AuthContext.User, item: Feedback): (r: Selection)
    ensures r.selected == Some(item) && r.dialogOpen
    ensures |r.feedback| == |s.feedback|
    ensures !MarksRead(user, item) ==> r.feedback == s.feedback
    ensures MarksRead(user, item) ==> forall i :: 0 <= i < |s.feedback| ==>
              r.feedback[i] == if s.feedback[i].id == item.id then s.feedback[i].(read := true) else s.feedback[i]
  {
    var fs := if MarksRead(user, item) then FeedbackContext.MarkAsRead(s.feedback, item.id) else s.feedback;
    Selection(fs, Some(item), true)
  }

  /** `handleReply(item)`: select the item and open the dialog, nothing read. */
  function HandleReply(s: Selection, item: Feedback): (r: Selection)
    ensures r.feedback == s.feedback && r.selected == Some(item) && r.dialogOpen
  {
    Selection(s.feedback, Some(item), true)
  }

  /** Viewing a received unread item takes it off the viewer's unread list and
      leaves the rest of that list as it was; viewing anything else changes no
      unread list. */
  lemma ViewingClearsUnread(s: Selection, user: AuthContext.User, item: Feedback)
    ensures MarksRead(user, item) ==>
              FeedbackContext.GetUnreadFeedback(HandleView(s, user, item).feedback, Some(user)) ==
              Filter(FeedbackContext.GetUnreadFeedback(s.feedback, Some(user)), FeedbackContext.NotId(item.id))
    ensures !MarksRead(user, item) ==> HandleView(s, user, item).feedback == s.feedback
  {
    if MarksRead(user, item) {
      FeedbackContext.MarkAsReadLeavesUnread(s.feedback, item.id, user);
    }
  }
}

/** AdminFeedback page: the same tabs, over every feedback item, and only
    for an administrator. */
module AdminFeedbackPage {
  import opened Common
  import Sorting
  import AuthContext
  import FeedbackContext
  import FeedbackPage

  type Feedback = FeedbackContext.Feedback

  /** The page: nothing unless the user is an administrator; otherwise all
      feedback sorted newest first, split by the admin's id. */
  function Render(fs: seq<Feedback>, user: Option<AuthContext.User>): (r: Option<FeedbackPage.Tabs>)
    ensures r.Some? <==> user.Some? && user.value.role == AuthContext.Admin
    ensures r.Some? ==> forall f :: f in r.value.received <==> f in fs && f.receiverId == user.value.id
    ensures r.Some? ==> forall f :: f in r.value.sent <==> f in fs && f.senderId == user.value.id
    ensures r.Some? ==> Sorting.NewestFirst(r.value.received, FeedbackPage.CreatedAt()) &&
                        Sorting.NewestFirst(r.value.sent, FeedbackPage.CreatedAt())
    ensures r.Some? ==>
              r.value.received ==
                Sorting.SortNewestFirst(Filter(fs, FeedbackPage.ReceivedBy(user.value.id)), FeedbackPage.CreatedAt())
    ensures r.Some? ==>
              r.value.sent == Sorting.SortNewestFirst(Filter(fs, FeedbackPage.SentBy(user.value.id)), FeedbackPage.CreatedAt())
  {
    match user
    case None => None
    case Some(u) =>
      if u.role != AuthContext.Admin then None
      else
        Sorting.SortSameElements(fs, FeedbackPage.CreatedAt());
        Sorting.FilterSortCommute(fs, FeedbackPage.ReceivedBy(u.id), FeedbackPage.CreatedAt());
        Sorting.FilterSortCommute(fs, FeedbackPage.SentBy(u.id), FeedbackPage.CreatedAt());
        Some(FeedbackPage.Partition(Sorting.SortNewestFirst(fs, FeedbackPage.CreatedAt()), u.id))
  }

  /** For an administrator the two feedback pages list the same items: the
      admin page sorts everything, the other page only the admin's own
      conversations, and the split keeps only those anyway. */
  lemma SameItemsAsFeedbackPage(fs: seq<Feedback>, admin: AuthContext.User, f: Feedback)
    requires admin.role == AuthContext.Admin
    ensures f in Render(fs, Some(admin)).value.received <==> f in FeedbackPage.Render(fs, Some(admin)).value.tabs.received
    ensures f in Render(fs, Some(admin)).value.sent <==> f in FeedbackPage.Render(fs, Some(admin)).value.tabs.sent
    ensures !FeedbackPage.Render(fs, Some(admin)).value.sendForm
  {
  }
}

/** FeedbackDialog: shows one item, offers a reply button while the item is
    unanswered, and wires the reply form to the item's sender and id. */
module FeedbackDialog {
  import opened Common
  import AuthContext
  import FeedbackContext
  import FeedbackForm

  type Feedback = FeedbackContext.Feedback

  /** The dialog's item (`null` renders nothing), its open flag and whether
      the reply form replaced the reply button. */
  datatype DialogState = DialogState(item: Option<Feedback>, open: bool, showReplyForm: bool)

  /** `!showReplyForm && onReply && !feedback.replied`, for a rendered item. */
  predicate ReplyButtonShown(s: DialogState, hasOnReply: bool)
  {
    s.item.Some? && !s.showReplyForm && hasOnReply && !s.item.value.replied
  }

  /** The props handed to the reply form: the receiver is the item's sender,
      the replied-to id is the item's id. */
  function ReplyFormProps(f: Feedback): (r: FeedbackForm.Props)
    ensures r.receiverId == f.senderId && r.replyToId == Some(f.id)
    ensures f.id != "" ==> FeedbackForm.ReplyMode(r)
  {
    FeedbackForm.Props(f.senderId, Some(f.id))
  }

  /** Clicking the reply button swaps it for the form. */
  function ClickReply(s: DialogState): (r: DialogState)
    ensures r.item == s.item && r.open == s.open && r.showReplyForm
    ensures !ReplyButtonShown(r, true)
  {
    s.(showReplyForm := true)
  }

  /** `handleClose`: the reply form is always hidden and the dialog closes. */
  function Close(s: DialogState): (r: DialogState)
    ensures r.item == s.item && !r.open && !r.showReplyForm
  {
    DialogState(s.item, false, false)
  }

  /** The reply form submits under the corrected schema and on success runs
      `handleClose`. `SubmitReplyAsWritten` is the same step under the schema
      as the form declares it. */
  function SubmitReply(box: FeedbackContext.Mailbox, user: Option<AuthContext.User>, s: DialogState,
                       v: FeedbackForm.Values, now: nat): (r: (FeedbackForm.Outcome, DialogState))
    requires s.item.Some? && s.showReplyForm
    ensures r.0 == FeedbackForm.Submit(box, user, ReplyFormProps(s.item.value), v, now)
    ensures r.0.succeeded ==> r.1 == Close(s)
    ensures !r.0.succeeded ==> r.1 == s
  {
    var out := FeedbackForm.Submit(box, user, ReplyFormProps(s.item.value), v, now);
    (out, if out.succeeded then Close(s) else s)
  }

  /** The dialog's reply step under the form's schema as written. */
  function SubmitReplyAsWritten(box: FeedbackContext.Mailbox, user: Option<AuthContext.User>, s: DialogState,
                                v: FeedbackForm.Values, now: nat): (r: (FeedbackForm.Outcome, DialogState))
    requires s.item.Some? && s.showReplyForm
    ensures r.0 == FeedbackForm.SubmitAsWritten(box, user, ReplyFormProps(s.item.value), v, now)
    ensures r.0.succeeded ==> r.1 == Close(s)
    ensures !r.0.succeeded ==> r.1 == s
  {
    var out := FeedbackForm.SubmitAsWritten(box, user, ReplyFormProps(s.item.value), v, now);
    (out, if out.succeeded then Close(s) else s)
  }

  /** As written, a reply typed in the dialog is never sent: the hidden
      subject keeps its empty default, so validation fails, the mailbox is
      unchanged and the dialog stays open with the form shown. */
  lemma AsWrittenReplyIsDropped(box: FeedbackContext.Mailbox, user: Option<AuthContext.User>, s: DialogState,
                                v: FeedbackForm.Values, now: nat)
    requires s.item.Some? && s.showReplyForm && s.item.value.id != ""
    requires v.subject == FeedbackForm.DefaultValues.subject
    ensures SubmitReplyAsWritten(box, user, s, v, now) == (FeedbackForm.Outcome(box, v, false), s)
  {
  }

  /** Under the corrected schema, a reply written in the dialog goes back to
      the item's sender under `RE: ` and its subject, marks the item replied,
      and closes the dialog, so the reply button is gone when the dialog is
      next opened on the item. */
  lemma ReplyGoesToSender(box: FeedbackContext.Mailbox, user: AuthContext.User, s: DialogState,
                          v: FeedbackForm.Values, now: nat)
    requires s.item.Some? && s.showReplyForm && s.item.value.id != ""
    requires s.item.value in box.feedback
    requires forall g :: g in box.feedback && g.id == s.item.value.id ==> g == s.item.value
    requires |v.message| >= 10
    ensures var (out, after) := SubmitReply(box, Some(user), s, v, now);
            && out.succeeded && !after.open && !after.showReplyForm
            && out.box.feedback[0].receiverId == s.item.value.senderId
            && out.box.feedback[0].subject == "RE: " + s.item.value.subject
            && (forall g :: g in out.box.feedback[1..] && g.id == s.item.value.id ==> g.replied)
  {
    var f := s.item.value;
    FeedbackContext.ReplyToUniqueItem(box, user, f, v.message, now);
  }
}
