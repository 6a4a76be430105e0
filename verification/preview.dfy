/** DocumentPreview: the dialog showing one document, its status badge and
    type label, and, for an administrator looking at a pending document, the
    approve and deny controls. Those controls are the only place where the
    portal checks a document's status before a decision. */
module DocumentPreview {
  import opened Common
  import DocumentsContext
  import NotificationContext
  import AdminDocumentsPage
  import PendingDocumentsPage

  type Document = DocumentsContext.Document

  datatype Badge = ApprovedBadge | RejectedBadge | PendingBadge

  /** `getStatusBadge`: approved and rejected have their own badge, every
      other status shows as pending. */
  function StatusBadge(s: DocumentsContext.Status): (r: Badge)
    ensures r == ApprovedBadge <==> s == DocumentsContext.Approved
    ensures r == RejectedBadge <==> s == DocumentsContext.Rejected
    ensures r == PendingBadge <==> s == DocumentsContext.Pending
  {
    match s
    case Approved => ApprovedBadge
    case Rejected => RejectedBadge
    case _ => PendingBadge
  }

  /** `type.replace('_', ' ').toUpperCase()`: the first underscore becomes a
      space, later ones stay, and the letters are capitalised. */
  function TypeLabel(typeName: string): (r: string)
    ensures |r| == |typeName|
    ensures forall i :: 0 <= i < |r| ==> r[i] == UpperChar(ReplaceFirst(typeName, '_', ' ')[i])
  {
    ToUpper(ReplaceFirst(typeName, '_', ' '))
  }

  /** Capitalising a concatenation capitalises each part. */
  lemma ToUpperAppend(a: string, b: string)
    ensures ToUpper(a + b) == ToUpper(a) + ToUpper(b)
  {
    assert forall i :: 0 <= i < |a| ==> (a + b)[i] == a[i];
    assert forall i :: |a| <= i < |a| + |b| ==> (a + b)[i] == b[i - |a|];
  }

  /** The type name `grade_review` with its underscore replaced. */
  lemma GradeReviewSpaced()
    ensures ReplaceFirst("grade_review", '_', ' ') == "grade" + " review"
  {
    var name := "grade_review";
    assert name[5] == '_' && forall j :: 0 <= j < 5 ==> name[j] != '_';
    assert IndexOf(name, '_') == Some(5);
  }

  /** The two halves of `grade review`, capitalised. */
  lemma UpperGradeReview()
    ensures ToUpper("grade") == "GRADE" && ToUpper(" review") == " REVIEW"
  {
  }

  /** `grade_review` is shown as `GRADE REVIEW`. */
  lemma GradeReviewLabel()
    ensures TypeLabel(DocumentsContext.TypeName(DocumentsContext.GradeReview)) == "GRADE REVIEW"
  {
    GradeReviewSpaced();
    ToUpperAppend("grade", " review");
    UpperGradeReview();
  }

  /** Only the first underscore is replaced: `a_b_c` is shown as `A B_C`. */
  lemma OnlyFirstUnderscore()
    ensures TypeLabel("a_b_c") == "A B_C"
  {
    var name := "a_b_c";
    assert name[1] == '_' && name[0] != '_';
    assert IndexOf(name, '_') == Some(1);
    var r := TypeLabel(name);
    assert forall i :: 0 <= i < |r| ==> r[i] == "A B_C"[i];
  }

  /** What the dialog shows for a document. */
  datatype Shown = Shown(badge: Badge, typeLabel: string, course: string, comments: bool,
                         reviewControls: bool, download: bool)

  /** The dialog: nothing without a document. The course falls back to
      `N/A` when absent or empty; the comment box shows non-empty comments;
      review controls need an administrator and a pending document; the
      download button is for everyone else. */
  function Render(doc: Option<Document>, isAdmin: bool): (r: Option<Shown>)
    ensures r.None? <==> doc.None?
    ensures r.Some? ==> r.value.badge == StatusBadge(doc.value.status)
    ensures r.Some? ==> (r.value.reviewControls <==> isAdmin && doc.value.status == DocumentsContext.Pending)
    ensures r.Some? ==> (r.value.download <==> !isAdmin)
    ensures r.Some? ==> (r.value.comments <==> NotificationContext.Truthy(doc.value.comments))
    ensures r.Some? ==> r.value.course == if doc.value.courseId.Some? && doc.value.courseId.value != ""
                                          then doc.value.courseId.value else "N/A"
  {
    match doc
    case None => None
    case Some(d) =>
      Some(Shown(StatusBadge(d.status), TypeLabel(DocumentsContext.TypeName(d.docType)),
                 if d.courseId.Some? && d.courseId.value != "" then d.courseId.value else "N/A",
                 NotificationContext.Truthy(d.comments),
                 isAdmin && d.status == DocumentsContext.Pending, !isAdmin))
  }

  datatype Decision = Approve | Deny

  /** A click on Approve or Deny: the page's handler, when it supplied one,
      receives the document and the typed comments; the dialog then closes
      either way. */
  datatype Click = Click(handled: Option<(Decision, Document, string)>, open: bool)

  function ClickDecision(decision: Decision, doc: Document, comments: string, handlerSupplied: bool): (r: Click)
    ensures !r.open
    ensures r.handled.Some? <==> handlerSupplied
    ensures r.handled.Some? ==> r.handled.value == (decision, doc, comments)
  {
    Click(if handlerSupplied then Some((decision, doc, comments)) else None, false)
  }

  /** The page's handler for a click: AdminDocuments and PendingDocuments
      both pass `HandleApprove` and `HandleReject`. */
  function Dispatch(p: AdminDocumentsPage.Portal, c: Click, now: nat): (r: AdminDocumentsPage.Portal)
    ensures c.handled.None? ==> r == p
    ensures c.handled.Some? && c.handled.value.0 == Approve ==>
              r == AdminDocumentsPage.HandleApprove(p, c.handled.value.1, c.handled.value.2, now)
    ensures c.handled.Some? && c.handled.value.0 == Deny ==>
              r == AdminDocumentsPage.HandleReject(p, c.handled.value.1, c.handled.value.2, now)
    ensures c.handled.Some? ==> |r.notifications| == |p.notifications| + 1
  {
    match c.handled
    case None => p
    case Some((decision, doc, comments)) =>
      match decision
      case Approve => AdminDocumentsPage.HandleApprove(p, doc, comments, now)
      case Deny => AdminDocumentsPage.HandleReject(p, doc, comments, now)
  }

  /** Deciding from the preview of a pending document removes it from the
      pending page, closes the dialog, and a preview of the decided record no
      longer offers the controls. */
  lemma DecisionFromPreview(p: AdminDocumentsPage.Portal, doc: Document, decision: Decision, comments: string,
                            now: nat, query: string)
    requires Render(Some(doc), true).value.reviewControls
    ensures var c := ClickDecision(decision, doc, comments, true);
            var after := Dispatch(p, c, now);
            && !c.open
            && PendingDocumentsPage.FilteredDocuments(after.store.documents, query) ==
               Filter(PendingDocumentsPage.FilteredDocuments(p.store.documents, query), DocumentsContext.NotId(doc.id))
            && forall d :: d in after.store.documents && d.id == doc.id ==> !Render(Some(d), true).value.reviewControls
  {
    PendingDocumentsPage.DecidedLeavesList(p, doc, comments, now, query);
  }
}
