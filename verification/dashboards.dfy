/** AdminDashboard page: the three status counts over every submitted
    document and the five most recently created ones. The "recent" list is
    obtained by sorting the provider's own array in place, so rendering the
    page reorders the shared document list; the model returns that list. */
module AdminDashboard {
  import opened Common
  import Sorting
  import DocumentsContext

  type Document = DocumentsContext.Document

  datatype Counts = Counts(pending: nat, approved: nat, rejected: nat)

  /** How many documents have the status: `filter(d => d.status === s).length`. */
  function StatusCount(documents: seq<Document>, s: DocumentsContext.Status): (r: nat)
    ensures r == |set i: nat | i < |documents| && documents[i].status == s|
  {
    CountIsPositions(documents, DocumentsContext.HasStatus(s));
    assert Positions(documents, DocumentsContext.HasStatus(s)) == set i: nat | i < |documents| && documents[i].status == s;
    Count(documents, DocumentsContext.HasStatus(s))
  }

  /** Every document has exactly one of the three statuses. */
  lemma {:induction false} StatusCountsPartition(documents: seq<Document>)
    ensures StatusCount(documents, DocumentsContext.Pending) + StatusCount(documents, DocumentsContext.Approved) +
            StatusCount(documents, DocumentsContext.Rejected) == |documents|
    decreases |documents|
  {
    if documents != [] {
      StatusCountsPartition(documents[1..]);
    }
  }

  /** `pendingDocs`, `approvedDocs`, `rejectedDocs`. */
  function StatusCounts(documents: seq<Document>): (r: Counts)
    ensures r.pending + r.approved + r.rejected == |documents|
    ensures r.pending == |set i: nat | i < |documents| && documents[i].status == DocumentsContext.Pending|
    ensures r.approved == |set i: nat | i < |documents| && documents[i].status == DocumentsContext.Approved|
    ensures r.rejected == |set i: nat | i < |documents| && documents[i].status == DocumentsContext.Rejected|
    ensures r.pending == 0 <==> forall d :: d in documents ==> d.status != DocumentsContext.Pending
    ensures r.approved == 0 <==> forall d :: d in documents ==> d.status != DocumentsContext.Approved
    ensures r.rejected == 0 <==> forall d :: d in documents ==> d.status != DocumentsContext.Rejected
  {
    StatusCountsPartition(documents);
    var p := Filter(documents, DocumentsContext.HasStatus(DocumentsContext.Pending));
    var a := Filter(documents, DocumentsContext.HasStatus(DocumentsContext.Approved));
    var j := Filter(documents, DocumentsContext.HasStatus(DocumentsContext.Rejected));
    assert p == [] || p[0] in p;
    assert a == [] || a[0] in a;
    assert j == [] || j[0] in j;
    Counts(StatusCount(documents, DocumentsContext.Pending), StatusCount(documents, DocumentsContext.Approved),
           StatusCount(documents, DocumentsContext.Rejected))
  }

  function CreatedAt(): Document -> int
  {
    (d: Document) => d.createdAt
  }

  /** What rendering produces: the counts, the recent list and the shared
      document array as the in-place sort leaves it. */
  datatype View = View(counts: Counts, recent: seq<Document>, documents: seq<Document>)

  /** The page: counts taken before the sort, then
      `documents.sort(newest createdAt first).slice(0, 5)`. */
  function Render(documents: seq<Document>): (r: View)
    ensures r.counts == StatusCounts(documents)
    ensures multiset(r.documents) == multiset(documents) && |r.documents| == |documents|
    ensures Sorting.NewestFirst(r.documents, CreatedAt())
    ensures |r.recent| == if |documents| < 5 then |documents| else 5
    ensures r.recent == r.documents[..|r.recent|]
    ensures forall k :: Sorting.WithKey(r.documents, CreatedAt(), k) == Sorting.WithKey(documents, CreatedAt(), k)
  {
    var sorted := Sorting.SortNewestFirst(documents, CreatedAt());
    assert |sorted| == |documents|;
    assert forall k :: Sorting.WithKey(sorted, CreatedAt(), k) == Sorting.WithKey(documents, CreatedAt(), k) by {
      forall k
        ensures Sorting.WithKey(sorted, CreatedAt(), k) == Sorting.WithKey(documents, CreatedAt(), k)
      {
        Sorting.SortStable(documents, CreatedAt(), k);
      }
    }
    View(StatusCounts(documents), Sorting.Take(sorted, 5), sorted)
  }

  /** No document left off the recent list was created after one on it. */
  lemma RecentAreNewest(documents: seq<Document>)
    ensures var v := Render(documents);
            forall i, d :: 0 <= i < |v.recent| && d in documents && d !in v.recent ==>
              d.createdAt <= v.recent[i].createdAt
  {
    var v := Render(documents);
    assert v.recent == Sorting.Newest(documents, CreatedAt(), 5);
    forall i, d | 0 <= i < |v.recent| && d in documents && d !in v.recent
      ensures d.createdAt <= v.recent[i].createdAt
    {
      Sorting.LeftOutIsOlder(documents, CreatedAt(), 5, d);
    }
  }

  /** Rendering reorders the shared array but a second rendering still
      shows the same counts. */
  lemma RerenderKeepsCounts(documents: seq<Document>)
    ensures StatusCounts(Render(documents).documents) == StatusCounts(documents)
  {
    var sorted := Render(documents).documents;
    CountPermutation(sorted, documents, DocumentsContext.HasStatus(DocumentsContext.Pending));
    CountPermutation(sorted, documents, DocumentsContext.HasStatus(DocumentsContext.Approved));
    CountPermutation(sorted, documents, DocumentsContext.HasStatus(DocumentsContext.Rejected));
  }
}

/** Dashboard page: for a student, counts over their own submitted documents,
    the size of the whole drafts list and their courses; for an admin, counts
    over every document and the five most recently updated ones, again by an
    in-place sort of the shared array. */
module Dashboard {
  import opened Common
  import Sorting
  import AuthContext
  import DocumentsContext
  import CourseContext
  import AdminDashboard

  type Document = DocumentsContext.Document

  datatype StudentPanel = StudentPanel(total: nat, drafts: nat, approved: nat, pending: nat)
  datatype AdminPanel = AdminPanel(all: nat, approved: nat, pending: nat, recent: seq<Document>)

  /** The panels shown and the shared document array after rendering. */
  datatype View = View(student: Option<StudentPanel>, admin: Option<AdminPanel>, courses: seq<CourseContext.Course>,
                       documents: seq<Document>)

  function UpdatedAt(): Document -> int
  {
    (d: Document) => d.updatedAt
  }

  /** `courses`: fetched for students only. */
  function CoursesFor(catalogue: seq<CourseContext.Course>, enrollments: map<string, seq<string>>,
                      user: AuthContext.User): (r: seq<CourseContext.Course>)
    ensures user.role != AuthContext.Student ==> r == []
    ensures user.role == AuthContext.Student ==>
              forall c :: c in r <==> c in catalogue && c.id in CourseContext.EnrolledIds(enrollments, user.id)
    ensures user.role == AuthContext.Student ==> r == CourseContext.GetStudentCourses(catalogue, enrollments, user.id)
  {
    if user.role == AuthContext.Student then CourseContext.GetStudentCourses(catalogue, enrollments, user.id) else []
  }

  /** The number of a user's documents with a status, counted over the whole
      list: the student cards filter by owner first, then by status. */
  lemma OwnStatusCount(documents: seq<Document>, userId: string, s: DocumentsContext.Status)
    ensures AdminDashboard.StatusCount(DocumentsContext.GetDocumentsByUser(documents, userId), s) ==
            |set i: nat | i < |documents| && documents[i].userId == userId && documents[i].status == s|
  {
    var both := (d: Document) => d.userId == userId && d.status == s;
    FilterFilter(documents, DocumentsContext.OwnedBy(userId), DocumentsContext.HasStatus(s), both);
    CountIsPositions(documents, both);
    assert Positions(documents, both) ==
           set i: nat | i < |documents| && documents[i].userId == userId && documents[i].status == s;
  }

  /** The student's cards: their documents, every draft of every user, and
      their approved and pending documents. */
  function StudentCards(store: DocumentsContext.DocStore, userId: string): (r: StudentPanel)
    ensures r.total == |DocumentsContext.GetDocumentsByUser(store.documents, userId)|
    ensures r.total == |set i: nat | i < |store.documents| && store.documents[i].userId == userId|
    ensures r.drafts == |store.drafts|
    ensures r.approved == |set i: nat | i < |store.documents| && store.documents[i].userId == userId &&
                                        store.documents[i].status == DocumentsContext.Approved|
    ensures r.pending == |set i: nat | i < |store.documents| && store.documents[i].userId == userId &&
                                       store.documents[i].status == DocumentsContext.Pending|
    ensures r.approved + r.pending <= r.total
  {
    var mine := DocumentsContext.GetDocumentsByUser(store.documents, userId);
    CountIsPositions(store.documents, DocumentsContext.OwnedBy(userId));
    assert Positions(store.documents, DocumentsContext.OwnedBy(userId)) ==
           set i: nat | i < |store.documents| && store.documents[i].userId == userId;
    AdminDashboard.StatusCountsPartition(mine);
    OwnStatusCount(store.documents, userId, DocumentsContext.Approved);
    OwnStatusCount(store.documents, userId, DocumentsContext.Pending);
    StudentPanel(|mine|, |store.drafts|, AdminDashboard.StatusCount(mine, DocumentsContext.Approved),
                 AdminDashboard.StatusCount(mine, DocumentsContext.Pending))
  }

  /** The admin's cards and "Recent Activity": counts over every document,
      then the five most recently updated after sorting the array in place. */
  function AdminCards(documents: seq<Document>): (r: (AdminPanel, seq<Document>))
    ensures r.0.all == |documents| && r.0.approved + r.0.pending <= r.0.all
    ensures r.0.approved == |set i: nat | i < |documents| && documents[i].status == DocumentsContext.Approved|
    ensures r.0.pending == |set i: nat | i < |documents| && documents[i].status == DocumentsContext.Pending|
    ensures multiset(r.1) == multiset(documents) && Sorting.NewestFirst(r.1, UpdatedAt())
    ensures |r.0.recent| == (if |documents| < 5 then |documents| else 5) && r.0.recent == r.1[..|r.0.recent|]
    ensures forall k :: Sorting.WithKey(r.1, UpdatedAt(), k) == Sorting.WithKey(documents, UpdatedAt(), k)
  {
    AdminDashboard.StatusCountsPartition(documents);
    var sorted := Sorting.SortNewestFirst(documents, UpdatedAt());
    assert forall k :: Sorting.WithKey(sorted, UpdatedAt(), k) == Sorting.WithKey(documents, UpdatedAt(), k) by {
      forall k
        ensures Sorting.WithKey(sorted, UpdatedAt(), k) == Sorting.WithKey(documents, UpdatedAt(), k)
      {
        Sorting.SortStable(documents, UpdatedAt(), k);
      }
    }
    (AdminPanel(|documents|, AdminDashboard.StatusCount(documents, DocumentsContext.Approved),
                AdminDashboard.StatusCount(documents, DocumentsContext.Pending), Sorting.Take(sorted, 5)),
     sorted)
  }

  /** The page: nothing without a user; the student panel for students, the
      admin panel for admins. */
  function Render(store: DocumentsContext.DocStore, catalogue: seq<CourseContext.Course>,
                  enrollments: map<string, seq<string>>, user: Option<AuthContext.User>): (r: Option<View>)
    ensures r.None? <==> user.None?
    ensures r.Some? ==> (r.value.student.Some? <==> user.value.role == AuthContext.Student)
    ensures r.Some? ==> (r.value.admin.Some? <==> user.value.role == AuthContext.Admin)
    ensures r.Some? && r.value.student.Some? ==> r.value.student.value == StudentCards(store, user.value.id)
    ensures r.Some? && r.value.admin.Some? ==> r.value.admin.value == AdminCards(store.documents).0
    ensures r.Some? ==> multiset(r.value.documents) == multiset(store.documents)
    ensures r.Some? && user.value.role != AuthContext.Admin ==> r.value.documents == store.documents
    ensures r.Some? && user.value.role == AuthContext.Admin ==>
              r.value.documents == AdminCards(store.documents).1 && Sorting.NewestFirst(r.value.documents, UpdatedAt())
    ensures r.Some? ==> r.value.courses == CoursesFor(catalogue, enrollments, user.value)
  {
    match user
    case None => None
    case Some(u) =>
      var student := if u.role == AuthContext.Student then Some(StudentCards(store, u.id)) else None;
      var courses := CoursesFor(catalogue, enrollments, u);
      if u.role == AuthContext.Admin then
        var (panel, sorted) := AdminCards(store.documents);
        Some(View(student, Some(panel), courses, sorted))
      else
        Some(View(student, None, courses, store.documents))
  }

  /** The draft card counts every user's drafts: another student saving a
      draft raises this student's number too. */
  lemma DraftCardCountsEveryone(store: DocumentsContext.DocStore, me: AuthContext.User, other: AuthContext.User,
                                data: DocumentsContext.UploadData, now: nat)
    ensures StudentCards(DocumentsContext.UploadDocument(store, Some(other), data, true, now), me.id).drafts ==
            StudentCards(store, me.id).drafts + 1
    ensures StudentCards(DocumentsContext.UploadDocument(store, Some(other), data, true, now), me.id).total ==
            StudentCards(store, me.id).total
  {
  }

  /** The student's cards follow their own uploads: a submission raises
      their total and pending counts by one each. */
  lemma SubmissionCounted(store: DocumentsContext.DocStore, me: AuthContext.User, data: DocumentsContext.UploadData,
                          now: nat)
    ensures var after := StudentCards(DocumentsContext.UploadDocument(store, Some(me), data, false, now), me.id);
            var before := StudentCards(store, me.id);
            after.total == before.total + 1 && after.pending == before.pending + 1 &&
            after.approved == before.approved
  {
    var doc := DocumentsContext.NewDocument(data, me, false, now);
    var mine := DocumentsContext.GetDocumentsByUser(store.documents, me.id);
    var up := DocumentsContext.UploadDocument(store, Some(me), data, false, now);
    assert up.documents == store.documents + [doc];
    FilterAppend(store.documents, [doc], DocumentsContext.OwnedBy(me.id));
    assert DocumentsContext.GetDocumentsByUser(up.documents, me.id) == mine + [doc];
    FilterAppend(mine, [doc], DocumentsContext.HasStatus(DocumentsContext.Approved));
    FilterAppend(mine, [doc], DocumentsContext.HasStatus(DocumentsContext.Pending));
  }
}
