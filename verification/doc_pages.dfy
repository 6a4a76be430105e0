/** MyDocuments page: the current user's submitted documents, narrowed by the
    search box and the status selector, and the confirmation that carries out
    a requested deletion. A page without a user renders nothing, which the
    `None` results stand for. */
module MyDocumentsPage {
  import opened Common
  import AuthContext
  import DocumentsContext

  type Document = DocumentsContext.Document

  /** The search box: the query occurs, ignoring case, in the title or in the
      original file name. */
  predicate MatchesSearch(d: Document, query: string)
  {
    MatchesQuery(d.title, query) || MatchesQuery(d.originalFileName, query)
  }

  /** The status selector: `all`, or exactly the name of the document's status. */
  predicate MatchesStatus(d: Document, statusFilter: string)
  {
    statusFilter == "all" || DocumentsContext.StatusName(d.status) == statusFilter
  }

  function Selected(query: string, statusFilter: string): Document -> bool
  {
    (d: Document) => MatchesSearch(d, query) && MatchesStatus(d, statusFilter)
  }

  function MineAndSelected(userId: string, query: string, statusFilter: string): Document -> bool
  {
    (d: Document) => d.userId == userId && MatchesSearch(d, query) && MatchesStatus(d, statusFilter)
  }

  /** `filteredDocuments`: the user's documents, then the search and the
      status selector, in list order. */
  function FilteredDocuments(documents: seq<Document>, user: Option<AuthContext.User>, query: string,
                             statusFilter: string): (r: Option<seq<Document>>)
    ensures r.None? <==> user.None?
    ensures r.Some? ==> forall d :: d in r.value <==>
              d in documents && d.userId == user.value.id && MatchesSearch(d, query) && MatchesStatus(d, statusFilter)
    ensures r.Some? ==>
              forall d {:trigger multiset(r.value)[d]} :: multiset(r.value)[d] ==
                if d.userId == user.value.id && MatchesSearch(d, query) && MatchesStatus(d, statusFilter)
                then multiset(documents)[d] else 0
    ensures r.Some? ==> IsSubsequence(r.value, documents)
  {
    match user
    case None => None
    case Some(u) =>
      FilterFilter(documents, DocumentsContext.OwnedBy(u.id), Selected(query, statusFilter),
                   MineAndSelected(u.id, query, statusFilter));
      FilterMultiplicity(documents, MineAndSelected(u.id, query, statusFilter));
      Some(Filter(DocumentsContext.GetDocumentsByUser(documents, u.id), Selected(query, statusFilter)))
  }

  /** An empty search with `all` shows every document of the user. */
  lemma UnfilteredShowsAll(documents: seq<Document>, user: AuthContext.User)
    ensures FilteredDocuments(documents, Some(user), "", "all") ==
            Some(DocumentsContext.GetDocumentsByUser(documents, user.id))
  {
    var mine := DocumentsContext.GetDocumentsByUser(documents, user.id);
    forall d | d in mine
      ensures Selected("", "all")(d)
    {
      EmptyQueryMatches(d.title);
    }
    FilterAll(mine, Selected("", "all"));
  }

  /** Choosing a status in the selector is filtering by that status. */
  lemma StatusFilterIsExact(documents: seq<Document>, user: AuthContext.User, s: DocumentsContext.Status)
    ensures FilteredDocuments(documents, Some(user), "", DocumentsContext.StatusName(s)) ==
            Some(Filter(DocumentsContext.GetDocumentsByUser(documents, user.id), DocumentsContext.HasStatus(s)))
  {
    var mine := DocumentsContext.GetDocumentsByUser(documents, user.id);
    forall d | d in mine
      ensures Selected("", DocumentsContext.StatusName(s))(d) == DocumentsContext.HasStatus(s)(d)
    {
      EmptyQueryMatches(d.title);
      DocumentsContext.StatusNamesDistinct(d.status, s);
      assert "all" != DocumentsContext.StatusName(s);
    }
    FilterCongruent(mine, Selected("", DocumentsContext.StatusName(s)), DocumentsContext.HasStatus(s));
  }

  /** A selector value that names no status shows nothing at all. */
  lemma UnknownStatusShowsNothing(documents: seq<Document>, user: AuthContext.User, query: string,
                                  statusFilter: string)
    requires statusFilter !in ["all", "pending", "approved", "rejected"]
    ensures FilteredDocuments(documents, Some(user), query, statusFilter) == Some([])
  {
    var mine := DocumentsContext.GetDocumentsByUser(documents, user.id);
    forall d | d in mine
      ensures !Selected(query, statusFilter)(d)
    {
      assert DocumentsContext.StatusName(d.status) in ["pending", "approved", "rejected"];
    }
    FilterNone(mine, Selected(query, statusFilter));
  }

  /** The documents of a page together with the one awaiting confirmation of
      its deletion (`documentToDelete`). */
  datatype DeleteDialog = DeleteDialog(store: DocumentsContext.DocStore, toDelete: Option<Document>)

  /** `handleDeleteConfirm`, which the MyDocument and DraftDocuments pages
      repeat word for word: the awaited document is deleted by id and the
      dialog forgets it; with nothing awaited, nothing happens. */
  function HandleDeleteConfirm(s: DeleteDialog): (r: DeleteDialog)
    ensures r.toDelete.None?
    ensures s.toDelete.None? ==> r.store == s.store
    ensures s.toDelete.Some? ==>
              var id := s.toDelete.value.id;
              var lane := DocumentsContext.IsDraftId(id);
              && DocumentsContext.Routed(r.store, !lane) == DocumentsContext.Routed(s.store, !lane)
              && forall d :: d in DocumentsContext.Routed(r.store, lane) <==>
                               d in DocumentsContext.Routed(s.store, lane) && d.id != id
    ensures s.toDelete.Some? ==> r.store == DocumentsContext.DeleteDocument(s.store, s.toDelete.value.id)
  {
    match s.toDelete
    case None => s
    case Some(doc) => DeleteDialog(DocumentsContext.DeleteDocument(s.store, doc.id), None)
  }

  function Remaining(id: string, userId: string, query: string, statusFilter: string): Document -> bool
  {
    (d: Document) => d.id != id && d.userId == userId && MatchesSearch(d, query) && MatchesStatus(d, statusFilter)
  }

  /** Confirming the deletion of a submitted document takes every record with
      its id, and nothing else, off the page. */
  lemma ConfirmedDocumentLeaves(s: DeleteDialog, user: AuthContext.User, query: string, statusFilter: string)
    requires s.toDelete.Some? && !DocumentsContext.IsDraftId(s.toDelete.value.id)
    ensures FilteredDocuments(HandleDeleteConfirm(s).store.documents, Some(user), query, statusFilter).value ==
            Filter(FilteredDocuments(s.store.documents, Some(user), query, statusFilter).value,
                   DocumentsContext.NotId(s.toDelete.value.id))
  {
    var id := s.toDelete.value.id;
    var docs := s.store.documents;
    var kept := Filter(docs, DocumentsContext.NotId(id));
    var mine := MineAndSelected(user.id, query, statusFilter);
    var both := Remaining(id, user.id, query, statusFilter);
    assert HandleDeleteConfirm(s).store.documents == kept;
    FilterFilter(kept, DocumentsContext.OwnedBy(user.id), Selected(query, statusFilter), mine);
    FilterFilter(docs, DocumentsContext.NotId(id), mine, both);
    FilterFilter(docs, DocumentsContext.OwnedBy(user.id), Selected(query, statusFilter), mine);
    FilterFilter(docs, mine, DocumentsContext.NotId(id), both);
  }
}

/** MyDocument page: the same list as MyDocuments without the status
    selector, and the same delete confirmation. */
module MyDocumentPage {
  import opened Common
  import AuthContext
  import DocumentsContext
  import MyDocumentsPage

  type Document = DocumentsContext.Document

  /** `filteredDocuments`: the user's documents matching the search on title
      or file name. */
  function FilteredDocuments(documents: seq<Document>, user: Option<AuthContext.User>, query: string)
    : (r: Option<seq<Document>>)
    ensures r.None? <==> user.None?
    ensures r.Some? ==> forall d :: d in r.value <==>
              d in documents && d.userId == user.value.id && MyDocumentsPage.MatchesSearch(d, query)
    ensures r.Some? ==>
              forall d {:trigger multiset(r.value)[d]} :: multiset(r.value)[d] ==
                if d.userId == user.value.id && MyDocumentsPage.MatchesSearch(d, query) then multiset(documents)[d] else 0
    ensures r.Some? ==> IsSubsequence(r.value, documents)
  {
    match user
    case None => None
    case Some(u) =>
      var search := (d: Document) => MyDocumentsPage.MatchesSearch(d, query);
      var mineAndFound := (d: Document) => d.userId == u.id && MyDocumentsPage.MatchesSearch(d, query);
      FilterFilter(documents, DocumentsContext.OwnedBy(u.id), search, mineAndFound);
      FilterMultiplicity(documents, mineAndFound);
      Some(Filter(DocumentsContext.GetDocumentsByUser(documents, u.id), search))
  }

  /** The page shows what MyDocuments shows with the selector at `all`. */
  lemma SameAsAllStatuses(documents: seq<Document>, user: Option<AuthContext.User>, query: string)
    ensures FilteredDocuments(documents, user, query) == MyDocumentsPage.FilteredDocuments(documents, user, query, "all")
  {
    if user.Some? {
      FilterCongruent(DocumentsContext.GetDocumentsByUser(documents, user.value.id),
                      (d: Document) => MyDocumentsPage.MatchesSearch(d, query),
                      MyDocumentsPage.Selected(query, "all"));
    }
  }

  /** Confirming a deletion here removes the document from this page exactly
      as on MyDocuments. */
  lemma ConfirmedDocumentLeaves(s: MyDocumentsPage.DeleteDialog, user: AuthContext.User, query: string)
    requires s.toDelete.Some? && !DocumentsContext.IsDraftId(s.toDelete.value.id)
    ensures FilteredDocuments(MyDocumentsPage.HandleDeleteConfirm(s).store.documents, Some(user), query).value ==
            Filter(FilteredDocuments(s.store.documents, Some(user), query).value,
                   DocumentsContext.NotId(s.toDelete.value.id))
  {
    SameAsAllStatuses(MyDocumentsPage.HandleDeleteConfirm(s).store.documents, Some(user), query);
    SameAsAllStatuses(s.store.documents, Some(user), query);
    MyDocumentsPage.ConfirmedDocumentLeaves(s, user, query, "all");
  }
}

/** DraftDocuments page: reads only the drafts list; keeps the user's drafts
    whose title matches the search (the file name is not searched). */
module DraftDocumentsPage {
  import opened Common
  import AuthContext
  import DocumentsContext
  import MyDocumentsPage

  type Document = DocumentsContext.Document

  function MineAndTitled(userId: string, query: string): Document -> bool
  {
    (d: Document) => d.userId == userId && MatchesQuery(d.title, query)
  }

  /** `filteredDocuments` over `draftDocuments`. */
  function FilteredDrafts(store: DocumentsContext.DocStore, user: Option<AuthContext.User>, query: string)
    : (r: Option<seq<Document>>)
    ensures r.None? <==> user.None?
    ensures r.Some? ==> forall d :: d in r.value <==>
              d in store.drafts && d.userId == user.value.id && MatchesQuery(d.title, query)
    ensures r.Some? ==>
              forall d {:trigger multiset(r.value)[d]} :: multiset(r.value)[d] ==
                if d.userId == user.value.id && MatchesQuery(d.title, query) then multiset(store.drafts)[d] else 0
    ensures r.Some? ==> IsSubsequence(r.value, store.drafts)
  {
    match user
    case None => None
    case Some(u) =>
      FilterMultiplicity(store.drafts, MineAndTitled(u.id, query));
      Some(Filter(store.drafts, MineAndTitled(u.id, query)))
  }

  /** A draft saved by the user appears last on their page, whatever the
      submitted documents are. */
  lemma SavedDraftAppears(store: DocumentsContext.DocStore, user: AuthContext.User,
                          data: DocumentsContext.UploadData, now: nat)
    ensures var after := DocumentsContext.UploadDocument(store, Some(user), data, true, now);
            FilteredDrafts(after, Some(user), "").value ==
            FilteredDrafts(store, Some(user), "").value + [DocumentsContext.NewDocument(data, user, true, now)]
  {
    var doc := DocumentsContext.NewDocument(data, user, true, now);
    EmptyQueryMatches(doc.title);
    FilterAppend(store.drafts, [doc], MineAndTitled(user.id, ""));
  }

  /** Confirming the deletion of a draft takes it, and nothing else, off the
      page and leaves the submitted documents alone. */
  lemma ConfirmedDraftLeaves(s: MyDocumentsPage.DeleteDialog, user: AuthContext.User, query: string)
    requires s.toDelete.Some? && DocumentsContext.IsDraftId(s.toDelete.value.id)
    ensures MyDocumentsPage.HandleDeleteConfirm(s).store.documents == s.store.documents
    ensures FilteredDrafts(MyDocumentsPage.HandleDeleteConfirm(s).store, Some(user), query).value ==
            Filter(FilteredDrafts(s.store, Some(user), query).value, DocumentsContext.NotId(s.toDelete.value.id))
  {
    var id := s.toDelete.value.id;
    var both := (d: Document) => d.id != id && d.userId == user.id && MatchesQuery(d.title, query);
    assert MyDocumentsPage.HandleDeleteConfirm(s).store.drafts == Filter(s.store.drafts, DocumentsContext.NotId(id));
    FilterFilter(s.store.drafts, DocumentsContext.NotId(id), MineAndTitled(user.id, query), both);
    FilterFilter(s.store.drafts, MineAndTitled(user.id, query), DocumentsContext.NotId(id), both);
  }
}

/** AdminDocuments page: every submitted document, searched over title,
    uploader name and file name, with the status selector; and the review
    handlers, which record the decision and then notify the owner. */
module AdminDocumentsPage {
  import opened Common
  import AuthContext
  import DocumentsContext
  import NotificationContext
  import MyDocumentsPage

  type Document = DocumentsContext.Document

  /** The admin search box: title, uploader name or file name. */
  predicate MatchesSearch(d: Document, query: string)
  {
    MatchesQuery(d.title, query) || MatchesQuery(d.userName, query) || MatchesQuery(d.originalFileName, query)
  }

  function Selected(query: string, statusFilter: string): Document -> bool
  {
    (d: Document) => MatchesSearch(d, query) && MyDocumentsPage.MatchesStatus(d, statusFilter)
  }

  /** `filteredDocuments`. */
  function FilteredDocuments(documents: seq<Document>, query: string, statusFilter: string): (r: seq<Document>)
    ensures forall d :: d in r <==> d in documents && MatchesSearch(d, query) && MyDocumentsPage.MatchesStatus(d, statusFilter)
    ensures forall d {:trigger multiset(r)[d]} :: multiset(r)[d] ==
              if MatchesSearch(d, query) && MyDocumentsPage.MatchesStatus(d, statusFilter) then multiset(documents)[d] else 0
    ensures IsSubsequence(r, documents)
  {
    FilterMultiplicity(documents, Selected(query, statusFilter));
    Filter(documents, Selected(query, statusFilter))
  }

  /** The admin's empty search with `all` lists every submitted document. */
  lemma UnfilteredShowsAll(documents: seq<Document>)
    ensures FilteredDocuments(documents, "", "all") == documents
  {
    forall d | d in documents
      ensures Selected("", "all")(d)
    {
      EmptyQueryMatches(d.title);
    }
    FilterAll(documents, Selected("", "all"));
  }

  /** The document store together with the notification list. */
  datatype Portal = Portal(store: DocumentsContext.DocStore, notifications: seq<NotificationContext.Notification>)

  /** `handleApprove(document, comments)`: the typed comments are stored on
      the document and the owner gets one `Document Approved` notification,
      which carries the comments when they are not empty. */
  function HandleApprove(p: Portal, doc: Document, comments: string, now: nat): (r: Portal)
    ensures r.store == DocumentsContext.ApproveDocument(p.store, doc.id, Some(comments), now)
    ensures r.notifications ==
            NotificationContext.DocumentStatusChanged(p.notifications, doc, DocumentsContext.Approved, Some(comments), now)
    ensures r.store.drafts == p.store.drafts
    ensures forall d :: d in r.store.documents && d.id == doc.id ==>
              d.status == DocumentsContext.Approved && d.comments == Some(comments)
    ensures |r.notifications| == |p.notifications| + 1 && r.notifications[1..] == p.notifications
    ensures r.notifications[0].userId == doc.userId && r.notifications[0].title == "Document Approved"
    ensures StartsWith(r.notifications[0].message, NotificationContext.StatusMessageBase(doc.title, DocumentsContext.Approved))
    ensures |r.notifications[0].message| > |NotificationContext.StatusMessageBase(doc.title, DocumentsContext.Approved)|
            <==> comments != ""
  {
    Portal(DocumentsContext.ApproveDocument(p.store, doc.id, Some(comments), now),
           NotificationContext.DocumentStatusChanged(p.notifications, doc, DocumentsContext.Approved, Some(comments), now))
  }

  /** `handleReject(document, comments)`, the mirror image of `HandleApprove`. */
  function HandleReject(p: Portal, doc: Document, comments: string, now: nat): (r: Portal)
    ensures r.store == DocumentsContext.RejectDocument(p.store, doc.id, Some(comments), now)
    ensures r.notifications ==
            NotificationContext.DocumentStatusChanged(p.notifications, doc, DocumentsContext.Rejected, Some(comments), now)
    ensures r.store.drafts == p.store.drafts
    ensures forall d :: d in r.store.documents && d.id == doc.id ==>
              d.status == DocumentsContext.Rejected && d.comments == Some(comments)
    ensures |r.notifications| == |p.notifications| + 1 && r.notifications[1..] == p.notifications
    ensures r.notifications[0].userId == doc.userId && r.notifications[0].title == "Document Rejected"
    ensures StartsWith(r.notifications[0].message, NotificationContext.StatusMessageBase(doc.title, DocumentsContext.Rejected))
    ensures |r.notifications[0].message| > |NotificationContext.StatusMessageBase(doc.title, DocumentsContext.Rejected)|
            <==> comments != ""
  {
    Portal(DocumentsContext.RejectDocument(p.store, doc.id, Some(comments), now),
           NotificationContext.DocumentStatusChanged(p.notifications, doc, DocumentsContext.Rejected, Some(comments), now))
  }

  /** A decision raises the owner's unread count by one and nobody else's. */
  lemma DecisionReachesOwner(p: Portal, doc: Document, comments: string, now: nat, user: AuthContext.User)
    ensures NotificationContext.UnreadCount(HandleApprove(p, doc, comments, now).notifications, Some(user)) ==
            NotificationContext.UnreadCount(p.notifications, Some(user)) + (if user.id == doc.userId then 1 else 0)
    ensures NotificationContext.UnreadCount(HandleReject(p, doc, comments, now).notifications, Some(user)) ==
            NotificationContext.UnreadCount(p.notifications, Some(user)) + (if user.id == doc.userId then 1 else 0)
  {
    NotificationContext.StatusNotificationReachesOwner(p.notifications, doc, DocumentsContext.Approved, Some(comments), now, user);
    NotificationContext.StatusNotificationReachesOwner(p.notifications, doc, DocumentsContext.Rejected, Some(comments), now, user);
  }
}

/** PendingDocuments page: the pending documents, searched like the admin
    list; its review handlers are those of AdminDocuments, word for word. */
module PendingDocumentsPage {
  import opened Common
  import DocumentsContext
  import AdminDocumentsPage

  type Document = DocumentsContext.Document

  function Search(query: string): Document -> bool
  {
    (d: Document) => AdminDocumentsPage.MatchesSearch(d, query)
  }

  /** `filteredDocuments`: pending documents matching the search. */
  function FilteredDocuments(documents: seq<Document>, query: string): (r: seq<Document>)
    ensures forall d :: d in r <==>
              d in documents && d.status == DocumentsContext.Pending && AdminDocumentsPage.MatchesSearch(d, query)
    ensures forall d {:trigger multiset(r)[d]} :: multiset(r)[d] ==
              if d.status == DocumentsContext.Pending && AdminDocumentsPage.MatchesSearch(d, query)
              then multiset(documents)[d] else 0
    ensures IsSubsequence(r, documents)
  {
    var pendingAndFound := (d: Document) => d.status == DocumentsContext.Pending && AdminDocumentsPage.MatchesSearch(d, query);
    FilterFilter(documents, DocumentsContext.HasStatus(DocumentsContext.Pending), Search(query), pendingAndFound);
    FilterMultiplicity(documents, pendingAndFound);
    Filter(DocumentsContext.GetPendingDocuments(documents), Search(query))
  }

  function SearchedOther(id: string, query: string): Document -> bool
  {
    (d: Document) => AdminDocumentsPage.MatchesSearch(d, query) && d.id != id
  }

  /** Filtering by search and by id commute. */
  lemma SearchThenDrop(xs: seq<Document>, id: string, query: string)
    ensures Filter(Filter(xs, DocumentsContext.NotId(id)), Search(query)) ==
            Filter(Filter(xs, Search(query)), DocumentsContext.NotId(id))
  {
    FilterFilter(xs, DocumentsContext.NotId(id), Search(query), SearchedOther(id, query));
    FilterFilter(xs, Search(query), DocumentsContext.NotId(id), SearchedOther(id, query));
  }

  /** After approving or rejecting from this page the document is gone from
      it and every other pending document stays, in order. */
  lemma DecidedLeavesList(p: AdminDocumentsPage.Portal, doc: Document, comments: string, now: nat, query: string)
    ensures FilteredDocuments(AdminDocumentsPage.HandleApprove(p, doc, comments, now).store.documents, query) ==
            Filter(FilteredDocuments(p.store.documents, query), DocumentsContext.NotId(doc.id))
    ensures FilteredDocuments(AdminDocumentsPage.HandleReject(p, doc, comments, now).store.documents, query) ==
            Filter(FilteredDocuments(p.store.documents, query), DocumentsContext.NotId(doc.id))
  {
    DocumentsContext.ReviewedNotPending(p.store, doc.id, Some(comments), now);
    SearchThenDrop(DocumentsContext.GetPendingDocuments(p.store.documents), doc.id, query);
  }
}
