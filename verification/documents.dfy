/** DocumentsContext: the submitted documents and the drafts, two lists
    updated by append, map and filter. Uploads are routed by the `isDraft`
    flag, updates and deletions by the `draft-` prefix of the id, and only
    submitted documents can be approved or rejected. The clock is the `now`
    parameter (milliseconds), used both for the id and for the timestamps. */
module DocumentsContext {
  import opened Common
  import AuthContext

  /** `DocumentStatus`. */
  datatype Status = Pending | Approved | Rejected

  /** `DocumentType`. */
  datatype DocType = Homework | Absence | GradeReview | Other

  function StatusName(s: Status): string
  {
    match s
    case Pending => "pending"
    case Approved => "approved"
    case Rejected => "rejected"
  }

  function TypeName(t: DocType): string
  {
    match t
    case Homework => "homework"
    case Absence => "absence"
    case GradeReview => "grade_review"
    case Other => "other"
  }

  /** Distinct statuses have distinct names, so comparing a document's status
      with a filter string picks out exactly one status. */
  lemma StatusNamesDistinct(a: Status, b: Status)
    ensures StatusName(a) == StatusName(b) <==> a == b
  {
    if a != b {
      assert StatusName(a)[0] != StatusName(b)[0];
    }
  }

  /** `Document`; the ISO timestamps are kept as milliseconds. */
  datatype Document = Document(
    id: string,
    title: string,
    docType: DocType,
    fileUrl: string,
    originalFileName: string,
    pdfUrl: string,
    status: Status,
    createdAt: int,
    updatedAt: int,
    courseId: Option<string>,
    userId: string,
    userName: string,
    isDraft: bool,
    comments: Option<string>)

  /** The provider's state: `documents` and `draftDocuments`. */
  datatype DocStore = DocStore(documents: seq<Document>, drafts: seq<Document>)

  /** The list that a draft flag selects. */
  function Routed(store: DocStore, draft: bool): seq<Document>
  {
    if draft then store.drafts else store.documents
  }

  const DraftPrefix: string := "draft-"

  /** Ids of drafts carry the `draft-` prefix. */
  predicate IsDraftId(id: string)
  {
    StartsWith(id, DraftPrefix)
  }

  // ---------------------------------------------------------------------
  // convertToPdf: `file.replace(/\.[^/.]+$/, '.pdf')`

  predicate IsSeparator(c: char)
  {
    c == '.' || c == '/'
  }

  /** The regular expression matches at `k`: a `.` followed by at least one
      character and then the end of the string, with no `/` or `.` after it. */
  predicate ExtensionAt(s: string, k: int)
  {
    0 <= k < |s| - 1 && s[k] == '.' && forall j :: k < j < |s| ==> !IsSeparator(s[j])
  }

  ghost predicate HasExtension(s: string)
  {
    exists k :: ExtensionAt(s, k)
  }

  /** The position of the last `.` or `/`, scanning from the end. */
  function LastSeparator(s: string): (r: Option<nat>)
    ensures r.Some? ==> r.value < |s| && IsSeparator(s[r.value]) &&
                        forall j :: r.value < j < |s| ==> !IsSeparator(s[j])
    ensures r.None? ==> forall j :: 0 <= j < |s| ==> !IsSeparator(s[j])
    decreases |s|
  {
    if s == [] then None
    else if IsSeparator(s[|s| - 1]) then Some(|s| - 1)
    else LastSeparator(s[..|s| - 1])
  }

  /** `convertToPdf(file)`: a trailing extension is replaced by `.pdf`; a path
      without one comes back unchanged. The one-second delay is left out. */
  function ConvertToPdf(file: string): (r: string)
    ensures forall k :: ExtensionAt(file, k) ==> r == file[..k] + ".pdf"
    ensures !HasExtension(file) ==> r == file
  {
    match LastSeparator(file)
    case None => file
    case Some(k) =>
      if file[k] == '.' && k < |file| - 1 then
        assert ExtensionAt(file, k);
        file[..k] + ".pdf"
      else file
  }

  /** Converting a converted path changes nothing: the result of a
      replacement ends in the extension `.pdf`, which is replaced by itself. */
  lemma ConvertToPdfIdempotent(file: string)
    ensures ConvertToPdf(ConvertToPdf(file)) == ConvertToPdf(file)
    ensures HasExtension(file) ==> HasExtension(ConvertToPdf(file))
  {
    if HasExtension(file) {
      var k :| ExtensionAt(file, k);
      var r := file[..k] + ".pdf";
      assert ExtensionAt(r, k);
      assert r[..k] == file[..k];
    }
  }

  /** Examples: a seeded path, a trailing dot, and a double extension of
      which only the last part is replaced. */
  lemma ConvertToPdfExamples()
    ensures ConvertToPdf("/documents/assignment.docx") == "/documents/assignment.pdf"
    ensures ConvertToPdf("notes.") == "notes."
    ensures ConvertToPdf("archive.tar.gz") == "archive.tar.pdf"
  {
    assert ExtensionAt("/documents/assignment.docx", 21);
    assert "/documents/assignment.docx"[..21] == "/documents/assignment";
    forall k | ExtensionAt("notes.", k)
      ensures false
    {
      assert IsSeparator("notes."[5]);
    }
    assert ExtensionAt("archive.tar.gz", 11);
    assert "archive.tar.gz"[..11] == "archive.tar";
  }

  // ---------------------------------------------------------------------
  // uploadDocument

  /** The fields a caller supplies: `Omit<Document, 'id' | 'createdAt' |
      'updatedAt' | 'status' | 'pdfUrl' | 'userId' | 'userName'>`. Its
      `isDraft` is always overwritten by the argument, so it is not carried. */
  datatype UploadData = UploadData(title: string, docType: DocType, fileUrl: string, originalFileName: string,
                                   courseId: Option<string>, comments: Option<string>)

  /** `` `${isDraft ? 'draft-' : ''}${Date.now()}` ``. */
  function NewId(isDraft: bool, now: nat): (r: string)
    ensures IsDraftId(r) <==> isDraft
  {
    var digits := DecimalString(now);
    if isDraft then
      assert (DraftPrefix + digits)[..|DraftPrefix|] == DraftPrefix;
      DraftPrefix + digits
    else
      DecimalHasNoLetterPrefix(now, DraftPrefix);
      digits
  }

  /** Two uploads of the same kind at different clock readings get different ids. */
  lemma NewIdInjective(isDraft: bool, now1: nat, now2: nat)
    requires now1 != now2
    ensures NewId(isDraft, now1) != NewId(isDraft, now2)
  {
    DecimalRoundTrip(now1);
    DecimalRoundTrip(now2);
  }

  /** `newDocument`: the supplied fields, a fresh id, the converted path, the
      `pending` status, the uploader, and `isDraft` from the argument rather
      than from the data. */
  function NewDocument(data: UploadData, user: AuthContext.User, isDraft: bool, now: nat): (r: Document)
    ensures r.status == Pending
    ensures r.userId == user.id && r.userName == user.name
    ensures r.isDraft == isDraft
    ensures IsDraftId(r.id) <==> isDraft
    ensures r.title == data.title && r.docType == data.docType && r.fileUrl == data.fileUrl &&
            r.originalFileName == data.originalFileName && r.courseId == data.courseId &&
            r.comments == data.comments
    ensures r.createdAt == now && r.updatedAt == now
    ensures r.id == NewId(isDraft, now)
    ensures r.pdfUrl == ConvertToPdf(data.fileUrl)
  {
    Document(NewId(isDraft, now), data.title, data.docType, data.fileUrl, data.originalFileName,
             ConvertToPdf(data.fileUrl), Pending, now, now, data.courseId, user.id, user.name,
             isDraft, data.comments)
  }

  /** `uploadDocument(data, isDraft)`: nothing without a session user;
      otherwise one new record at the end of the list `isDraft` selects. */
  function UploadDocument(store: DocStore, user: Option<AuthContext.User>, data: UploadData,
                          isDraft: bool, now: nat): (r: DocStore)
    ensures user.None? ==> r == store
    ensures user.Some? ==> Routed(r, !isDraft) == Routed(store, !isDraft)
    ensures user.Some? ==> |Routed(r, isDraft)| == |Routed(store, isDraft)| + 1
    ensures user.Some? ==> Routed(r, isDraft)[..|Routed(store, isDraft)|] == Routed(store, isDraft)
    ensures user.Some? ==> Routed(r, isDraft)[|Routed(store, isDraft)|] == NewDocument(data, user.value, isDraft, now)
  {
    match user
    case None => store
    case Some(u) =>
      var doc := NewDocument(data, u, isDraft, now);
      if isDraft then store.(drafts := store.drafts + [doc])
      else store.(documents := store.documents + [doc])
  }

  // ---------------------------------------------------------------------
  // queries

  function OwnedBy(userId: string): Document -> bool
  {
    (d: Document) => d.userId == userId
  }

  function HasStatus(s: Status): Document -> bool
  {
    (d: Document) => d.status == s
  }

  /** `getDocumentsByUser(userId)`. */
  function GetDocumentsByUser(documents: seq<Document>, userId: string): (r: seq<Document>)
    ensures forall d :: d in r <==> d in documents && d.userId == userId
    ensures forall d {:trigger multiset(r)[d]} :: multiset(r)[d] == if d.userId == userId then multiset(documents)[d] else 0
    ensures IsSubsequence(r, documents)
  {
    FilterMultiplicity(documents, OwnedBy(userId));
    Filter(documents, OwnedBy(userId))
  }

  /** `getPendingDocuments()`. */
  function GetPendingDocuments(documents: seq<Document>): (r: seq<Document>)
    ensures forall d :: d in r <==> d in documents && d.status == Pending
    ensures forall d {:trigger multiset(r)[d]} :: multiset(r)[d] == if d.status == Pending then multiset(documents)[d] else 0
    ensures IsSubsequence(r, documents)
  {
    FilterMultiplicity(documents, HasStatus(Pending));
    Filter(documents, HasStatus(Pending))
  }

  /** A submitted upload shows up last among its uploader's documents and
      last among the pending ones; everyone else's lists are unchanged. */
  lemma UploadThenQueries(store: DocStore, user: AuthContext.User, data: UploadData, now: nat, other: string)
    requires other != user.id
    ensures var r := UploadDocument(store, Some(user), data, false, now);
            var doc := NewDocument(data, user, false, now);
            && GetDocumentsByUser(r.documents, user.id) == GetDocumentsByUser(store.documents, user.id) + [doc]
            && GetPendingDocuments(r.documents) == GetPendingDocuments(store.documents) + [doc]
            && GetDocumentsByUser(r.documents, other) == GetDocumentsByUser(store.documents, other)
  {
    var doc := NewDocument(data, user, false, now);
    FilterAppend(store.documents, [doc], OwnedBy(user.id));
    FilterAppend(store.documents, [doc], HasStatus(Pending));
    FilterAppend(store.documents, [doc], OwnedBy(other));
  }

  // ---------------------------------------------------------------------
  // updateDocument

  /** `Partial<Document>`: the fields an update supplies. A supplied
      `updatedAt` is always overwritten by the clock, so it is not carried. */
  datatype DocumentPatch = DocumentPatch(
    id: Option<string>,
    title: Option<string>,
    docType: Option<DocType>,
    fileUrl: Option<string>,
    originalFileName: Option<string>,
    pdfUrl: Option<string>,
    status: Option<Status>,
    createdAt: Option<int>,
    courseId: Option<string>,
    userId: Option<string>,
    userName: Option<string>,
    isDraft: Option<bool>,
    comments: Option<string>)

  /** `{ ...doc, ...data, updatedAt: now }`. */
  function ApplyPatch(d: Document, p: DocumentPatch, now: int): Document
  {
    Document(Pick(p.id, d.id), Pick(p.title, d.title), Pick(p.docType, d.docType), Pick(p.fileUrl, d.fileUrl),
             Pick(p.originalFileName, d.originalFileName), Pick(p.pdfUrl, d.pdfUrl), Pick(p.status, d.status),
             Pick(p.createdAt, d.createdAt), now, PickOptional(p.courseId, d.courseId), Pick(p.userId, d.userId),
             Pick(p.userName, d.userName), Pick(p.isDraft, d.isDraft), PickOptional(p.comments, d.comments))
  }

  /** Patching twice with the same fields is patching once. */
  lemma ApplyPatchIdempotent(d: Document, p: DocumentPatch, now: int)
    ensures ApplyPatch(ApplyPatch(d, p, now), p, now) == ApplyPatch(d, p, now)
  {
  }

  function HasId(id: string): Document -> bool
  {
    (d: Document) => d.id == id
  }

  function Patcher(p: DocumentPatch, now: int): Document -> Document
  {
    (d: Document) => ApplyPatch(d, p, now)
  }

  /** `updateDocument(id, data)`: the list is chosen by the id prefix, and
      only the records with that id are patched. */
  function UpdateDocument(store: DocStore, id: string, patch: DocumentPatch, now: int): (r: DocStore)
    ensures Routed(r, !IsDraftId(id)) == Routed(store, !IsDraftId(id))
    ensures |Routed(r, IsDraftId(id))| == |Routed(store, IsDraftId(id))|
    ensures forall i :: 0 <= i < |Routed(store, IsDraftId(id))| ==>
              Routed(r, IsDraftId(id))[i] ==
                (if Routed(store, IsDraftId(id))[i].id == id
                 then ApplyPatch(Routed(store, IsDraftId(id))[i], patch, now)
                 else Routed(store, IsDraftId(id))[i])
  {
    if IsDraftId(id) then store.(drafts := MapWhere(store.drafts, HasId(id), Patcher(patch, now)))
    else store.(documents := MapWhere(store.documents, HasId(id), Patcher(patch, now)))
  }

  /** Repeating an update changes nothing more, even when the patch renames
      the record: a renamed record no longer matches the id. */
  lemma UpdateIdempotent(store: DocStore, id: string, patch: DocumentPatch, now: int)
    ensures UpdateDocument(UpdateDocument(store, id, patch, now), id, patch, now) == UpdateDocument(store, id, patch, now)
  {
    var once := UpdateDocument(store, id, patch, now);
    var twice := UpdateDocument(once, id, patch, now);
    var b := IsDraftId(id);
    forall i | 0 <= i < |Routed(store, b)|
      ensures Routed(twice, b)[i] == Routed(once, b)[i]
    {
      ApplyPatchIdempotent(Routed(store, b)[i], patch, now);
    }
    assert Routed(twice, b) == Routed(once, b);
    if b {
      assert twice.drafts == once.drafts;
    } else {
      assert twice.documents == once.documents;
    }
  }

  // ---------------------------------------------------------------------
  // deleteDocument

  function NotId(id: string): Document -> bool
  {
    (d: Document) => d.id != id
  }

  /** `deleteDocument(id)`: the records with that id leave the list the
      prefix selects; the rest keep their order. */
  function DeleteDocument(store: DocStore, id: string): (r: DocStore)
    ensures Routed(r, !IsDraftId(id)) == Routed(store, !IsDraftId(id))
    ensures forall d :: d in Routed(r, IsDraftId(id)) <==> d in Routed(store, IsDraftId(id)) && d.id != id
    ensures forall d {:trigger multiset(Routed(r, IsDraftId(id)))[d]} :: multiset(Routed(r, IsDraftId(id)))[d] ==
                        if d.id != id then multiset(Routed(store, IsDraftId(id)))[d] else 0
    ensures IsSubsequence(Routed(r, IsDraftId(id)), Routed(store, IsDraftId(id)))
  {
    FilterMultiplicity(Routed(store, IsDraftId(id)), NotId(id));
    if IsDraftId(id) then store.(drafts := Filter(store.drafts, NotId(id)))
    else store.(documents := Filter(store.documents, NotId(id)))
  }

  /** Deleting twice is deleting once. */
  lemma DeleteIdempotent(store: DocStore, id: string)
    ensures DeleteDocument(DeleteDocument(store, id), id) == DeleteDocument(store, id)
  {
    var once := DeleteDocument(store, id);
    FilterAll(Routed(once, IsDraftId(id)), NotId(id));
  }

  /** Deleting the record an upload has just created restores the store,
      provided the clock reading was not already used as an id. */
  lemma UploadThenDelete(store: DocStore, user: AuthContext.User, data: UploadData, isDraft: bool, now: nat)
    requires forall d :: d in Routed(store, isDraft) ==> d.id != NewId(isDraft, now)
    ensures DeleteDocument(UploadDocument(store, Some(user), data, isDraft, now), NewId(isDraft, now)) == store
  {
    var id := NewId(isDraft, now);
    var doc := NewDocument(data, user, isDraft, now);
    var up := UploadDocument(store, Some(user), data, isDraft, now);
    assert IsDraftId(id) == isDraft;
    assert Routed(up, isDraft) == Routed(store, isDraft) + [doc];
    FilterAppend(Routed(store, isDraft), [doc], NotId(id));
    FilterAll(Routed(store, isDraft), NotId(id));
    assert Filter([doc], NotId(id)) == [];
    if isDraft {
      assert DeleteDocument(up, id).drafts == store.drafts;
    } else {
      assert DeleteDocument(up, id).documents == store.documents;
    }
  }

  // ---------------------------------------------------------------------
  // approveDocument / rejectDocument

  function Reviewer(status: Status, comments: Option<string>, now: int): Document -> Document
  {
    (d: Document) => d.(status := status, comments := comments, updatedAt := now)
  }

  /** The common shape of `approveDocument` and `rejectDocument`: submitted
      documents with the id get the status and the comments (an absent
      comment clears the old one); drafts are never touched and the current
      status is not checked. */
  function Review(store: DocStore, id: string, status: Status, comments: Option<string>, now: int): (r: DocStore)
    ensures r.drafts == store.drafts
    ensures |r.documents| == |store.documents|
    ensures forall i :: 0 <= i < |store.documents| ==>
              if store.documents[i].id == id
              then r.documents[i].status == status && r.documents[i].comments == comments &&
                   r.documents[i].updatedAt == now &&
                   r.documents[i] == store.documents[i].(status := status, comments := comments, updatedAt := now)
              else r.documents[i] == store.documents[i]
  {
    store.(documents := MapWhere(store.documents, HasId(id), Reviewer(status, comments, now)))
  }

  /** `approveDocument(id, comments)`. */
  function ApproveDocument(store: DocStore, id: string, comments: Option<string>, now: int): (r: DocStore)
    ensures r.drafts == store.drafts
    ensures forall d :: d in r.documents && d.id == id ==> d.status == Approved && d.comments == comments
    ensures |r.documents| == |store.documents|
    ensures forall i :: 0 <= i < |store.documents| ==>
              r.documents[i] == if store.documents[i].id == id
                                then store.documents[i].(status := Approved, comments := comments, updatedAt := now)
                                else store.documents[i]
  {
    Review(store, id, Approved, comments, now)
  }

  /** `rejectDocument(id, comments)`. */
  function RejectDocument(store: DocStore, id: string, comments: Option<string>, now: int): (r: DocStore)
    ensures r.drafts == store.drafts
    ensures forall d :: d in r.documents && d.id == id ==> d.status == Rejected && d.comments == comments
    ensures |r.documents| == |store.documents|
    ensures forall i :: 0 <= i < |store.documents| ==>
              r.documents[i] == if store.documents[i].id == id
                                then store.documents[i].(status := Rejected, comments := comments, updatedAt := now)
                                else store.documents[i]
  {
    Review(store, id, Rejected, comments, now)
  }

  /** After an approval or a rejection the pending list is the old pending
      list without the reviewed id. */
  lemma ReviewLeavesPending(docs: seq<Document>, id: string, status: Status, comments: Option<string>, now: int)
    requires status != Pending
    ensures Filter(MapWhere(docs, HasId(id), Reviewer(status, comments, now)), HasStatus(Pending)) ==
            Filter(Filter(docs, HasStatus(Pending)), NotId(id))
  {
    FilterMapWhere(docs, HasStatus(Pending), HasId(id), NotId(id), Reviewer(status, comments, now));
  }

  /** Approving or rejecting a document removes it, and only it, from the
      pending list. */
  lemma ReviewedNotPending(store: DocStore, id: string, comments: Option<string>, now: int)
    ensures GetPendingDocuments(ApproveDocument(store, id, comments, now).documents) ==
            Filter(GetPendingDocuments(store.documents), NotId(id))
    ensures GetPendingDocuments(RejectDocument(store, id, comments, now).documents) ==
            Filter(GetPendingDocuments(store.documents), NotId(id))
    ensures forall d :: d in GetPendingDocuments(ApproveDocument(store, id, comments, now).documents) ==> d.id != id
  {
    ReviewLeavesPending(store.documents, id, Approved, comments, now);
    ReviewLeavesPending(store.documents, id, Rejected, comments, now);
  }

  /** Approving a draft's id changes nothing: drafts live in the other list. */
  lemma ApproveIgnoresDrafts(store: DocStore, id: string, comments: Option<string>, now: int)
    requires forall d :: d in store.documents ==> d.id != id
    ensures ApproveDocument(store, id, comments, now) == store
    ensures RejectDocument(store, id, comments, now) == store
  {
    var a := ApproveDocument(store, id, comments, now);
    assert forall i :: 0 <= i < |store.documents| ==> store.documents[i] in store.documents;
    assert a.documents == store.documents;
    var r := RejectDocument(store, id, comments, now);
    assert r.documents == store.documents;
  }
}
