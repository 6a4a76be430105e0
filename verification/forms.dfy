/** The three input forms: the full document upload form with its MIME and
    size rule, the quick file upload form, and the feedback form that either
    sends a new message or replies to one. A browser `File` is the abstract
    record `FileInfo`, and `URL.createObjectURL` is the `blobUrl` parameter. */

/** DocumentUploadForm: title, type, optional course and a checked file;
    two buttons submit the same values as a draft or as a submission. */
module DocumentUploadForm {
  import opened Common
  import AuthContext
  import DocumentsContext

  /** What the form reads from a browser `File`. */
  datatype FileInfo = FileInfo(name: string, mimeType: string, size: int)

  /** The form's values as react-hook-form holds them: the type is the string
      chosen in the select, and the file is absent until one is picked. */
  datatype FormValues = FormValues(title: string, docType: string, courseId: Option<string>, file: Option<FileInfo>)

  /** `defaultValues`, and what `form.reset()` returns to. */
  const DefaultValues: FormValues := FormValues("", "homework", None, None)

  /** `acceptableFileTypes`. The two long Office types are written as
      concatenations, which denote the same strings. */
  const AcceptableFileTypes: seq<string> := [
    "application/pdf",
    "application/msword",
    "application/" + "vnd.openxmlformats-officedocument.wordprocessingml.document",
    "application/vnd.ms-excel",
    "application/" + "vnd.openxmlformats-officedocument.spreadsheetml.sheet",
    "image/jpeg",
    "image/png",
    "text/plain"
  ]

  /** `maxSize`: 5 MiB. */
  const MaxSize: int := 5 * 1024 * 1024

  /** The `refine` on the file. */
  predicate FileAccepted(f: FileInfo)
  {
    f.mimeType in AcceptableFileTypes && f.size <= MaxSize &&
    !StartsWith(f.mimeType, "video/") && !StartsWith(f.mimeType, "audio/")
  }

  /** `z.enum(['homework', 'absence', 'grade_review', 'other'])`. */
  function ParseType(s: string): (r: Option<DocumentsContext.DocType>)
    ensures r.Some? ==> DocumentsContext.TypeName(r.value) == s
    ensures r.None? ==> forall t :: DocumentsContext.TypeName(t) != s
  {
    if s == "homework" then Some(DocumentsContext.Homework)
    else if s == "absence" then Some(DocumentsContext.Absence)
    else if s == "grade_review" then Some(DocumentsContext.GradeReview)
    else if s == "other" then Some(DocumentsContext.Other)
    else None
  }

  /** The values once the schema has accepted them. */
  datatype Checked = Checked(title: string, docType: DocumentsContext.DocType, courseId: Option<string>, file: FileInfo)

  /** `formSchema` (what `formState.isValid` reports): a title of at least
      three characters, one of the four types, and an accepted file. */
  function Validate(v: FormValues): (r: Option<Checked>)
    ensures r.Some? <==> |v.title| >= 3 && ParseType(v.docType).Some? && v.file.Some? && FileAccepted(v.file.value)
    ensures r.Some? ==> r.value.title == v.title && DocumentsContext.TypeName(r.value.docType) == v.docType &&
                        r.value.courseId == v.courseId && Some(r.value.file) == v.file
  {
    if |v.title| >= 3 && ParseType(v.docType).Some? && v.file.Some? && FileAccepted(v.file.value)
    then Some(Checked(v.title, ParseType(v.docType).value, v.courseId, v.file.value))
    else None
  }

  /** No whitelisted type starts with `video/` or `audio/`, so the two
      exclusions never decide anything. */
  lemma ExclusionsRedundant(f: FileInfo)
    ensures FileAccepted(f) <==> f.mimeType in AcceptableFileTypes && f.size <= MaxSize
  {
    forall t | t in AcceptableFileTypes
      ensures t[1] != 'i' && t[1] != 'u'
    {
      var i :| 0 <= i < |AcceptableFileTypes| && AcceptableFileTypes[i] == t;
      if i == 0 {
        assert t[1] == 'p';
      } else if i == 1 {
        assert t[1] == 'p';
      } else if i == 2 {
        assert t[1] == 'p';
      } else if i == 3 {
        assert t[1] == 'p';
      } else if i == 4 {
        assert t[1] == 'p';
      } else if i == 5 {
        assert t[1] == 'm';
      } else if i == 6 {
        assert t[1] == 'm';
      } else {
        assert t[1] == 'e';
      }
    }
    if f.mimeType in AcceptableFileTypes {
      assert "video/"[1] == 'i' && "audio/"[1] == 'u';
    }
  }

  /** Exactly 5 MiB is accepted, one byte more is not. */
  lemma SizeBoundary(name: string, mimeType: string)
    requires mimeType in AcceptableFileTypes
    ensures FileAccepted(FileInfo(name, mimeType, 5242880))
    ensures !FileAccepted(FileInfo(name, mimeType, 5242881))
  {
    ExclusionsRedundant(FileInfo(name, mimeType, 5242880));
  }

  /** The form's state: its values and the file shown as selected. */
  datatype FormState = FormState(values: FormValues, selectedFile: Option<FileInfo>)

  const InitialForm: FormState := FormState(DefaultValues, None)

  /** `handleFileChange`: picking a file stores it in both places; an empty
      pick changes nothing. */
  function ChooseFile(form: FormState, picked: Option<FileInfo>): (r: FormState)
    ensures picked.None? ==> r == form
    ensures picked.Some? ==> r.selectedFile == picked && r.values.file == picked &&
                             r.values.title == form.values.title && r.values.docType == form.values.docType
  {
    match picked
    case None => form
    case Some(f) => FormState(form.values.(file := Some(f)), Some(f))
  }

  /** The data `onSubmit` hands to `uploadDocument`; comments are not sent. */
  function UploadDataOf(c: Checked, blobUrl: string): DocumentsContext.UploadData
  {
    DocumentsContext.UploadData(c.title, c.docType, blobUrl, c.file.name, c.courseId, None)
  }

  datatype Outcome = Outcome(store: DocumentsContext.DocStore, form: FormState)

  /** A click on "Save as Draft" (`isDraft`) or "Upload": with invalid values
      only the errors are shown; with valid ones the upload is attempted and
      the form is reset, even when the store refused it for lack of a user. */
  function Click(store: DocumentsContext.DocStore, user: Option<AuthContext.User>, form: FormState,
                 isDraft: bool, blobUrl: string, now: nat): (r: Outcome)
    ensures Validate(form.values).None? ==> r == Outcome(store, form)
    ensures Validate(form.values).Some? ==> r.form == InitialForm
    ensures Validate(form.values).Some? ==>
              r.store == DocumentsContext.UploadDocument(store, user, UploadDataOf(Validate(form.values).value, blobUrl),
                                                         isDraft, now)
  {
    match Validate(form.values)
    case None => Outcome(store, form)
    case Some(c) => Outcome(DocumentsContext.UploadDocument(store, user, UploadDataOf(c, blobUrl), isDraft, now),
                            InitialForm)
  }

  /** With a user and valid values, "Save as Draft" adds one draft and
      "Upload" one submitted document, each carrying the typed title and the
      file's name; the other list stays as it was. */
  lemma ButtonsRoute(store: DocumentsContext.DocStore, user: AuthContext.User, form: FormState, isDraft: bool,
                     blobUrl: string, now: nat)
    requires Validate(form.values).Some?
    ensures var r := Click(store, Some(user), form, isDraft, blobUrl, now).store;
            && DocumentsContext.Routed(r, !isDraft) == DocumentsContext.Routed(store, !isDraft)
            && |DocumentsContext.Routed(r, isDraft)| == |DocumentsContext.Routed(store, isDraft)| + 1
            && var d := DocumentsContext.Routed(r, isDraft)[|DocumentsContext.Routed(store, isDraft)|];
               d.isDraft == isDraft && d.title == form.values.title && d.originalFileName == form.values.file.value.name &&
               d.fileUrl == blobUrl && d.status == DocumentsContext.Pending
  {
  }

  /** A file over the limit keeps both lists unchanged whichever button is used. */
  lemma OversizedFileNeverUploads(store: DocumentsContext.DocStore, user: Option<AuthContext.User>, form: FormState,
                                  isDraft: bool, blobUrl: string, now: nat)
    requires form.values.file.Some? && form.values.file.value.size > MaxSize
    ensures Click(store, user, form, isDraft, blobUrl, now).store == store
  {
  }
}

/** FileUploadForm: the quick upload on the dashboard. Only the title is
    checked; the file must merely be present. */
module FileUploadForm {
  import opened Common
  import AuthContext
  import DocumentsContext
  import DocumentUploadForm

  datatype FormState = FormState(title: string, selectedFile: Option<DocumentUploadForm.FileInfo>)

  const InitialForm: FormState := FormState("", None)

  /** `formSchema`: a non-empty title; the file has no type or size rule. */
  predicate Valid(form: FormState)
  {
    |form.title| >= 1
  }

  /** `disabled={!selectedFile}`. */
  predicate SubmitDisabled(form: FormState)
  {
    form.selectedFile.None?
  }

  /** Why a submission did not reach the store. */
  datatype Result = Uploaded | TitleMissing | NoFileSelected

  datatype Outcome = Outcome(store: DocumentsContext.DocStore, form: FormState, result: Result)

  /** A submission: the schema runs first, then the missing-file guard;
      an upload is always of type `other`, never a draft, and resets the form. */
  function Submit(store: DocumentsContext.DocStore, user: Option<AuthContext.User>, form: FormState,
                  blobUrl: string, now: nat): (r: Outcome)
    ensures r.result == Uploaded <==> Valid(form) && form.selectedFile.Some?
    ensures r.result != Uploaded ==> r.store == store && r.form == form
    ensures r.result == NoFileSelected <==> Valid(form) && SubmitDisabled(form)
    ensures r.result == Uploaded ==> r.form == InitialForm
    ensures r.result == Uploaded ==>
              r.store == DocumentsContext.UploadDocument(
                store, user,
                DocumentsContext.UploadData(form.title, DocumentsContext.Other, blobUrl, form.selectedFile.value.name,
                                            None, None),
                false, now)
  {
    if !Valid(form) then Outcome(store, form, TitleMissing)
    else match form.selectedFile
      case None => Outcome(store, form, NoFileSelected)
      case Some(f) =>
        Outcome(DocumentsContext.UploadDocument(
                  store, user, DocumentsContext.UploadData(form.title, DocumentsContext.Other, blobUrl, f.name, None, None),
                  false, now),
                InitialForm, Uploaded)
  }

  /** With a user, a quick upload adds one submitted `other` document and
      never a draft; any file is accepted, however large. */
  lemma QuickUploadIsSubmission(store: DocumentsContext.DocStore, user: AuthContext.User, form: FormState,
                                blobUrl: string, now: nat)
    requires Valid(form) && !SubmitDisabled(form)
    ensures var r := Submit(store, Some(user), form, blobUrl, now).store;
            && r.drafts == store.drafts
            && |r.documents| == |store.documents| + 1
            && r.documents[|store.documents|].docType == DocumentsContext.Other
            && !r.documents[|store.documents|].isDraft
            && !DocumentsContext.IsDraftId(r.documents[|store.documents|].id)
  {
  }
}

/** FeedbackForm: the same form sends new feedback or, given `replyToId`,
    replies to an existing item. In reply mode the subject field is not
    shown, yet the schema still asks for a subject of three characters. */
module FeedbackForm {
  import opened Common
  import AuthContext
  import FeedbackContext

  datatype Values = Values(subject: string, message: string)

  /** `defaultValues`, and what `form.reset()` returns to. */
  const DefaultValues: Values := Values("", "")

  /** The props: the receiver of a new message and the optional item to reply to. */
  datatype Props = Props(receiverId: string, replyToId: Option<string>)

  /** `if (replyToId)`: a present, non-empty id. */
  predicate ReplyMode(p: Props)
  {
    p.replyToId.Some? && p.replyToId.value != ""
  }

  /** `formSchema`, applied to every field whether shown or not. */
  predicate SchemaValid(v: Values)
  {
    |v.subject| >= 3 && |v.message| >= 10
  }

  /** The fields a user can edit: in reply mode only the message, so the
      subject keeps its default. */
  predicate Reachable(p: Props, v: Values)
  {
    ReplyMode(p) ==> v.subject == DefaultValues.subject
  }

  /** What a submission did: whether `onSuccess` ran, and the values left. */
  datatype Outcome = Outcome(box: FeedbackContext.Mailbox, values: Values, succeeded: bool)

  /** `onSubmit` once the values are accepted: reply or send, then reset
      and report success. */
  function Dispatch(box: FeedbackContext.Mailbox, user: Option<AuthContext.User>, p: Props, v: Values,
                    now: nat): (r: Outcome)
    ensures r.succeeded && r.values == DefaultValues
    ensures ReplyMode(p) ==> r.box == FeedbackContext.ReplyToFeedback(box, user, p.replyToId.value, v.message, now)
    ensures !ReplyMode(p) ==> r.box == FeedbackContext.SendFeedback(box, user, p.receiverId, v.subject, v.message, now)
  {
    var b := if ReplyMode(p) then FeedbackContext.ReplyToFeedback(box, user, p.replyToId.value, v.message, now)
             else FeedbackContext.SendFeedback(box, user, p.receiverId, v.subject, v.message, now);
    Outcome(b, DefaultValues, true)
  }

  /** `form.handleSubmit(onSubmit)` as the form is written: the whole schema
      guards both modes. */
  function SubmitAsWritten(box: FeedbackContext.Mailbox, user: Option<AuthContext.User>, p: Props, v: Values,
                           now: nat): (r: Outcome)
    ensures !SchemaValid(v) ==> r == Outcome(box, v, false)
    ensures SchemaValid(v) ==> r == Dispatch(box, user, p, v, now)
  {
    if SchemaValid(v) then Dispatch(box, user, p, v, now) else Outcome(box, v, false)
  }

  /** A reply can never be submitted: with the subject hidden at its empty
      default, validation fails for every message. */
  lemma ReplyNeverSubmits(box: FeedbackContext.Mailbox, user: Option<AuthContext.User>, p: Props, v: Values, now: nat)
    requires ReplyMode(p) && Reachable(p, v)
    ensures SubmitAsWritten(box, user, p, v, now) == Outcome(box, v, false)
  {
  }

  /** The schema the reply mode evidently needs: the subject is checked only
      where it is shown. */
  predicate ValidFor(p: Props, v: Values)
  {
    |v.message| >= 10 && (ReplyMode(p) || |v.subject| >= 3)
  }

  /** `onSubmit` guarded by the corrected schema. */
  function Submit(box: FeedbackContext.Mailbox, user: Option<AuthContext.User>, p: Props, v: Values,
                  now: nat): (r: Outcome)
    ensures !ValidFor(p, v) ==> r == Outcome(box, v, false)
    ensures ValidFor(p, v) ==> r.succeeded && r.values == DefaultValues
    ensures ValidFor(p, v) && ReplyMode(p) ==>
              r.box == FeedbackContext.ReplyToFeedback(box, user, p.replyToId.value, v.message, now)
    ensures ValidFor(p, v) && !ReplyMode(p) ==>
              r.box == FeedbackContext.SendFeedback(box, user, p.receiverId, v.subject, v.message, now)
  {
    if ValidFor(p, v) then Dispatch(box, user, p, v, now) else Outcome(box, v, false)
  }

  /** With the corrected schema a reply of ten or more characters from a
      logged-in user to an existing item goes through. */
  lemma CorrectedReplySubmits(box: FeedbackContext.Mailbox, user: AuthContext.User, p: Props, v: Values, now: nat)
    requires ReplyMode(p) && Reachable(p, v) && |v.message| >= 10
    requires exists f :: f in box.feedback && f.id == p.replyToId.value
    ensures var r := Submit(box, Some(user), p, v, now);
            r.succeeded && |r.box.feedback| == |box.feedback| + 1
  {
  }

  /** Outside reply mode the corrected schema is the written one. */
  lemma SendModeUnchanged(box: FeedbackContext.Mailbox, user: Option<AuthContext.User>, p: Props, v: Values, now: nat)
    requires !ReplyMode(p)
    ensures Submit(box, user, p, v, now) == SubmitAsWritten(box, user, p, v, now)
  {
  }
}
