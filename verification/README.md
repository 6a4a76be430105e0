# Document hub: a Dafny model of the portal's state logic

The portal is a React single-page application. Students upload homework,
absence notes, grade-review requests and other documents, or keep them as
drafts.
Administrators approve or reject the submitted documents. Both sides
exchange feedback messages and receive notifications. All state is held in
memory by React context providers, seeded with mock data.

This project models that state logic as pure Dafny functions over immutable
records:

- **Providers.** Authentication, application settings and translations,
  courses, documents, notifications and feedback are each a function from
  the old state to the new one (`auth.dfy`, `settings.dfy`, `courses.dfy`,
  `documents.dfy`, `notifications.dfy`, `feedback.dfy`).
- **Forms.** The forms are modelled by their validation schemas and submit
  handlers (`forms.dfy`).
- **Pages.** Each page is modelled by its filtering, sorting and handler
  logic (`doc_pages.dfy`, `dashboards.dfy`, `feedback_pages.dfy`,
  `layout.dfy`, `preview.dfy`).
- **Helpers.** Shared sequence, string and stable-sort helpers live in
  `common.dfy` and `sorting.dfy`.

Conventions:

- **The logged-in user** is an `Option<User>` parameter. `None` is the
  `null` user, for which the providers do nothing and the pages render
  nothing.
- **The clock** is a `now: nat` parameter in milliseconds, standing for
  `Date.now()`. Timestamps are stored as those numbers. Ids are the decimal
  spelling of `now`, and draft ids carry the prefix `draft-`.
- **`URL.createObjectURL(file)`** becomes a `blobUrl` parameter.
- **A browser `File`** becomes a `FileInfo` record holding its name, MIME
  type and size.
- **`Array.prototype.sort`** is modelled by a stable insertion sort, newest
  first. The admin dashboards sort the provider's own array in place, so
  their render functions also return the reordered document list.

## Model

| member | source | states |
|---|---|---|
| AuthContext.FindAccount | src/contexts/AuthContext.tsx:62-67 | finds an account exactly when one matches id and password, and returns the first match |
| AuthContext.Login | src/contexts/AuthContext.tsx:58-86 | login succeeds iff a role was chosen and that role's table has a matching account; on success the session is the first matching account in the table, without its password; on failure the session is unchanged |
| AuthContext.SessionAfterLogin | src/contexts/AuthContext.tsx:69-94 | a successful login leaves the user authenticated; a failed one leaves authentication as it was; logout always leaves no one authenticated |
| AuthContext.MockLogins | src/contexts/AuthContext.tsx:34-53 | the seeded student credentials log in from the student tab and fail from the admin tab; the seeded admin credentials log in as the seeded administrator; no login succeeds without a role |
| AuthContext.AdminNotAStudent | src/contexts/AuthContext.tsx:34-53 | the seeded admin credentials fail from the student tab and leave the session as it was |
| AuthContext.UpdateUser | src/contexts/AuthContext.tsx:96-100 | without a user nothing happens; otherwise supplied fields replace the old ones and the rest are kept |
| AuthContext.UpdateUserIdempotent | src/contexts/AuthContext.tsx:96-100 | applying the same update twice equals applying it once; an empty update changes nothing |
| AppSettingsContext.InitialTheme | src/contexts/AppSettingsContext.tsx:169-173 | a missing or empty saved theme starts light; any other saved string is taken as is |
| AppSettingsContext.InitialLanguage | src/contexts/AppSettingsContext.tsx:175-179 | a missing or empty saved language starts English; any other saved string is taken as is |
| AppSettingsContext.InitialSettingsRestore | src/contexts/AppSettingsContext.tsx:169-179 | the defaults are light and English, and every valid theme or language survives being saved and restored |
| AppSettingsContext.ToggleTheme | src/contexts/AppSettingsContext.tsx:203-205 | light becomes dark, anything else becomes light; the language is kept |
| AppSettingsContext.ToggleTwice | src/contexts/AppSettingsContext.tsx:203-205 | toggling twice restores a valid theme; an unrecognised saved theme is normalised to light and then to dark |
| AppSettingsContext.SetLanguage | src/contexts/AppSettingsContext.tsx:207-209 | sets the language and keeps the theme |
| AppSettingsContext.Lookup | src/contexts/AppSettingsContext.tsx:19-158 | a table lookup finds a text iff the key is in the table, and the text is the one stored at that key |
| AppSettingsContext.Translate | src/contexts/AppSettingsContext.tsx:212-214 | an unknown language has no table; a key the table lacks shows as itself; any other result is the table's text for that key |
| AppSettingsContext.FallsBackIffUndefined | src/contexts/AppSettingsContext.tsx:212-214 | in a table without empty texts, `t` falls back to the key exactly when the key is undefined |
| AppSettingsContext.TablesAgree | src/contexts/AppSettingsContext.tsx:20-157 | the English and Arabic tables define the same keys, and neither holds an empty text |
| AppSettingsContext.SwitchingLanguageKeepsFallback | src/contexts/AppSettingsContext.tsx:19-158 | a key falls back to itself in English iff it does in Arabic |
| AppSettingsContext.UndefinedKeyShowsItself | src/contexts/AppSettingsContext.tsx:212-214 | in either language an undefined key is shown verbatim |
| AppSettingsContext.DefinedKeyTranslates | src/contexts/AppSettingsContext.tsx:212-214 | in either language a defined key yields that table's non-empty text |
| AppSettingsContext.CommentsIsNotAKey | src/components/document/DocumentPreview.tsx:104 | the preview's `comments` label is not in the tables, so it shows as the raw key |
| AppSettingsContext.DownloadIsNotAKey | src/components/document/DocumentPreview.tsx:151 | the preview's `download` label is not in the tables |
| AppSettingsContext.UploadIsNotAKey | src/components/document/FileUploadForm.tsx:139 | the quick form's `upload` label is not in the tables |
| CourseContext.GetCourseById | src/contexts/CourseContext.tsx:65-67 | finds a course iff one has the id, and returns the first such course |
| CourseContext.GetStudentCourses | src/contexts/CourseContext.tsx:69-72 | exactly the catalogue courses whose id the student is enrolled in, in catalogue order, each as often as the catalogue lists it |
| CourseContext.NoEnrollmentNoCourses | src/contexts/CourseContext.tsx:69-72 | a student with no enrolment entry, or an empty one, gets no courses |
| CourseContext.EnrolmentOrderIrrelevant | src/contexts/CourseContext.tsx:69-72 | for any catalogue, two enrolment lists with the same members yield the same courses in the same order |
| CourseContext.CatalogueOrder | src/contexts/CourseContext.tsx:20-50 | on the seeded data, a reversed enrolment list still yields the catalogue order, and the seeded admin has no courses |
| CourseContext.UniqueIdLookup | src/contexts/CourseContext.tsx:65-67 | a course whose id no other entry shares is exactly what a lookup of that id returns |
| CourseContext.SeededLookup | src/contexts/CourseContext.tsx:20-45 | MATH201 is the second seeded course, and an unknown code finds nothing |
| DocumentsContext.StatusNamesDistinct | src/contexts/DocumentsContext.tsx:7 | the status strings identify the status |
| DocumentsContext.LastSeparator | src/contexts/DocumentsContext.tsx:112 | finds the last `.` or `/`, or reports that there is none |
| DocumentsContext.ConvertToPdf | src/contexts/DocumentsContext.tsx:108-113 | a trailing extension (a dot followed by neither dot nor slash, up to the end) becomes `.pdf`; a name without one is unchanged |
| DocumentsContext.ConvertToPdfIdempotent | src/contexts/DocumentsContext.tsx:108-113 | converting twice equals converting once, and a name with an extension keeps one |
| DocumentsContext.ConvertToPdfExamples | src/contexts/DocumentsContext.tsx:108-113 | only the last extension is replaced; a bare trailing dot is left alone |
| DocumentsContext.NewId | src/contexts/DocumentsContext.tsx:128-129 | a new id is a draft id exactly for drafts |
| DocumentsContext.NewIdInjective | src/contexts/DocumentsContext.tsx:128-129 | ids minted at different milliseconds differ |
| DocumentsContext.NewDocument | src/contexts/DocumentsContext.tsx:128-138 | a new record is pending, owned by the uploader, flagged as a draft or not, carries the form data, has the id minted from the clock and draft flag and the pdf url converted from the file url, and is stamped with now |
| DocumentsContext.UploadDocument | src/contexts/DocumentsContext.tsx:115-153 | without a user nothing changes; otherwise the new record is appended to the drafts or the documents list, as chosen, and the other list is untouched |
| DocumentsContext.GetDocumentsByUser | src/contexts/DocumentsContext.tsx:211-213 | exactly the user's documents, in list order, every copy kept and no other record |
| DocumentsContext.GetPendingDocuments | src/contexts/DocumentsContext.tsx:215-217 | exactly the pending documents, in list order, every copy kept and no other record |
| DocumentsContext.UploadThenQueries | src/contexts/DocumentsContext.tsx:140-152 | a submission appears last in its owner's list and last among pending ones; nobody else's list changes |
| DocumentsContext.ApplyPatchIdempotent | src/contexts/DocumentsContext.tsx:155-166 | a spread update applied twice with the same clock equals applying it once |
| DocumentsContext.UpdateDocument | src/contexts/DocumentsContext.tsx:155-172 | the id's prefix picks the list; there, records with the id take the patch and the clock, and everything else is unchanged |
| DocumentsContext.UpdateIdempotent | src/contexts/DocumentsContext.tsx:155-172 | updating twice with the same patch and clock equals updating once |
| DocumentsContext.DeleteDocument | src/contexts/DocumentsContext.tsx:174-187 | the id's prefix picks the list, which loses every record with that id and keeps every copy of the others in order; the other list is untouched |
| DocumentsContext.DeleteIdempotent | src/contexts/DocumentsContext.tsx:174-187 | deleting twice equals deleting once |
| DocumentsContext.UploadThenDelete | src/contexts/DocumentsContext.tsx:115-187 | deleting a fresh upload by its new id restores the store |
| DocumentsContext.Review | src/contexts/DocumentsContext.tsx:189-209 | records with the id get the status, the comments and the clock; the drafts and all other records are unchanged |
| DocumentsContext.ApproveDocument | src/contexts/DocumentsContext.tsx:189-198 | the list keeps its length and order; every record with the id is approved with the given comments and stamped with now; other records and the drafts are untouched |
| DocumentsContext.RejectDocument | src/contexts/DocumentsContext.tsx:200-209 | the list keeps its length and order; every record with the id is rejected with the given comments and stamped with now; other records and the drafts are untouched |
| DocumentsContext.ReviewLeavesPending | src/contexts/DocumentsContext.tsx:189-217 | after a decision the pending list is the old one without the decided id |
| DocumentsContext.ReviewedNotPending | src/contexts/DocumentsContext.tsx:189-217 | approving or rejecting removes exactly that id from the pending list |
| DocumentsContext.ApproveIgnoresDrafts | src/contexts/DocumentsContext.tsx:189-209 | a decision on an id that is not among the submitted documents (e.g. a draft's) changes nothing |
| NotificationContext.UnreadCount | src/contexts/NotificationContext.tsx:45 | the number of positions holding an unread notification addressed to the user; zero without a user |
| NotificationContext.AddNotification | src/contexts/NotificationContext.tsx:47-64 | the new unread notification goes in front, with the given fields, id and time; the old list follows unchanged |
| NotificationContext.AddNotificationCount | src/contexts/NotificationContext.tsx:47-64 | the badge rises by one exactly for the addressee |
| NotificationContext.MarkAsRead | src/contexts/NotificationContext.tsx:66-72 | notifications with the id become read and nothing else changes |
| NotificationContext.MarkAsReadIdempotent | src/contexts/NotificationContext.tsx:66-72 | marking twice equals marking once |
| NotificationContext.MarkAllAsRead | src/contexts/NotificationContext.tsx:74-82 | without a user nothing changes; otherwise the user's notifications become read and others stay as they were |
| NotificationContext.MarkAllAsReadClears | src/contexts/NotificationContext.tsx:74-82 | afterwards the user's unread count is zero |
| NotificationContext.MarkAsReadNeverRaises | src/contexts/NotificationContext.tsx:66-72 | marking one notification read never raises anyone's unread count |
| NotificationContext.StatusMessage | src/contexts/NotificationContext.tsx:84-93 | the message names the title and decision, and gains ` with comments: ` and the text exactly when comments are non-empty |
| NotificationContext.DocumentStatusChanged | src/contexts/NotificationContext.tsx:84-93 | prepends an unread notice to the owner titled by the decision, linked to the document and to My Documents |
| NotificationContext.DocumentUploaded | src/contexts/NotificationContext.tsx:95-104 | prepends an unread notice to the demo admin naming the uploader and the title |
| NotificationContext.FeedbackReceived | src/contexts/NotificationContext.tsx:106-113 | prepends an unread notice to the receiver naming the sender and the subject, linked to the feedback page |
| NotificationContext.StatusNotificationReachesOwner | src/contexts/NotificationContext.tsx:84-93 | a decision raises the unread count of the document's owner by one and of no one else |
| FeedbackContext.SendFeedback | src/contexts/FeedbackContext.tsx:69-100 | without a user nothing changes; otherwise a new unread, unanswered item from the user goes first and the receiver is notified |
| FeedbackContext.MarkAsRead | src/contexts/FeedbackContext.tsx:102-108 | items with the id become read and nothing else changes |
| FeedbackContext.ReplyToFeedback | src/contexts/FeedbackContext.tsx:110-159 | without a user or a matching item nothing changes; otherwise every item with the id is marked replied, a reply under `RE: ` and the first match's subject goes first to that item's sender, and the sender is notified |
| FeedbackContext.ReplyToNewest | src/contexts/FeedbackContext.tsx:110-159 | replying to the front item addresses its sender, even when the subject already starts with `RE: ` |
| FeedbackContext.ReplyToUniqueItem | src/contexts/FeedbackContext.tsx:110-159 | replying to an item whose id is unique puts the reply to its sender first and leaves that item replied |
| FeedbackContext.SendThenReply | src/contexts/FeedbackContext.tsx:69-159 | a message just sent can be answered by its id; the answer returns to the sender and the message is marked replied |
| FeedbackContext.GetUnreadFeedback | src/contexts/FeedbackContext.tsx:161-164 | exactly the unread items addressed to the user, in list order, every copy kept; nothing without a user |
| FeedbackContext.MarkAsReadLeavesUnread | src/contexts/FeedbackContext.tsx:102-108 | marking an id read removes exactly that id from every unread list |
| FeedbackContext.GetFeedbackForUser | src/contexts/FeedbackContext.tsx:166-168 | exactly the items the user sent or received, in list order, every copy kept |
| FeedbackContext.SentFeedbackVisibility | src/contexts/FeedbackContext.tsx:69-100 | a new message shows up for its sender and receiver and for nobody else |
| DocumentUploadForm.ParseType | src/components/document/DocumentUploadForm.tsx:35 | accepts exactly the four type names |
| DocumentUploadForm.Validate | src/components/document/DocumentUploadForm.tsx:33-58 | passes iff the title has at least 3 characters, the type is known and an accepted file is present |
| DocumentUploadForm.ExclusionsRedundant | src/components/document/DocumentUploadForm.tsx:51-54 | the extra rule against image, video and audio types never rejects a whitelisted type, so acceptance is whitelist plus size |
| DocumentUploadForm.SizeBoundary | src/components/document/DocumentUploadForm.tsx:49-54 | exactly 5 MiB is accepted and one byte more is not |
| DocumentUploadForm.ChooseFile | src/components/document/DocumentUploadForm.tsx:83-89 | picking a file records it in both the preview state and the form value; cancelling changes nothing |
| DocumentUploadForm.Click | src/components/document/DocumentUploadForm.tsx:91-119 | invalid values change nothing; valid ones upload with the button's draft flag and reset the form |
| DocumentUploadForm.ButtonsRoute | src/components/document/DocumentUploadForm.tsx:240-268 | Save as Draft adds to the drafts and Upload adds to the documents, each leaving the other list alone |
| DocumentUploadForm.OversizedFileNeverUploads | src/components/document/DocumentUploadForm.tsx:49-54 | a file over 5 MiB never changes the store |
| FileUploadForm.Submit | src/components/document/FileUploadForm.tsx:45-80 | uploads a submission iff the schema holds and a file is selected; otherwise nothing changes; success resets the form |
| FileUploadForm.QuickUploadIsSubmission | src/components/document/FileUploadForm.tsx:58-64 | an enabled quick upload appends a pending non-draft document |
| FeedbackForm.Dispatch | src/components/feedback/FeedbackForm.tsx:47-62 | reply mode calls `replyToFeedback`, send mode calls `sendFeedback`, and the form resets |
| FeedbackForm.SubmitAsWritten | src/components/feedback/FeedbackForm.tsx:22-62 | the schema as written gates both modes: invalid values change nothing |
| FeedbackForm.ReplyNeverSubmits | src/components/feedback/FeedbackForm.tsx:22-81 | in reply mode the hidden subject keeps its empty default, so the as-written schema blocks every reply |
| FeedbackForm.Submit | src/components/feedback/FeedbackForm.tsx:22-62 | the corrected schema checks the subject only in send mode, then dispatches as the source does |
| FeedbackForm.CorrectedReplySubmits | src/components/feedback/FeedbackForm.tsx:47-81 | under the corrected schema a reply with a 10-character message to an existing item succeeds |
| FeedbackForm.SendModeUnchanged | src/components/feedback/FeedbackForm.tsx:22-62 | in send mode the correction behaves exactly like the source |
| MyDocumentsPage.FilteredDocuments | src/pages/MyDocuments.tsx:40-53 | nothing without a user; otherwise the user's documents whose title or original file name matches the search and whose status matches the filter, in order, every copy kept |
| MyDocumentsPage.UnfilteredShowsAll | src/pages/MyDocuments.tsx:43-53 | an empty search with `all` shows all of the user's documents |
| MyDocumentsPage.StatusFilterIsExact | src/pages/MyDocuments.tsx:45-53 | each status option shows exactly the user's documents with that status |
| MyDocumentsPage.UnknownStatusShowsNothing | src/pages/MyDocuments.tsx:45-53 | a filter value other than the four options shows nothing |
| MyDocumentsPage.HandleDeleteConfirm | src/pages/MyDocuments.tsx:55-60 | confirming applies the store's delete to the chosen document's id (so its list loses that id and keeps the rest in order) and clears the choice; with nothing chosen only the choice is cleared |
| MyDocumentsPage.ConfirmedDocumentLeaves | src/pages/MyDocuments.tsx:45-60 | after confirming, the list is the old list without the deleted id |
| MyDocumentPage.FilteredDocuments | src/pages/MyDocument.tsx:24-35 | nothing without a user; otherwise the user's documents whose title or file name matches the search, in order, every copy kept |
| MyDocumentPage.SameAsAllStatuses | src/pages/MyDocument.tsx:29-35 | this page shows what My Documents shows under `all` |
| MyDocumentPage.ConfirmedDocumentLeaves | src/pages/MyDocument.tsx:37-42 | after confirming, the list is the old list without the deleted id |
| DraftDocumentsPage.FilteredDrafts | src/pages/DraftDocuments.tsx:25-38 | nothing without a user; otherwise the user's drafts whose title matches the search, in order, every copy kept |
| DraftDocumentsPage.SavedDraftAppears | src/pages/DraftDocuments.tsx:35-38 | a draft just saved appears last in an unsearched drafts list |
| DraftDocumentsPage.ConfirmedDraftLeaves | src/pages/DraftDocuments.tsx:40-45 | deleting a draft leaves the submitted documents alone and removes it from the drafts list |
| AdminDocumentsPage.FilteredDocuments | src/pages/admin/AdminDocuments.tsx:30-39 | all documents whose title, uploader name or file name matches the search and whose status matches the filter, in order, every copy kept |
| AdminDocumentsPage.UnfilteredShowsAll | src/pages/admin/AdminDocuments.tsx:30-39 | an empty search with `all` shows every document |
| AdminDocumentsPage.HandleApprove | src/pages/admin/AdminDocuments.tsx:46-49 | the store is `approveDocument` of the document's id with the typed comments, and the notifications are `documentStatusChanged` for its owner; the notice carries the comments iff they are non-empty |
| AdminDocumentsPage.HandleReject | src/pages/admin/AdminDocuments.tsx:51-54 | the store is `rejectDocument` of the document's id with the typed comments, and the notifications are `documentStatusChanged` for its owner; the notice carries the comments iff they are non-empty |
| AdminDocumentsPage.DecisionReachesOwner | src/pages/admin/AdminDocuments.tsx:46-54 | a decision raises only the owner's unread count, by one |
| PendingDocumentsPage.FilteredDocuments | src/pages/admin/PendingDocuments.tsx:22-29 | the pending documents whose title, uploader name or file name matches the search, in order, every copy kept |
| PendingDocumentsPage.SearchThenDrop | src/pages/admin/PendingDocuments.tsx:25-29 | searching and dropping an id commute |
| PendingDocumentsPage.DecidedLeavesList | src/pages/admin/PendingDocuments.tsx:36-44 | approving or rejecting from this page removes exactly that id from it |
| AdminDashboard.StatusCountsPartition | src/pages/admin/AdminDashboard.tsx:16-18 | the three status counts add up to the number of documents |
| AdminDashboard.StatusCounts | src/pages/admin/AdminDashboard.tsx:16-18 | each count is the number of positions holding a document with that status; they add up to the list's length, and each is zero iff no document has that status |
| AdminDashboard.Render | src/pages/admin/AdminDashboard.tsx:16-63 | counts come from the list as given; the shared list becomes a newest-created-first permutation in which documents with equal creation times keep their original order, and the recent list is its first five |
| AdminDashboard.RecentAreNewest | src/pages/admin/AdminDashboard.tsx:61-63 | no document left off the recent list was created after one on it |
| AdminDashboard.RerenderKeepsCounts | src/pages/admin/AdminDashboard.tsx:16-63 | reordering by the in-place sort leaves the counts as they were |
| Dashboard.CoursesFor | src/pages/Dashboard.tsx:27 | a student gets the store's enrolled-course list (catalogue order, every copy); admins get none |
| Dashboard.StudentCards | src/pages/Dashboard.tsx:22-59 | the total is the number of positions holding the student's documents; approved and pending are the numbers of positions holding the student's documents with that status; the draft card counts the whole drafts list |
| Dashboard.AdminCards | src/pages/Dashboard.tsx:22-105 | all, approved and pending are the numbers of all, approved and pending documents; the shared list becomes a newest-updated-first permutation in which documents with equal update times keep their original order, and the recent list is its first five |
| Dashboard.Render | src/pages/Dashboard.tsx:20-105 | nothing without a user; the student panel for students and the admin panel for admins; the courses are those `CoursesFor` gives the user; an admin's render leaves the shared list as the admin cards' stable newest-updated sort, and any other render leaves it as it was |
| Dashboard.DraftCardCountsEveryone | src/pages/Dashboard.tsx:44 | another user saving a draft raises this student's draft card but not their total |
| Dashboard.SubmissionCounted | src/pages/Dashboard.tsx:22-25 | a student's own submission raises their total and pending cards by one and leaves approved alone |
| FeedbackPage.Partition | src/pages/Feedback.tsx:38-39 | received and sent keep, in order, every copy of the items addressed to or from the user and nothing else, both still newest first |
| FeedbackPage.Render | src/pages/Feedback.tsx:27-63 | nothing without a user; each tab is the user's received (or sent) items sorted newest first by the stable sort; students get the send form addressed to the demo admin, admins get none |
| FeedbackPage.SelectThenSort | src/pages/Feedback.tsx:30-39 | narrowing to the user's conversations, sorting and then splitting gives each tab as the received (or sent) items sorted directly |
| FeedbackPage.SelfAddressedInBoth | src/pages/Feedback.tsx:38-39 | a message to oneself shows in both tabs |
| FeedbackPage.HandleView | src/pages/Feedback.tsx:41-48 | viewing opens the dialog on the item and marks it read exactly when the viewer received it unread |
| FeedbackPage.HandleReply | src/pages/Feedback.tsx:50-53 | replying opens the dialog on the item and changes no item |
| FeedbackPage.ViewingClearsUnread | src/pages/Feedback.tsx:41-48 | viewing a received unread item takes exactly that id off the viewer's unread list; other views change nothing |
| AdminFeedbackPage.Render | src/pages/admin/AdminFeedback.tsx:24-33 | only an admin sees the page; each tab is the items to (or from) the admin sorted newest first by the stable sort |
| AdminFeedbackPage.SameItemsAsFeedbackPage | src/pages/admin/AdminFeedback.tsx:27-33 | for an admin the two feedback pages list the same items, and the ordinary page shows no send form |
| FeedbackDialog.ReplyFormProps | src/components/feedback/FeedbackDialog.tsx:75-79 | the reply form is addressed to the item's sender and replies to the item's id |
| FeedbackDialog.ClickReply | src/components/feedback/FeedbackDialog.tsx:60-70 | the reply button gives way to the form |
| FeedbackDialog.Close | src/components/feedback/FeedbackDialog.tsx:34-37 | closing hides the reply form and closes the dialog |
| FeedbackDialog.SubmitReply | src/components/feedback/FeedbackDialog.tsx:72-81 | under the corrected schema, the form submits with the item's props and closes the dialog on success only |
| FeedbackDialog.SubmitReplyAsWritten | src/components/feedback/FeedbackDialog.tsx:72-81 | under the schema as written, the form submits with the item's props and closes the dialog on success only |
| FeedbackDialog.AsWrittenReplyIsDropped | src/components/feedback/FeedbackForm.tsx:22-25 | as written, a reply typed in the dialog changes no mailbox, reports no success and leaves the dialog open on the form |
| FeedbackDialog.ReplyGoesToSender | src/components/feedback/FeedbackDialog.tsx:60-81 | under the corrected schema, a valid reply reaches the item's sender under `RE: `, marks the item replied and closes the dialog |
| MainLayout.Decide | src/components/layouts/MainLayout.tsx:15-40 | redirects to login iff authentication is required and missing, to the dashboard iff an admin page meets a non-admin; otherwise it renders, with the chrome iff someone is logged in and right-to-left iff Arabic |
| MainLayout.WhoIsAdmitted | src/components/layouts/MainLayout.tsx:24-31 | guarded pages admit any user, and admin pages admit admins only |
| LoginPage.RoleAfter | src/pages/Login.tsx:47-110 | the role starts as student and follows the last tab clicked |
| LoginPage.Submit | src/pages/Login.tsx:36-68 | invalid input stays; otherwise navigation happens iff the login succeeds, to the admin or the student dashboard by role |
| LoginPage.LandingPassesGuard | src/pages/Login.tsx:58-68 | where a successful login lands, the layout guard admits the new session |
| LoginPage.SeededLogins | src/pages/Login.tsx:58-68 | each seeded account reaches its own dashboard from its own tab; a six-character id with the right password is refused by the schema, and the page and session stay |
| LoginPage.WrongTabStays | src/pages/Login.tsx:58-68 | seeded credentials under the other tab stay on the page and leave the session unchanged |
| LoginPage.FlipLanguage | src/pages/Login.tsx:85 | the language button switches English to Arabic and every other value, Arabic included, to English |
| LoginPage.FlipTwice | src/pages/Login.tsx:85 | flipping twice restores a valid language |
| Navbar.Render | src/components/layouts/Navbar.tsx:30-153 | nothing without a user; the badge shows the unread count iff positive; the empty state checks the whole list; the items are every copy of the user's notifications and no other, newest first, with equal times in the order of the shared list |
| Navbar.TiesKeepOrder | src/components/layouts/Navbar.tsx:151-153 | after filtering and sorting, notifications with the same time keep their order in the shared list |
| Navbar.OthersHideEmptyState | src/components/layouts/Navbar.tsx:147-153 | with notifications only for others, the menu is blank and shows no empty state |
| Navbar.MarkOneRead | src/components/layouts/Navbar.tsx:170-178 | after a click, the item's mark-as-read button is gone and no unread count has risen |
| Navbar.SeeAll | src/components/layouts/Navbar.tsx:190-193 | See All closes the menu; each of the user's notifications becomes read with nothing else changed, and other users' notifications stay as they were |
| Navbar.SeeAllClearsBadge | src/components/layouts/Navbar.tsx:190-193 | afterwards the badge is gone and no item offers mark as read |
| DocumentPreview.StatusBadge | src/components/document/DocumentPreview.tsx:40-63 | approved and rejected have their own badge, and everything else shows as pending |
| DocumentPreview.TypeLabel | src/components/document/DocumentPreview.tsx:87 | the label is the type name with its first underscore spaced, capitalised letter by letter |
| DocumentPreview.GradeReviewLabel | src/components/document/DocumentPreview.tsx:87 | `grade_review` shows as `GRADE REVIEW` |
| DocumentPreview.OnlyFirstUnderscore | src/components/document/DocumentPreview.tsx:87 | only the first underscore is replaced |
| DocumentPreview.Render | src/components/document/DocumentPreview.tsx:38-154 | nothing without a document; review controls iff an admin views a pending document; download iff not an admin; comments iff non-empty; course or `N/A` |
| DocumentPreview.ClickDecision | src/components/document/DocumentPreview.tsx:109-145 | approve or deny passes the document and comments to the page's handler when one is given, and always closes |
| DocumentPreview.Dispatch | src/components/document/DocumentPreview.tsx:123-138 | with no handler nothing changes; Approve runs the page's `handleApprove` and Deny its `handleReject` on the clicked document and comments, each adding one notification |
| DocumentPreview.DecisionFromPreview | src/components/document/DocumentPreview.tsx:109-145 | deciding on a pending document drops it from the pending page, and the decided record no longer offers the controls |
| Sorting.SortSameElements | src/pages/admin/AdminDashboard.tsx:61-63 | the newest-first sort keeps exactly the items of its input |
| Sorting.SortStable | src/pages/Feedback.tsx:33-35 | the sort is stable: items with equal timestamps keep their relative order |
| Sorting.FilterSortCommute | src/pages/Feedback.tsx:33-39 | keeping the items that satisfy a condition commutes with the stable newest-first sort |
| Sorting.NewestDominates | src/pages/admin/AdminDashboard.tsx:61-63 | the first n after the sort are at least as new as every item after them |
| Common.CountIsPositions | src/pages/admin/AdminDashboard.tsx:16-18 | `filter(p).length` is the number of positions whose element satisfies p, duplicates included |
| Common.FilterMultiplicity | src/pages/MyDocuments.tsx:43 | `filter` keeps every occurrence of a satisfying element and drops every occurrence of the others |
| Common.DecimalRoundTrip | src/contexts/DocumentsContext.tsx:128-129 | the decimal spelling of a clock value reads back as that value |
| Common.EmptyQueryMatches | src/pages/MyDocuments.tsx:45-53 | an empty search matches every title |

## Left out

- Toasts, `setTimeout` delays and the `isLoading` flags: these are presentation and timing only. Each handler's state change is modelled as happening at once.
- `localStorage` writes and the `dark` and `rtl` classes set on the document element: these are browser side effects. What is read from storage at start-up is a parameter.
- The `catch` branches of the submit handlers: the modelled operations cannot throw.
- Dates: ISO strings are modelled as millisecond numbers. Date formatting with date-fns, and the relative times in the navbar, are left out.
- Float progress bars: the percentage bars on the admin dashboard (src/pages/admin/AdminDashboard.tsx:105-129) are floating-point presentation only.
- Presentational components: StatCard, CourseCard, DashboardActions, Sidebar, DocumentCard, FeedbackList, the Settings, Courses and Upload pages, and the routing table in App.tsx. They hold no state logic beyond what the modelled members already cover.
- Navbar theme and language buttons: these call the modelled `ToggleTheme` and `SetLanguage`.
- The `handleEdit` stub of My Documents: it only logs to the console.
- Seed data: the mock users, courses, documents and feedback are used only in example lemmas. Every operation is stated for arbitrary state.
- AppSettingsContext.Translate: for a language other than `en` or `ar`, which can only come from a corrupted saved setting, the source would throw a TypeError. The model returns `None`. JavaScript prototype keys such as `constructor` are not modelled as defined keys.
- Common.ToLower: case mapping covers ASCII letters only, so the search's `toLowerCase` is exact only for ASCII titles.
- UTF-16: strings are sequences of characters, not UTF-16 code units, so every length rule counts characters. This covers the seven-character id in LoginPage.SchemaValid, the subject and message lengths in FeedbackForm.SchemaValid, and the title length in DocumentUploadForm.Validate and FileUploadForm.Valid. A character outside the Basic Multilingual Plane counts once here but twice in JavaScript.
- DocumentsContext.NewIdInjective: ids come from `Date.now()`, so two uploads in the same millisecond collide. The lemma speaks only of distinct clock values.
- DocumentsContext.UpdateDocument: a patch cannot set a field back to `undefined`. A supplied `updatedAt` is not modelled because the clock always overwrites it.
- FeedbackDialog.SubmitReply: this uses the corrected schema `FeedbackForm.Submit` rather than the source's, so that the dialog's reply path can be stated at all (see Findings). The source's behaviour is `FeedbackDialog.SubmitReplyAsWritten`.
- FeedbackDialog.ReplyGoesToSender: this holds only under the corrected schema. As written no dialog reply is ever sent (`FeedbackDialog.AsWrittenReplyIsDropped`).
- AuthContext.UpdateUser: a patch field is either absent, and the old value is kept, or present with a value. The spread `{...user, ...userData}` can also overwrite a field with an explicit `undefined`, as the profile page's `updateUser({ name, profilePicture })` does when no picture is set. That case is not modelled.
- DocumentUploadForm.Click: the two buttons read `form.formState.isValid` inside their click handlers (src/components/document/DocumentUploadForm.tsx:240-248, 258-266). The model takes that flag to be the schema's verdict on the current values. React Hook Form only keeps the flag up to date once something subscribes to it, so a first click with valid values may only run `form.trigger()` and upload nothing. That timing is not modelled, and the same holds for `DocumentUploadForm.ButtonsRoute`.
- CourseContext.EnrolledIds: the enrolment table is a Dafny map, so `studentCourses[studentId] || []` yields `[]` for every id not in the table. In JavaScript a prototype key such as `constructor` would yield a function and make `includes` throw. No user id of that form exists in the portal.

## Findings

| source | as written | input that shows it | evidently intended | confidence | as-written member | corrected member |
|---|---|---|---|---|---|---|
| src/components/feedback/FeedbackForm.tsx:22-25 | the schema requires a subject of at least 3 characters in both modes, but reply mode hides the subject field (67-81), and its default stays `''` (39-45) | a reply from FeedbackDialog with subject `''` and a message of 10 or more characters | reply mode checks only the message, since `replyToFeedback` derives the subject from the original | not executed | FeedbackForm.ReplyNeverSubmits | FeedbackForm.CorrectedReplySubmits |
