/** AppSettingsContext: theme, language and the `t` translation lookup.
    Persisting to `localStorage` and toggling classes on the document root are
    browser side effects outside the model; the stored strings enter only as
    the optional values the initial state is read from. */
module AppSettingsContext {
  import opened Common

  /** `ThemeType`. Values read back from storage are cast without a check,
      so an arbitrary stored string is carried as `UnknownTheme`. */
  datatype Theme = Light | Dark | UnknownTheme(raw: string)

  /** `LanguageType`, with the same unchecked-cast case. */
  datatype Language = En | Ar | UnknownLanguage(raw: string)

  datatype Settings = Settings(theme: Theme, language: Language)

  /** The string a theme is stored and compared as. */
  function ThemeName(t: Theme): string
  {
    match t
    case Light => "light"
    case Dark => "dark"
    case UnknownTheme(raw) => raw
  }

  function LanguageName(l: Language): string
  {
    match l
    case En => "en"
    case Ar => "ar"
    case UnknownLanguage(raw) => raw
  }

  /** `(saved as ThemeType) || 'light'`: a missing or empty stored value gives
      the light theme, anything else is taken as it is. */
  function InitialTheme(saved: Option<string>): (r: Theme)
    ensures saved.None? || saved == Some("") ==> r == Light
    ensures saved.Some? && saved.value != "" ==> ThemeName(r) == saved.value
  {
    match saved
    case None => Light
    case Some(s) =>
      if s == "" || s == "light" then Light
      else if s == "dark" then Dark
      else UnknownTheme(s)
  }

  /** `(saved as LanguageType) || 'en'`. */
  function InitialLanguage(saved: Option<string>): (r: Language)
    ensures saved.None? || saved == Some("") ==> r == En
    ensures saved.Some? && saved.value != "" ==> LanguageName(r) == saved.value
  {
    match saved
    case None => En
    case Some(s) =>
      if s == "" || s == "en" then En
      else if s == "ar" then Ar
      else UnknownLanguage(s)
  }

  function InitialSettings(savedTheme: Option<string>, savedLanguage: Option<string>): Settings
  {
    Settings(InitialTheme(savedTheme), InitialLanguage(savedLanguage))
  }

  /** With nothing stored the portal starts light and in English; a theme
      or language the portal itself stored is restored unchanged. */
  lemma InitialSettingsRestore(t: Theme, l: Language)
    ensures InitialSettings(None, None) == Settings(Light, En)
    ensures t.Light? || t.Dark? ==> InitialTheme(Some(ThemeName(t))) == t
    ensures l.En? || l.Ar? ==> InitialLanguage(Some(LanguageName(l))) == l
  {
    assert "dark" != "" && "dark" != "light";
    assert "ar" != "" && "ar" != "en";
  }

  /** `toggleTheme`: `prev === 'light' ? 'dark' : 'light'`. */
  function ToggleTheme(s: Settings): (r: Settings)
    ensures r.language == s.language
    ensures r.theme.Light? || r.theme.Dark?
    ensures r.theme.Dark? <==> s.theme.Light?
  {
    s.(theme := if s.theme == Light then Dark else Light)
  }

  /** Toggling twice restores a light or dark theme; an unknown stored theme
      is not "light", so the first toggle turns it light and the second dark. */
  lemma ToggleTwice(s: Settings)
    ensures s.theme.Light? || s.theme.Dark? ==> ToggleTheme(ToggleTheme(s)) == s
    ensures s.theme.UnknownTheme? ==> ToggleTheme(s).theme == Light && ToggleTheme(ToggleTheme(s)).theme == Dark
  {
  }

  /** `setLanguage(lang)`. */
  function SetLanguage(s: Settings, lang: Language): (r: Settings)
    ensures r.language == lang && r.theme == s.theme
  {
    s.(language := lang)
  }

  /** A translation object literal: its keys and, in the same order, their
      texts. The split of each list into a head and a tail has no
      counterpart in the program: it only keeps each proof about the tables
      small enough for the verifier, and the halves are always concatenated
      back in source order. */
  datatype Table = Table(keys: seq<string>, texts: seq<string>)

  const EnglishKeysHead: seq<string> := [
    "dashboard", "documents", "myDocuments", "uploadDocument", "draftDocuments", "courses",
    "feedback", "settings", "logout", "login", "welcome", "studentLogin", "adminLogin",
    "universityId", "password", "loginButton", "errorInvalidCredentials", "darkMode", "lightMode",
    "english", "arabic", "uploadTitle", "documentTitle", "documentType", "fileUpload",
    "uploadButton", "documentTypeHomework", "documentTypeAbsence", "documentTypeGradeReview",
    "documentTypeOther", "deleteConfirm", "cancel", "delete", "edit"
  ]
  const EnglishKeysTail: seq<string> := [
    "view", "send", "subject", "message", "status", "course", "dueDate", "saveAsDraft",
    "viewDetails", "approved", "pending", "rejected", "editProfile", "save", "profileUpdated",
    "feedbackTitle", "feedbackPlaceholder", "feedbackSent", "newFeedback", "allDocuments",
    "pendingDocuments", "search", "notificationTitle", "noNotifications", "seeAll", "approveDeny",
    "approve", "deny", "submittedBy", "submissionDate", "noDocuments", "uploadSuccess", "draftSaved"
  ]
  const EnglishTextsHead: seq<string> := [
    "Dashboard", "Documents", "My Documents", "Upload Document", "Draft Documents", "Courses",
    "Feedback", "Settings", "Logout", "Login", "Welcome to HashDoc", "Student Login",
    "Admin Login", "University ID", "Password", "Login", "Invalid credentials", "Dark Mode",
    "Light Mode", "English", "Arabic", "Upload New Document", "Document Title", "Document Type",
    "File Upload", "Upload", "Homework", "Excuse of Absence", "Grade Review Request", "Other",
    "Are you sure you want to delete this document?", "Cancel", "Delete", "Edit"
  ]
  const EnglishTextsTail: seq<string> := [
    "View", "Send", "Subject", "Message", "Status", "Course", "Due Date", "Save as Draft",
    "View Details", "Approved", "Pending", "Rejected", "Edit Profile", "Save",
    "Profile updated successfully", "Send Feedback", "Write your feedback here...",
    "Feedback sent successfully", "New Feedback", "All Documents", "Pending Documents", "Search",
    "Notifications", "No notifications", "See All", "Approve/Deny", "Approve", "Deny",
    "Submitted by", "Submission Date", "No documents found", "Document uploaded successfully",
    "Draft saved successfully"
  ]
  const ArabicKeysHead: seq<string> := [
    "dashboard", "documents", "myDocuments", "uploadDocument", "draftDocuments", "courses",
    "feedback", "settings", "logout", "login", "welcome", "studentLogin", "adminLogin",
    "universityId", "password", "loginButton", "errorInvalidCredentials", "darkMode", "lightMode",
    "english", "arabic", "uploadTitle", "documentTitle", "documentType", "fileUpload",
    "uploadButton", "documentTypeHomework", "documentTypeAbsence", "documentTypeGradeReview",
    "documentTypeOther", "deleteConfirm", "cancel", "delete", "edit"
  ]
  const ArabicKeysTail: seq<string> := [
    "view", "send", "subject", "message", "status", "course", "dueDate", "saveAsDraft",
    "viewDetails", "approved", "pending", "rejected", "editProfile", "save", "profileUpdated",
    "feedbackTitle", "feedbackPlaceholder", "feedbackSent", "newFeedback", "allDocuments",
    "pendingDocuments", "search", "notificationTitle", "noNotifications", "seeAll", "approveDeny",
    "approve", "deny", "submittedBy", "submissionDate", "noDocuments", "uploadSuccess", "draftSaved"
  ]
  const ArabicTextsHead: seq<string> := [
    "لوحة القيادة", "المستندات", "مستنداتي", "رفع مستند", "مسودات المستندات", "المساقات",
    "التغذية الراجعة", "الإعدادات", "تسجيل الخروج", "تسجيل الدخول", "مرحبًا بك في هاشدوك",
    "تسجيل دخول الطالب", "تسجيل دخول المسؤول", "الرقم الجامعي", "كلمة المرور", "تسجيل الدخول",
    "بيانات غير صحيحة", "الوضع الداكن", "الوضع الفاتح", "الإنجليزية", "العربية", "رفع مستند جديد",
    "عنوان المستند", "نوع المستند", "رفع الملف", "رفع", "واجب منزلي", "عذر غياب",
    "طلب مراجعة علامة", "أخرى", "هل أنت متأكد من حذف هذا المستند؟", "إلغاء", "حذف", "تعديل"
  ]
  const ArabicTextsTail: seq<string> := [
    "عرض", "إرسال", "الموضوع", "الرسالة", "الحالة", "المساق", "تاريخ الاستحقاق", "حفظ كمسودة",
    "عرض التفاصيل", "مقبول", "قيد المراجعة", "مرفوض", "تعديل الملف الشخصي", "حفظ",
    "تم تحديث الملف الشخصي بنجاح", "إرسال تغذية راجعة", "اكتب تغذيتك الراجعة هنا...",
    "تم إرسال التغذية الراجعة بنجاح", "تغذية راجعة جديدة", "جميع المستندات", "المستندات المعلقة",
    "بحث", "الإشعارات", "لا توجد إشعارات", "عرض الكل", "قبول/رفض", "قبول", "رفض", "مقدم من",
    "تاريخ التقديم", "لا توجد مستندات", "تم رفع المستند بنجاح", "تم حفظ المسودة بنجاح"
  ]

  const EnglishKeys: seq<string> := EnglishKeysHead + EnglishKeysTail
  const ArabicKeys: seq<string> := ArabicKeysHead + ArabicKeysTail
  const EnglishTable: Table := Table(EnglishKeys, EnglishTextsHead + EnglishTextsTail)
  const ArabicTable: Table := Table(ArabicKeys, ArabicTextsHead + ArabicTextsTail)

  predicate WellFormed(t: Table)
  {
    |t.keys| == |t.texts|
  }

  /** `table[key]` on an object literal: the text of the last entry with that key. */
  function Lookup(t: Table, key: string): (r: Option<string>)
    requires WellFormed(t)
    ensures r.Some? ==> exists i :: 0 <= i < |t.keys| && t.keys[i] == key && t.texts[i] == r.value
    ensures r.None? <==> key !in t.keys
    decreases |t.keys|
  {
    if t.keys == [] then None
    else if t.keys[|t.keys| - 1] == key then Some(t.texts[|t.texts| - 1])
    else
      var front := Table(t.keys[..|t.keys| - 1], t.texts[..|t.texts| - 1]);
      assert t.keys == front.keys + [t.keys[|t.keys| - 1]];
      var r := Lookup(front, key);
      assert forall i :: 0 <= i < |front.keys| ==> front.keys[i] == t.keys[i] && front.texts[i] == t.texts[i];
      r
  }

  /** The table of a language; an unknown language has none. */
  function TableOf(lang: Language): Option<Table>
  {
    match lang
    case En => Some(EnglishTable)
    case Ar => Some(ArabicTable)
    case UnknownLanguage(_) => None
  }

  lemma TablesWellFormed()
    ensures WellFormed(EnglishTable) && WellFormed(ArabicTable)
  {
  }

  /** `t(key)`: `translations[language][key] || key`. `None` stands for the
      TypeError JavaScript raises when the language has no table. */
  function Translate(lang: Language, key: string): (r: Option<string>)
    ensures r.None? <==> lang.UnknownLanguage?
    ensures r.Some? && key !in TableOf(lang).value.keys ==> r.value == key
    ensures r.Some? && r.value != key ==>
              exists i :: 0 <= i < |TableOf(lang).value.keys| && TableOf(lang).value.keys[i] == key &&
                          TableOf(lang).value.texts[i] == r.value
  {
    TablesWellFormed();
    match TableOf(lang)
    case None => None
    case Some(table) =>
      match Lookup(table, key)
      case Some(text) => if text != "" then Some(text) else Some(key)
      case None => Some(key)
  }

  /** `t` gives back the key itself because the entry is missing or empty. */
  predicate FallsBack(lang: Language, key: string)
  {
    TablesWellFormed();
    TableOf(lang).Some? && (Lookup(TableOf(lang).value, key).None? || Lookup(TableOf(lang).value, key).value == "")
  }

  predicate NoEmptyText(t: Table)
  {
    forall s :: s in t.texts ==> s != ""
  }

  /** In a table without empty texts, `t` falls back exactly for the keys the
      table does not define. */
  lemma FallsBackIffUndefined(t: Table, key: string)
    requires WellFormed(t) && NoEmptyText(t)
    ensures (Lookup(t, key).None? || Lookup(t, key).value == "") <==> key !in t.keys
  {
    if Lookup(t, key).Some? {
      var i :| 0 <= i < |t.keys| && t.keys[i] == key && t.texts[i] == Lookup(t, key).value;
      assert t.texts[i] in t.texts;
    }
  }

  /** Both tables define the same keys in the same order, and neither has an
      empty text. */
  lemma TablesAgree()
    ensures EnglishTable.keys == ArabicTable.keys
    ensures NoEmptyText(EnglishTable) && NoEmptyText(ArabicTable)
  {
    SameKeys();
    EnglishTextsNonEmpty();
    ArabicTextsNonEmpty();
  }

  lemma SameKeys()
    ensures EnglishKeys == ArabicKeys
  {
  }

  predicate AllNonEmpty(texts: seq<string>)
  {
    forall s :: s in texts ==> s != ""
  }

  lemma AppendNonEmpty(a: seq<string>, b: seq<string>)
    requires AllNonEmpty(a) && AllNonEmpty(b)
    ensures AllNonEmpty(a + b)
  {
    forall s | s in a + b
      ensures s != ""
    {
      assert s in a || s in b;
    }
  }

  lemma EnglishHeadNonEmpty()
    ensures AllNonEmpty(EnglishTextsHead)
  {
  }

  lemma EnglishTailNonEmpty()
    ensures AllNonEmpty(EnglishTextsTail)
  {
  }

  lemma ArabicHeadNonEmpty()
    ensures AllNonEmpty(ArabicTextsHead)
  {
  }

  lemma ArabicTailNonEmpty()
    ensures AllNonEmpty(ArabicTextsTail)
  {
  }

  lemma EnglishTextsNonEmpty()
    ensures forall s :: s in EnglishTextsHead + EnglishTextsTail ==> s != ""
  {
    EnglishHeadNonEmpty();
    EnglishTailNonEmpty();
    AppendNonEmpty(EnglishTextsHead, EnglishTextsTail);
  }

  lemma ArabicTextsNonEmpty()
    ensures forall s :: s in ArabicTextsHead + ArabicTextsTail ==> s != ""
  {
    ArabicHeadNonEmpty();
    ArabicTailNonEmpty();
    AppendNonEmpty(ArabicTextsHead, ArabicTextsTail);
  }

  /** Switching between English and Arabic never changes whether `t` falls
      back to the key. */
  lemma SwitchingLanguageKeepsFallback(key: string)
    ensures FallsBack(En, key) <==> FallsBack(Ar, key)
  {
    TablesWellFormed();
    TablesAgree();
    FallsBackIffUndefined(EnglishTable, key);
    FallsBackIffUndefined(ArabicTable, key);
  }

  /** A key neither table defines translates to itself in both languages. */
  lemma UndefinedKeyShowsItself(lang: Language, key: string)
    requires lang.En? || lang.Ar?
    requires key !in EnglishKeys
    ensures Translate(lang, key) == Some(key)
  {
    TablesAgree();
  }

  /** `comments`, used as a label by the document preview, is not a key. */
  lemma CommentsIsNotAKey()
    ensures "comments" !in EnglishKeys
  {
  }

  /** `download`, the preview's download button label, is not a key. */
  lemma DownloadIsNotAKey()
    ensures "download" !in EnglishKeys
  {
  }

  /** `upload`, the quick upload form's button label, is not a key. */
  lemma UploadIsNotAKey()
    ensures "upload" !in EnglishKeys
  {
  }

  /** A key both tables define yields one of its language's texts, which is
      never empty. */
  lemma DefinedKeyTranslates(lang: Language, key: string)
    requires lang.En? || lang.Ar?
    requires key in EnglishKeys
    ensures Translate(lang, key).Some?
    ensures Translate(lang, key) == Lookup(TableOf(lang).value, key)
    ensures Translate(lang, key).value in TableOf(lang).value.texts && Translate(lang, key).value != ""
  {
    TablesWellFormed();
    TablesAgree();
    var t := TableOf(lang).value;
    var i :| 0 <= i < |t.keys| && t.keys[i] == key && t.texts[i] == Lookup(t, key).value;
    assert t.texts[i] in t.texts;
  }
}
