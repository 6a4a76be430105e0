/** MainLayout: the route guard every page is wrapped in, and the text
    direction it chooses. */
module MainLayout {
  import opened Common
  import AuthContext
  import AppSettingsContext

  /** What the layout does: send the visitor elsewhere, or render the page,
      with or without the sidebar and navbar, in one direction. */
  datatype Decision = RedirectTo(path: string) | Render(chrome: bool, rtl: bool)

  /** The layout with its `requireAuth` and `adminOnly` props. The login
      check comes first; `user?.role !== 'admin'` also holds without a user. */
  function Decide(requireAuth: bool, adminOnly: bool, user: Option<AuthContext.User>,
                  language: AppSettingsContext.Language): (r: Decision)
    ensures r == RedirectTo("/login") <==> requireAuth && !AuthContext.IsAuthenticated(user)
    ensures r == RedirectTo("/dashboard") <==>
              !(requireAuth && !AuthContext.IsAuthenticated(user)) && adminOnly &&
              (user.None? || user.value.role != AuthContext.Admin)
    ensures r.Render? ==> (r.chrome <==> AuthContext.IsAuthenticated(user))
    ensures r.Render? ==> (r.rtl <==> language == AppSettingsContext.Ar)
  {
    if requireAuth && !AuthContext.IsAuthenticated(user) then RedirectTo("/login")
    else if adminOnly && (user.None? || user.value.role != AuthContext.Admin) then RedirectTo("/dashboard")
    else Render(AuthContext.IsAuthenticated(user), language == AppSettingsContext.Ar)
  }

  /** The defaults (`requireAuth = true`, `adminOnly = false`) admit exactly
      the logged-in visitors; `adminOnly` admits exactly the administrators,
      whose pages always show the sidebar and navbar. */
  lemma WhoIsAdmitted(user: Option<AuthContext.User>, language: AppSettingsContext.Language)
    ensures Decide(true, false, user, language).Render? <==> user.Some?
    ensures Decide(true, true, user, language).Render? <==> user.Some? && user.value.role == AuthContext.Admin
    ensures Decide(true, true, user, language).Render? ==> Decide(true, true, user, language).chrome
    ensures user.Some? && user.value.role == AuthContext.Student ==>
              Decide(true, true, user, language) == RedirectTo("/dashboard")
  {
  }
}

/** Login page: the credential schema, the role tabs, where a successful
    login leads, and the language button. */
module LoginPage {
  import opened Common
  import AuthContext
  import AppSettingsContext
  import MainLayout

  datatype Values = Values(id: string, password: string)

  /** `formSchema`: an id of exactly seven characters (any characters) and a
      password of at least six. */
  predicate SchemaValid(v: Values)
  {
    |v.id| == 7 && |v.password| >= 6
  }

  /** The two tabs of the login card. */
  datatype Tab = StudentTab | AdminTab

  /** The role the page passes to `login`: student until a tab is chosen,
      then the chosen tab's. */
  function RoleAfter(tabs: seq<Tab>): (r: AuthContext.Role)
    ensures tabs == [] ==> r == AuthContext.Student
    ensures tabs != [] ==> (r == AuthContext.Admin <==> tabs[|tabs| - 1] == AdminTab)
    ensures r != AuthContext.NoRole
  {
    if tabs == [] then AuthContext.Student
    else if tabs[|tabs| - 1] == AdminTab then AuthContext.Admin
    else AuthContext.Student
  }

  datatype Navigation = Stay | GoTo(path: string)

  /** The session after a submission and where the page goes. */
  datatype Outcome = Outcome(session: Option<AuthContext.User>, nav: Navigation)

  /** `form.handleSubmit(onSubmit)`: invalid input never reaches `login`; a
      successful login navigates by role, a failed one stays. */
  function Submit(session: Option<AuthContext.User>, students: seq<AuthContext.Account>,
                  admins: seq<AuthContext.Account>, v: Values, role: AuthContext.Role): (r: Outcome)
    ensures !SchemaValid(v) ==> r == Outcome(session, Stay)
    ensures r.nav.GoTo? <==> SchemaValid(v) && AuthContext.Login(session, students, admins, v.id, v.password, role).success
    ensures r.nav.GoTo? ==> r.nav.path == if role == AuthContext.Admin then "/admin/dashboard" else "/dashboard"
    ensures r.nav.Stay? ==> r.session == session
    ensures r.nav.GoTo? ==> exists a :: a in AuthContext.TableFor(role, students, admins) &&
                                        AuthContext.Matches(a, v.id, v.password) &&
                                        r.session == Some(AuthContext.WithoutPassword(a))
  {
    if !SchemaValid(v) then Outcome(session, Stay)
    else
      var res := AuthContext.Login(session, students, admins, v.id, v.password, role);
      if res.success then Outcome(res.user, GoTo(if role == AuthContext.Admin then "/admin/dashboard" else "/dashboard"))
      else Outcome(res.user, Stay)
  }

  /** With the application's accounts, a login from either tab lands on a
      page whose layout guard lets the new session in. */
  lemma LandingPassesGuard(session: Option<AuthContext.User>, v: Values, tabs: seq<Tab>,
                           language: AppSettingsContext.Language)
    ensures var r := Submit(session, AuthContext.StudentAccounts, AuthContext.AdminAccounts, v, RoleAfter(tabs));
            r.nav == GoTo("/admin/dashboard") ==> MainLayout.Decide(true, true, r.session, language).Render?
    ensures var r := Submit(session, AuthContext.StudentAccounts, AuthContext.AdminAccounts, v, RoleAfter(tabs));
            r.nav == GoTo("/dashboard") ==> MainLayout.Decide(true, false, r.session, language).Render?
  {
    var role := RoleAfter(tabs);
    var r := Submit(session, AuthContext.StudentAccounts, AuthContext.AdminAccounts, v, role);
    if r.nav.GoTo? && role == AuthContext.Admin {
      var a :| a in AuthContext.TableFor(role, AuthContext.StudentAccounts, AuthContext.AdminAccounts) &&
               AuthContext.Matches(a, v.id, v.password) && r.session == Some(AuthContext.WithoutPassword(a));
      assert a == AuthContext.AdminAccounts[0];
    }
  }

  /** The seeded accounts: the student tab with the student's credentials
      reaches the dashboard, the admin tab with the admin's reaches the admin
      dashboard, and a correct password with a six-character id is refused
      by the schema before any lookup. */
  lemma SeededLogins(session: Option<AuthContext.User>)
    ensures Submit(session, AuthContext.StudentAccounts, AuthContext.AdminAccounts,
                   Values("1234567", "student123"), RoleAfter([])).nav == GoTo("/dashboard")
    ensures Submit(session, AuthContext.StudentAccounts, AuthContext.AdminAccounts,
                   Values("7654321", "admin123"), RoleAfter([AdminTab])).nav == GoTo("/admin/dashboard")
    ensures Submit(session, AuthContext.StudentAccounts, AuthContext.AdminAccounts,
                   Values("123456", "student123"), AuthContext.Student) == Outcome(session, Stay)
  {
    AuthContext.MockLogins(session, "", "");
    assert RoleAfter([AdminTab]) == AuthContext.Admin;
    assert SchemaValid(Values("1234567", "student123")) && SchemaValid(Values("7654321", "admin123"));
    assert !SchemaValid(Values("123456", "student123"));
  }

  /** Seeded credentials typed under the other tab fail: the page stays and
      the session is what it was. */
  lemma WrongTabStays(session: Option<AuthContext.User>)
    ensures Submit(session, AuthContext.StudentAccounts, AuthContext.AdminAccounts,
                   Values("1234567", "student123"), RoleAfter([AdminTab])) == Outcome(session, Stay)
    ensures Submit(session, AuthContext.StudentAccounts, AuthContext.AdminAccounts,
                   Values("7654321", "admin123"), RoleAfter([])) == Outcome(session, Stay)
  {
    AuthContext.MockLogins(session, "", "");
    AuthContext.AdminNotAStudent(session);
  }

  /** The language button: `language === 'en' ? 'ar' : 'en'`. */
  function FlipLanguage(s: AppSettingsContext.Settings): (r: AppSettingsContext.Settings)
    ensures r.theme == s.theme
    ensures r.language == AppSettingsContext.Ar <==> s.language == AppSettingsContext.En
    ensures r.language == AppSettingsContext.Ar || r.language == AppSettingsContext.En
  {
    AppSettingsContext.SetLanguage(s, if s.language == AppSettingsContext.En then AppSettingsContext.Ar
                                      else AppSettingsContext.En)
  }

  /** Two presses restore English or Arabic; an unreadable stored language
      becomes English, then Arabic. */
  lemma FlipTwice(s: AppSettingsContext.Settings)
    ensures s.language == AppSettingsContext.En || s.language == AppSettingsContext.Ar ==>
              FlipLanguage(FlipLanguage(s)) == s
    ensures s.language.UnknownLanguage? ==> FlipLanguage(FlipLanguage(s)).language == AppSettingsContext.Ar
  {
  }
}

/** Navbar: the unread badge and the notification dialog with its mark-read
    and "see all" actions. The theme and language controls only call
    `toggleTheme` and `setLanguage`. */
module Navbar {
  import opened Common
  import Sorting
  import AuthContext
  import NotificationContext

  type Notification = NotificationContext.Notification

  function CreatedAt(): Notification -> int
  {
    (n: Notification) => n.createdAt
  }

  /** What the navbar shows: the badge (with its number), the dialog's list,
      and whether the dialog shows the "no notifications" text instead. */
  datatype View = View(badge: Option<nat>, items: seq<Notification>, emptyState: bool)

  /** The navbar: nothing without a user. The badge shows the unread count
      when it is positive. The empty text is chosen by looking at the whole
      shared list; the list itself keeps the user's items, newest first. */
  function Render(ns: seq<Notification>, user: Option<AuthContext.User>): (r: Option<View>)
    ensures r.None? <==> user.None?
    ensures r.Some? ==> (r.value.badge.Some? <==> NotificationContext.UnreadCount(ns, user) > 0)
    ensures r.Some? && r.value.badge.Some? ==> r.value.badge.value == NotificationContext.UnreadCount(ns, user)
    ensures r.Some? ==> (r.value.emptyState <==> ns == [])
    ensures r.Some? ==> forall n :: n in r.value.items <==> n in ns && n.userId == user.value.id
    ensures r.Some? ==> Sorting.NewestFirst(r.value.items, CreatedAt())
    ensures r.Some? ==>
              forall n {:trigger multiset(r.value.items)[n]} :: multiset(r.value.items)[n] ==
                if n.userId == user.value.id then multiset(ns)[n] else 0
    ensures r.Some? ==>
              forall k :: Sorting.WithKey(r.value.items, CreatedAt(), k) ==
                            Filter(Sorting.WithKey(ns, CreatedAt(), k), NotificationContext.AddressedTo(user.value.id))
  {
    match user
    case None => None
    case Some(u) =>
      var count := NotificationContext.UnreadCount(ns, user);
      var mine := Filter(ns, NotificationContext.AddressedTo(u.id));
      Sorting.SortSameElements(mine, CreatedAt());
      FilterMultiplicity(ns, NotificationContext.AddressedTo(u.id));
      TiesKeepOrder(ns, u.id);
      Some(View(if count > 0 then Some(count) else None, Sorting.SortNewestFirst(mine, CreatedAt()), ns == []))
  }

  /** Notifications with the same time stay in the order of the shared
      list: the sort is stable, and keeping the user's items commutes with
      keeping one timestamp. */
  lemma TiesKeepOrder(ns: seq<Notification>, userId: string)
    ensures var items := Sorting.SortNewestFirst(Filter(ns, NotificationContext.AddressedTo(userId)), CreatedAt());
            forall k :: Sorting.WithKey(items, CreatedAt(), k) ==
                          Filter(Sorting.WithKey(ns, CreatedAt(), k), NotificationContext.AddressedTo(userId))
  {
    var mine := Filter(ns, NotificationContext.AddressedTo(userId));
    forall k
      ensures Sorting.WithKey(Sorting.SortNewestFirst(mine, CreatedAt()), CreatedAt(), k) ==
              Filter(Sorting.WithKey(ns, CreatedAt(), k), NotificationContext.AddressedTo(userId))
    {
      var at := Sorting.KeyIs(CreatedAt(), k);
      var both := (n: Notification) => n.userId == userId && n.createdAt == k;
      Sorting.SortStable(mine, CreatedAt(), k);
      FilterFilter(ns, NotificationContext.AddressedTo(userId), at, both);
      FilterFilter(ns, at, NotificationContext.AddressedTo(userId), both);
    }
  }

  /** Another user's notifications suppress the empty text even when the
      current user has none, leaving an empty list with no explanation. */
  lemma OthersHideEmptyState(ns: seq<Notification>, user: AuthContext.User)
    requires ns != [] && forall n :: n in ns ==> n.userId != user.id
    ensures Render(ns, Some(user)).value.items == [] && !Render(ns, Some(user)).value.emptyState
  {
    var mine := Filter(ns, NotificationContext.AddressedTo(user.id));
    FilterNone(ns, NotificationContext.AddressedTo(user.id));
    assert Sorting.SortNewestFirst(mine, CreatedAt()) == [];
  }

  /** "Mark as read" is offered on unread items only. */
  predicate MarkReadOffered(n: Notification)
  {
    !n.read
  }

  /** Clicking "Mark as read" on an item: it is no longer offered, and the
      badge's number never grows. */
  lemma MarkOneRead(ns: seq<Notification>, user: AuthContext.User, n: Notification)
    requires n in ns && MarkReadOffered(n)
    ensures forall m :: m in NotificationContext.MarkAsRead(ns, n.id) && m.id == n.id ==> !MarkReadOffered(m)
    ensures NotificationContext.UnreadCount(NotificationContext.MarkAsRead(ns, n.id), Some(user)) <=
            NotificationContext.UnreadCount(ns, Some(user))
  {
    var after := NotificationContext.MarkAsRead(ns, n.id);
    forall m | m in after && m.id == n.id
      ensures !MarkReadOffered(m)
    {
      var i :| 0 <= i < |after| && after[i] == m;
    }
    NotificationContext.MarkAsReadNeverRaises(ns, n.id, Some(user));
  }

  /** "See All": mark all of the user's items read and close the dialog. */
  function SeeAll(ns: seq<Notification>, user: AuthContext.User): (r: (seq<Notification>, bool))
    ensures !r.1
    ensures |r.0| == |ns|
    ensures forall i :: 0 <= i < |ns| ==> r.0[i].id == ns[i].id && r.0[i].userId == ns[i].userId
    ensures forall i :: 0 <= i < |ns| && ns[i].userId != user.id ==> r.0[i] == ns[i]
    ensures forall i :: 0 <= i < |ns| && ns[i].userId == user.id ==> r.0[i] == ns[i].(read := true)
  {
    (NotificationContext.MarkAllAsRead(ns, Some(user)), false)
  }

  /** After "See All" the badge is gone and nothing in the user's list is
      offered for marking. */
  lemma SeeAllClearsBadge(ns: seq<Notification>, user: AuthContext.User)
    ensures Render(SeeAll(ns, user).0, Some(user)).value.badge.None?
    ensures forall n :: n in Render(SeeAll(ns, user).0, Some(user)).value.items ==> !MarkReadOffered(n)
  {
    var after := SeeAll(ns, user).0;
    NotificationContext.MarkAllAsReadClears(ns, user);
    forall n | n in Render(after, Some(user)).value.items
      ensures !MarkReadOffered(n)
    {
      var i :| 0 <= i < |after| && after[i] == n;
    }
  }
}
