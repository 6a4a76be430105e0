/** AuthContext: the session user, looked up in fixed student and admin
    tables. The one-second simulated latency and the toasts are not part of
    the model. */
module AuthContext {
  import opened Common

  /** `UserRole`: `'student' | 'admin' | null`. */
  datatype Role = Student | Admin | NoRole

  /** The session user: an account without its password. */
  datatype User = User(id: string, name: string, role: Role, profilePicture: Option<string>, courses: Option<seq<string>>)

  /** An entry of the login tables. */
  datatype Account = Account(id: string, password: string, name: string, role: Role,
                             profilePicture: Option<string>, courses: Option<seq<string>>)

  const StudentAccounts: seq<Account> :=
    [Account("1234567", "student123", "Ahmed Al-Jordani", Student, Some("/profile-student.jpg"), Some(["CS101", "MATH201", "ENG105"]))]

  const AdminAccounts: seq<Account> :=
    [Account("7654321", "admin123", "Dr. Mohammad Hashemi", Admin, Some("/profile-admin.jpg"), None)]

  predicate Matches(a: Account, id: string, password: string)
  {
    a.id == id && a.password == password
  }

  /** `table.find(a => a.id === id && a.password === password)`. */
  function FindAccount(table: seq<Account>, id: string, password: string): (r: Option<Account>)
    ensures r.None? <==> forall a :: a in table ==> !Matches(a, id, password)
    ensures r.Some? ==> exists k :: 0 <= k < |table| && table[k] == r.value && Matches(table[k], id, password) &&
                                    forall j :: 0 <= j < k ==> !Matches(table[j], id, password)
  {
    Find(table, (a: Account) => Matches(a, id, password))
  }

  /** The table a login with `role` searches; a null role searches nothing. */
  function TableFor(role: Role, students: seq<Account>, admins: seq<Account>): seq<Account>
  {
    match role
    case Student => students
    case Admin => admins
    case NoRole => []
  }

  /** `const { password: _, ...userWithoutPassword } = foundUser`. */
  function WithoutPassword(a: Account): User
  {
    User(a.id, a.name, a.role, a.profilePicture, a.courses)
  }

  datatype LoginResult = LoginResult(success: bool, user: Option<User>)

  /** `login(id, password, role)` against the given tables. */
  function Login(current: Option<User>, students: seq<Account>, admins: seq<Account>,
                 id: string, password: string, role: Role): (r: LoginResult)
    ensures r.success <==> role != NoRole && exists a :: a in TableFor(role, students, admins) && Matches(a, id, password)
    ensures r.success ==> exists a :: a in TableFor(role, students, admins) && Matches(a, id, password) &&
                                      r.user == Some(WithoutPassword(a))
    ensures r.success ==> var table := TableFor(role, students, admins);
              exists k :: 0 <= k < |table| && Matches(table[k], id, password) &&
                (forall j :: 0 <= j < k ==> !Matches(table[j], id, password)) &&
                r.user == Some(WithoutPassword(table[k]))
    ensures !r.success ==> r.user == current
  {
    match FindAccount(TableFor(role, students, admins), id, password)
    case Some(a) =>
      assert a in TableFor(role, students, admins);
      LoginResult(true, Some(WithoutPassword(a)))
    case None => LoginResult(false, current)
  }

  /** `logout()`. */
  function Logout(current: Option<User>): Option<User>
  {
    None
  }

  /** `isAuthenticated: !!user`. */
  predicate IsAuthenticated(user: Option<User>)
  {
    user.Some?
  }

  /** A successful login authenticates the session with the identifier that
      was typed; a failed one leaves authentication as it was; logging out
      always ends it. */
  lemma SessionAfterLogin(current: Option<User>, students: seq<Account>, admins: seq<Account>,
                          id: string, password: string, role: Role)
    ensures Login(current, students, admins, id, password, role).success ==>
              IsAuthenticated(Login(current, students, admins, id, password, role).user) &&
              Login(current, students, admins, id, password, role).user.value.id == id
    ensures !Login(current, students, admins, id, password, role).success ==>
              IsAuthenticated(Login(current, students, admins, id, password, role).user) == IsAuthenticated(current)
    ensures !IsAuthenticated(Logout(current))
  {
  }

  /** With the application's own tables: the seeded student and admin can
      log in under their own role only, and a null role never succeeds. */
  lemma MockLogins(current: Option<User>, id: string, password: string)
    ensures Login(current, StudentAccounts, AdminAccounts, "1234567", "student123", Student).success
    ensures Login(current, StudentAccounts, AdminAccounts, "7654321", "admin123", Admin).user ==
              Some(User("7654321", "Dr. Mohammad Hashemi", Admin, Some("/profile-admin.jpg"), None))
    ensures !Login(current, StudentAccounts, AdminAccounts, "1234567", "student123", Admin).success
    ensures !Login(current, StudentAccounts, AdminAccounts, id, password, NoRole).success
  {
    assert Matches(StudentAccounts[0], "1234567", "student123");
    assert StudentAccounts[0] in TableFor(Student, StudentAccounts, AdminAccounts);
    assert AdminAccounts[0] in TableFor(Admin, StudentAccounts, AdminAccounts);
    assert Matches(AdminAccounts[0], "7654321", "admin123");
  }

  /** The seeded administrator cannot log in from the student tab: the
      student table holds no account with those credentials. */
  lemma AdminNotAStudent(current: Option<User>)
    ensures !Login(current, StudentAccounts, AdminAccounts, "7654321", "admin123", Student).success
    ensures Login(current, StudentAccounts, AdminAccounts, "7654321", "admin123", Student).user == current
  {
    assert forall a :: a in StudentAccounts ==> a.id != "7654321";
  }

  /** `Partial<User>`: the fields an `updateUser` call supplies. */
  datatype UserPatch = UserPatch(id: Option<string>, name: Option<string>, role: Option<Role>,
                                 profilePicture: Option<string>, courses: Option<seq<string>>)

  /** `updateUser(userData)`: `{ ...user, ...userData }` when someone is logged in. */
  function UpdateUser(current: Option<User>, patch: UserPatch): (r: Option<User>)
    ensures current.None? ==> r.None?
    ensures current.Some? ==> r.Some?
    ensures current.Some? ==>
              && (patch.id.Some? ==> r.value.id == patch.id.value)
              && (patch.id.None? ==> r.value.id == current.value.id)
              && (patch.name.Some? ==> r.value.name == patch.name.value)
              && (patch.name.None? ==> r.value.name == current.value.name)
              && (patch.role.Some? ==> r.value.role == patch.role.value)
              && (patch.role.None? ==> r.value.role == current.value.role)
              && (patch.profilePicture.Some? ==> r.value.profilePicture == patch.profilePicture)
              && (patch.profilePicture.None? ==> r.value.profilePicture == current.value.profilePicture)
              && (patch.courses.Some? ==> r.value.courses == patch.courses)
              && (patch.courses.None? ==> r.value.courses == current.value.courses)
  {
    match current
    case None => None
    case Some(u) =>
      Some(User(Pick(patch.id, u.id), Pick(patch.name, u.name), Pick(patch.role, u.role),
                PickOptional(patch.profilePicture, u.profilePicture), PickOptional(patch.courses, u.courses)))
  }

  /** Applying the same update twice is the same as applying it once, and an
      update that supplies nothing changes nothing. */
  lemma UpdateUserIdempotent(current: Option<User>, patch: UserPatch)
    ensures UpdateUser(UpdateUser(current, patch), patch) == UpdateUser(current, patch)
    ensures UpdateUser(current, UserPatch(None, None, None, None, None)) == current
  {
  }
}
