/** CourseContext: the fixed course catalogue and the enrolment record that
    says which course ids each student takes. */
module CourseContext {
  import opened Common

  datatype Course = Course(id: string, code: string, name: string, instructor: string,
                           description: Option<string>, schedule: Option<string>)

  /** The seeded catalogue, used as an example initial state. */
  const MockCourses: seq<Course> := [
    Course("CS101", "CS101", "Introduction to Computer Science", "Dr. Mohammad Hashemi",
           Some("This course introduces the fundamental concepts of computer science."),
           Some("Sunday, Tuesday 10:00-11:30")),
    Course("MATH201", "MATH201", "Calculus II", "Dr. Layla Al-Razi",
           Some("Advanced calculus topics including integration techniques and series."),
           Some("Monday, Wednesday 9:00-10:30")),
    Course("ENG105", "ENG105", "Academic English", "Dr. Omar Khatib",
           Some("Developing academic writing and communication skills for university students."),
           Some("Tuesday, Thursday 13:00-14:30"))
  ]

  /** The seeded enrolment record: student id to the ids of their courses. */
  const MockEnrollments: map<string, seq<string>> := map["1234567" := ["CS101", "MATH201", "ENG105"]]

  /** `getCourseById(id)`: `courses.find(course => course.id === id)`. */
  function GetCourseById(courses: seq<Course>, id: string): (r: Option<Course>)
    ensures r.None? <==> forall c :: c in courses ==> c.id != id
    ensures r.Some? ==> exists k :: 0 <= k < |courses| && courses[k] == r.value && r.value.id == id &&
                                    forall j :: 0 <= j < k ==> courses[j].id != id
  {
    Find(courses, (c: Course) => c.id == id)
  }

  /** `studentCourses[studentId] || []`. */
  function EnrolledIds(enrollments: map<string, seq<string>>, studentId: string): seq<string>
  {
    if studentId in enrollments then enrollments[studentId] else []
  }

  /** `course => ids.includes(course.id)`. */
  function EnrolledIn(ids: seq<string>): Course -> bool
  {
    (c: Course) => c.id in ids
  }

  /** `getStudentCourses(studentId)`: the catalogue filtered by the student's
      enrolment list, in catalogue order. */
  function GetStudentCourses(courses: seq<Course>, enrollments: map<string, seq<string>>, studentId: string): (r: seq<Course>)
    ensures forall c :: c in r <==> c in courses && c.id in EnrolledIds(enrollments, studentId)
    ensures forall c {:trigger multiset(r)[c]} :: multiset(r)[c] == if c.id in EnrolledIds(enrollments, studentId) then multiset(courses)[c] else 0
    ensures IsSubsequence(r, courses)
  {
    var ids := EnrolledIds(enrollments, studentId);
    FilterMultiplicity(courses, EnrolledIn(ids));
    Filter(courses, EnrolledIn(ids))
  }

  /** Only which ids a student is enrolled in matters, not their order or
      repetition: two enrolment lists with the same members give the same
      courses in the same (catalogue) order. */
  lemma {:induction false} EnrolmentOrderIrrelevant(courses: seq<Course>, m1: map<string, seq<string>>, s1: string,
                                                    m2: map<string, seq<string>>, s2: string)
    requires forall id :: id in EnrolledIds(m1, s1) <==> id in EnrolledIds(m2, s2)
    ensures GetStudentCourses(courses, m1, s1) == GetStudentCourses(courses, m2, s2)
  {
    FilterCongruent(courses, EnrolledIn(EnrolledIds(m1, s1)), EnrolledIn(EnrolledIds(m2, s2)));
  }

  /** A student without an enrolment entry, or with an empty one, takes no courses. */
  lemma NoEnrollmentNoCourses(courses: seq<Course>, enrollments: map<string, seq<string>>, studentId: string)
    requires studentId !in enrollments || enrollments[studentId] == []
    ensures GetStudentCourses(courses, enrollments, studentId) == []
  {
  }

  /** An instance of `EnrolmentOrderIrrelevant` on the seeded catalogue: with
      the enrolment list reversed the seeded student still gets the catalogue
      order, and the seeded admin, who has no entry, gets nothing. */
  lemma CatalogueOrder()
    ensures GetStudentCourses(MockCourses, map["1234567" := ["ENG105", "MATH201", "CS101"]], "1234567") == MockCourses
    ensures GetStudentCourses(MockCourses, MockEnrollments, "7654321") == []
  {
    var ids := ["ENG105", "MATH201", "CS101"];
    assert forall c :: c in MockCourses ==> c.id in ids;
    FilterAll(MockCourses, EnrolledIn(ids));
  }

  /** A course whose id no other catalogue entry shares is what a lookup of
      that id returns. */
  lemma UniqueIdLookup(courses: seq<Course>, c: Course)
    requires c in courses
    requires forall d :: d in courses && d.id == c.id ==> d == c
    ensures GetCourseById(courses, c.id) == Some(c)
  {
  }

  /** Two lookups in the seeded catalogue: a listed id finds its course, an
      unlisted one finds nothing. */
  lemma SeededLookup()
    ensures GetCourseById(MockCourses, "MATH201") == Some(MockCourses[1])
    ensures GetCourseById(MockCourses, "PHYS100") == None
  {
  }
}
