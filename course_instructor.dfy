/**
 * The CourseInstructor join record: a link between a course and a user, with two
 * `belongs_to` associations. `course` is the course row whose id is `course_id`;
 * `instructor` is the user row whose id is `instructor_id`, looked up through the scope
 * `where instructor: true`. Tables are sequences of rows; a lookup returns the first row
 * the query selects, as `LIMIT 1` does.
 */
module CourseInstructors {
  import opened Wrappers
  import Sql

  datatype Course = Course(id: int)

  /** A user; the `instructor` column is the only role flag the lookup consults. */
  datatype User = User(id: int, instructor: Option<bool>)

  datatype CourseInstructor = CourseInstructor(id: int, courseId: Option<int>, instructorId: Option<int>)

  /** The three tables the join record touches. */
  datatype Db = Db(courses: seq<Course>, users: seq<User>, courseInstructors: seq<CourseInstructor>)

  /** A primary key: no two rows share an id. */
  predicate UniqueCourseIds(courses: seq<Course>) {
    forall i, j :: 0 <= i < j < |courses| ==> courses[i].id != courses[j].id
  }

  predicate UniqueUserIds(users: seq<User>) {
    forall i, j :: 0 <= i < j < |users| ==> users[i].id != users[j].id
  }

  /** `SELECT * FROM courses WHERE id = ? LIMIT 1`. */
  function FindCourse(courses: seq<Course>, id: int): (r: Option<Course>)
    ensures r.Some? ==> r.value in courses && r.value.id == id
    ensures r.None? <==> forall c :: c in courses ==> c.id != id
  {
    if courses == [] then None
    else if courses[0].id == id then Some(courses[0])
    else
      assert forall c :: c in courses <==> c == courses[0] || c in courses[1..];
      FindCourse(courses[1..], id)
  }

  /** The scope `where instructor: true`: a NULL flag is not TRUE, so such users are excluded too. */
  predicate InInstructorScope(u: User) {
    Sql.Equal(u.instructor, true) == Some(true)
  }

  /** `SELECT * FROM users WHERE instructor = 't' AND id = ? LIMIT 1`. */
  function FindInstructor(users: seq<User>, id: int): (r: Option<User>)
    ensures r.Some? ==> r.value in users && r.value.id == id && r.value.instructor == Some(true)
    ensures r.None? <==> forall u :: u in users && u.id == id ==> u.instructor != Some(true)
  {
    if users == [] then None
    else if users[0].id == id && InInstructorScope(users[0]) then Some(users[0])
    else
      assert forall u :: u in users <==> u == users[0] || u in users[1..];
      FindInstructor(users[1..], id)
  }

  /** `belongs_to :course`: nil without a `course_id`, otherwise the course with that id, if any. */
  function CourseOf(link: CourseInstructor, courses: seq<Course>): (r: Option<Course>)
    ensures r.Some? ==> r.value in courses && link.courseId == Some(r.value.id)
    ensures link.courseId == None ==> r == None
  {
    if link.courseId.None? then None else FindCourse(courses, link.courseId.value)
  }

  /** `belongs_to :instructor, -> { where instructor: true }, class_name: 'User'`. */
  function InstructorOf(link: CourseInstructor, users: seq<User>): (r: Option<User>)
    ensures r.Some? ==> r.value in users && link.instructorId == Some(r.value.id) && r.value.instructor == Some(true)
    ensures link.instructorId == None ==> r == None
  {
    if link.instructorId.None? then None else FindInstructor(users, link.instructorId.value)
  }

  /**
   * `instructor` is the user `u` exactly when `instructor_id` is `u`'s id, `u` is stored,
   * and `u`'s instructor flag is true.
   */
  lemma InstructorOfIff(link: CourseInstructor, users: seq<User>, u: User)
    requires UniqueUserIds(users)
    ensures InstructorOf(link, users) == Some(u) <==>
              link.instructorId == Some(u.id) && u in users && u.instructor == Some(true)
  {
  }

  /**
   * `instructor` is nil when `instructor_id` is nil, when no user has that id, or when the
   * user with that id is not flagged as an instructor (false or NULL).
   */
  lemma InstructorOfNil(link: CourseInstructor, users: seq<User>)
    requires UniqueUserIds(users)
    ensures InstructorOf(link, users) == None <==>
              || link.instructorId == None
              || (forall u :: u in users ==> u.id != link.instructorId.value)
              || (exists u :: u in users && u.id == link.instructorId.value && u.instructor != Some(true))
  {
  }

  /** `course` is the course `c` exactly when `course_id` is `c`'s id and `c` is stored. */
  lemma CourseOfIff(link: CourseInstructor, courses: seq<Course>, c: Course)
    requires UniqueCourseIds(courses)
    ensures CourseOf(link, courses) == Some(c) <==> link.courseId == Some(c.id) && c in courses
    ensures CourseOf(link, courses) == None <==>
              link.courseId == None || forall d :: d in courses ==> d.id != link.courseId.value
  {
  }

  /**
   * The two associations are independent: `instructor` reads only `instructor_id` and the
   * users table, `course` only `course_id` and the courses table.
   */
  lemma LookupsIndependent(link: CourseInstructor, db: Db, courseId: Option<int>, courses: seq<Course>,
                           instructorId: Option<int>, users: seq<User>)
    ensures InstructorOf(link.(courseId := courseId), db.(courses := courses).users)
            == InstructorOf(link, db.users)
    ensures CourseOf(link.(instructorId := instructorId), db.(users := users).courses)
            == CourseOf(link, db.courses)
  {
  }

  function KeepsOtherLinks(id: int): CourseInstructor -> Option<bool> {
    (l: CourseInstructor) => Some(l.id != id)
  }

  /**
   * `destroy` on a link: `DELETE FROM course_instructors WHERE id = ?`. No `dependent:`
   * option is declared, so the course and user tables are left as they were.
   */
  function Destroy(db: Db, id: int): (db': Db)
    ensures db'.courses == db.courses && db'.users == db.users
    ensures forall l :: l in db'.courseInstructors <==> l in db.courseInstructors && l.id != id
    ensures forall l :: multiset(db'.courseInstructors)[l] ==
                         if l.id == id then 0 else multiset(db.courseInstructors)[l]
  {
    db.(courseInstructors := Sql.Where(db.courseInstructors, KeepsOtherLinks(id)))
  }

  /**
   * After a link is destroyed, every remaining link resolves its course and its instructor
   * to the same rows as before, and every user who was an instructor through the removed
   * link is still stored.
   */
  lemma DestroyKeepsReferencedRows(db: Db, id: int)
    ensures forall l :: l in Destroy(db, id).courseInstructors ==>
              && CourseOf(l, Destroy(db, id).courses) == CourseOf(l, db.courses)
              && InstructorOf(l, Destroy(db, id).users) == InstructorOf(l, db.users)
    ensures forall l :: l in db.courseInstructors && l.id == id && InstructorOf(l, db.users).Some? ==>
              InstructorOf(l, db.users).value in Destroy(db, id).users
    ensures forall l :: l in db.courseInstructors && l.id == id && CourseOf(l, db.courses).Some? ==>
              CourseOf(l, db.courses).value in Destroy(db, id).courses
  {
  }
}
