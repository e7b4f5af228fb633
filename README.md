# Readings and course-instructor links

A Dafny model of two Active Record models of a course-management application
(Rails 4.2 era):

- **Reading** (`reading.rb`): the three presence validations (`order_number`,
  `lesson_id`, `url`), the url format validation that runs on create only, the
  `default_scope` ordering by `order_number`, the `pre` and `post` scopes, and `clone`.
- **CourseInstructor** (`course_instructor.rb`): a join record with two `belongs_to`
  lookups. `course` resolves by `course_id`. `instructor` resolves by `instructor_id`
  to a `User`, through the scope `where instructor: true`.

Persistence is abstracted. A table is the sequence of its rows in storage order. A
query is a function over those rows. `save` is a function from a record to either the
saved record or the list of validation errors.

Files:

- `wrappers.dfy`: `Option` (nil / NULL) and `Result`.
- `text.dfy`: the two whitespace classes involved. Rails' `blank?` uses `[[:space:]]`,
  which is Unicode White_Space. A Ruby regular expression's `\s` is ASCII only. So
  `http://` followed by a no-break space (U+00A0) passes the format rule, while a url
  made only of no-break spaces is blank.
- `sql.dfy`: three-valued `=` and `!=` on a nullable column, a WHERE filter that keeps
  only TRUE rows, and ascending order with NULL first (SQLite).
- `reading.dfy`: module `Readings`.
- `course_instructor.dfy`: module `CourseInstructors`.

Validation is a pure function of the record and a phase (`Create` for a new record,
`Update` for a persisted one). `Valid` states the declared rules as one conjunction.
`Errors` runs the validator list in declaration order and collects every failing rule.
The url rule `\A(http|https)://\S+` is modelled two ways:

- `UrlMatches` is the direct check: the prefix, then one non-`\s` character.
- `UrlPattern` states that some prefix of the url matches `(http|https)://\S+` whole.

They are proved equal. Neither is anchored at the end, and both are case-sensitive.

Points where the code's behaviour is easy to misread:

- reading.rb:10 uses `!=`. Under SQL's three-valued logic, a row whose `before_lesson`
  is NULL is not TRUE for `!= true`, so it is in neither `pre` nor `post`.
- course_instructor.rb declares no `primary` attribute, so none is modelled.
- `belongs_to` in Rails 4.2 adds no presence validation. A link with a nil or dangling
  id is accepted, and its lookup resolves to nil.

## Model

| member | source | states |
|---|---|---|
| `Text.RegexSpaceIsSpace` | reading.rb:4-5 | every `\s` character is blank for `presence`, but NBSP is blank while not `\s` |
| `Sql.Equal` | reading.rb:9 | `column = v` is TRUE exactly when the column holds `v`, UNKNOWN exactly when it is NULL |
| `Sql.NotEqual` | reading.rb:10 | `column != v` is TRUE exactly when the column is non-NULL and differs from `v`, UNKNOWN when NULL |
| `Sql.Where` | reading.rb:9-10 | a WHERE keeps exactly the rows whose condition is TRUE, with their multiplicities, and no others |
| `Sql.NullsFirstLeTotalPreorder` | reading.rb:7 | the `ORDER BY order_number` comparison (NULL first) is reflexive, total and transitive |
| `Readings.Message` | reading.rb:2-5 | a presence failure reads "can't be blank" and a format failure reads "is invalid", and no other way round |
| `Readings.FullMessages` | reading.rb:2-5 | full messages are one per error, in order, each the attribute's human name (`lesson_id` reads "Lesson"), a space and the message |
| `Readings.PhaseOf` | reading.rb:5 | the `on: :create` context applies exactly to a new record; a persisted record is validated as an update |
| `Readings.CastInteger` | tests.rb:124-127 | an integer attribute given blank text (like `" "`) or nil reads back nil; an integer stays itself; other text goes through `to_i` |
| `Readings.New` | tests.rb:125 | `Reading.new` builds a new record with no id, validated as a create, with the cast attribute values |
| `Readings.UrlMatches` | reading.rb:5 | a url passing the direct check is longer than seven characters and begins with `http` |
| `Readings.WholeMatch` | reading.rb:5 | a string that the url pattern matches from its first to its last character is longer than seven characters |
| `Readings.UrlPattern` | reading.rb:5 | a url the start-anchored pattern matches is longer than seven characters |
| `Readings.UrlMatchesIffPattern` | reading.rb:5 | the direct url check holds exactly when the url regular expression matches, in both directions |
| `Readings.UrlMatchesExamples` | reading.rb:5 | `http://x y`, `https://example.org` and `http://` + NBSP pass; `HTTP://x`, `http://`, `http:// x` and `www.sugarbeanfarm.com` fail |
| `Readings.UrlMatchesNotBlank` | reading.rb:4-5 | a url that passes the format rule also passes the presence rule |
| `Readings.Valid` | reading.rb:2-5 | a valid reading has an `order_number`, a `lesson_id` and a non-blank url in every phase, and on create that url begins with `http` and is longer than seven characters |
| `Readings.Failing` | reading.rb:2-5 | running a validator list yields exactly the validators that run in this phase and fail, each at most once |
| `Readings.Errors` | reading.rb:2-5 | the error list holds one entry per failing rule, no duplicates, and is empty exactly when `Valid` holds |
| `Readings.BlankIsInvalid` | reading.rb:2-4 | a nil `order_number` or `lesson_id`, or a nil or blank `url`, is invalid in every phase and reported under that attribute |
| `Readings.CreateRejectsBadUrl` | reading.rb:5 | on create, a url that does not match the pattern is invalid and yields the url format error |
| `Readings.UpdateSkipsFormat` | reading.rb:4-5 | on update only the three presence rules apply; create adds exactly the format rule |
| `Readings.ErrorsWhenPresent` | reading.rb:2-5 | with the presence rules met, update reports no error and create reports only the format error, exactly when the url does not match |
| `Readings.AllBlankReadingFails` | tests.rb:124-127 | `Reading.new(order_number: " ", lesson_id: " ", url: " ")` fails all four rules on save |
| `Readings.ValidatorMessages` | reading.rb:2-5 | the four validators' full messages are "Order number can't be blank", "Lesson can't be blank", "Url can't be blank" and "Url is invalid" |
| `Readings.AllBlankReadingMessages` | tests.rb:124-127 | the all-blank reading reports exactly those four full messages, in declaration order |
| `Readings.Save` | reading.rb:2-5 | save fails exactly when the rules of the record's phase fail, reporting all errors; on success the record is persisted with an id and unchanged attributes |
| `Readings.UpdateAcceptsAnyNonBlankUrl` | reading.rb:4-5 | a saved reading whose url is then changed to any non-blank text saves again |
| `Readings.Clone` | reading.rb:12-14 | `clone` is a new, unsaved record with no id and the original's attribute values |
| `Readings.CloneRevalidatesUrl` | reading.rb:12-14 | a persisted reading with a non-matching url saves, while its clone fails with exactly the url format error |
| `Readings.Insert` | reading.rb:7 | inserting a row into a list adds exactly that row and removes none |
| `Readings.DefaultScope` | reading.rb:7 | default retrieval returns exactly the stored rows, with their multiplicities |
| `Readings.InsertOrdered` | reading.rb:7 | inserting into an ordered list keeps it ordered and adds exactly that row |
| `Readings.DefaultScopeOrdered` | reading.rb:7 | default retrieval is a permutation of the stored rows, non-decreasing in `order_number`, NULL first |
| `Readings.WhereOrdered` | reading.rb:9-10 | a scope's filter on the ordered default relation keeps it ordered |
| `Readings.PreCondition` | reading.rb:9 | `before_lesson = true` is TRUE exactly for a stored true |
| `Readings.PostCondition` | reading.rb:10 | `before_lesson != true` is TRUE exactly for a stored false, never for NULL |
| `Readings.Pre` | reading.rb:9 | every reading `pre` returns is stored and has `before_lesson` true |
| `Readings.Post` | reading.rb:10 | every reading `post` returns is stored and has `before_lesson` false |
| `Readings.PreExactly` | reading.rb:9 | `pre` is ordered and holds exactly the stored readings with `before_lesson` true, with their multiplicities |
| `Readings.PostExactly` | reading.rb:10 | `post` is ordered and holds exactly the stored readings with `before_lesson` false, with their multiplicities |
| `Readings.PrePostDisjoint` | reading.rb:9-10 | no reading is in both `pre` and `post` |
| `Readings.PrePostCover` | reading.rb:9-10 | `pre`, `post` and the NULL-`before_lesson` rows together are exactly the stored rows, so NULL rows are in neither scope |
| `CourseInstructors.FindCourse` | course_instructor.rb:2 | the course query returns a stored course with the requested id, and nil exactly when no stored course has that id |
| `CourseInstructors.FindInstructor` | course_instructor.rb:3 | the scoped user query returns a stored user with that id and a true instructor flag, and nil exactly when every user with that id has a false or NULL flag |
| `CourseInstructors.CourseOf` | course_instructor.rb:2 | `course` is nil without a `course_id`, and otherwise a stored course whose id is the `course_id` |
| `CourseInstructors.InstructorOf` | course_instructor.rb:3 | `instructor` is nil without an `instructor_id`, and otherwise a stored user whose id is the `instructor_id` and whose instructor flag is true |
| `CourseInstructors.InstructorOfIff` | course_instructor.rb:3 | `instructor` is user `u` exactly when `instructor_id` is `u`'s id, `u` is stored, and `u.instructor` is true |
| `CourseInstructors.InstructorOfNil` | course_instructor.rb:3 | `instructor` is nil exactly when `instructor_id` is nil, dangling, or names a user whose flag is false or NULL |
| `CourseInstructors.CourseOfIff` | course_instructor.rb:2 | `course` is course `c` exactly when `course_id` is `c`'s id and `c` is stored; nil exactly when unset or dangling |
| `CourseInstructors.LookupsIndependent` | course_instructor.rb:2-3 | `instructor` does not depend on `course_id` or the courses table, and `course` does not depend on `instructor_id` or the users table |
| `CourseInstructors.Destroy` | course_instructor.rb:2-3 | destroying a link removes exactly the rows with that id from the join table and leaves the courses and users tables unchanged |
| `CourseInstructors.DestroyKeepsReferencedRows` | course_instructor.rb:2-3 | after destroying a link, the other links resolve as before, and the course and instructor the removed link resolved to are still stored |

## Left out

- Storage, SQL generation, `reload`, `count`, association writes (`<<`), transactions and storage errors are not modelled. Tables are sequences of rows and queries are functions over them.
- Active Record caches a loaded association on the object. The model always resolves against the current tables.
- Readings.Save: the id that the database assigns on insert is a parameter (`freshId`). The write itself is not modelled.
- Readings.CastInteger: the readings schema is not part of this model. `order_number` and `lesson_id` are assumed to be integer columns. On a text column `" "` would be kept as text, not turned into nil.
- Readings.Save: the 4-byte range check that Rails' integer type makes when writing is not modelled. Saving an `order_number` or `lesson_id` outside -2^31 to 2^31 - 1 raises `RangeError` in Rails, while the model returns `Success` for any integer.
- Readings.DefaultScope: the order is numeric because `order_number` is assumed to be an integer column. On a text column SQLite would sort the values as text.
- Readings.CastInteger: the result of `String#to_i` on non-blank text is a parameter (`toI`). Ruby's number parsing is not modelled.
- Casting of values given to the `url` (string) and `before_lesson` (boolean) columns is not modelled. They are taken as already typed.
- Readings.DefaultScopeOrdered: SQL does not fix the order of rows with equal `order_number`. The model keeps storage order for ties, and only sortedness and permutation are claimed.
- Readings.Message: only the default English messages are modelled. Locale files and custom messages are not.
- Readings.Clone: `dup` also clears timestamp columns when a model has them. The readings schema is not part of this model, so timestamps are not modelled.
- "The original is unchanged" by `clone`, and "the lookups change no table", hold by construction: both are functions over values.
- The associations declared on Course, Lesson and User, and their cascade and restrict policies, are not modelled. Those model files are not part of this model.
- User attributes other than `id` and `instructor`, and course attributes other than `id`, are not modelled. No rule here reads them.
