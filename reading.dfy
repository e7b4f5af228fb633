/**
 * The Reading record of the course-management application: its presence and
 * on-create url format validations, the default ordering by `order_number`, the
 * `pre`/`post` scopes and `clone`. Persistence is abstracted: a table is the sequence
 * of its rows in storage order, and saving is a function from a record to either the
 * saved record or the list of validation errors.
 */
module Readings {
  import opened Wrappers
  import opened Text
  import Sql

  /** One reading, with the in-memory flag that tells a new record from a persisted one. */
  datatype Reading = Reading(
    id: Option<int>,
    newRecord: bool,
    orderNumber: Option<int>,
    lessonId: Option<int>,
    url: Option<string>,
    caption: Option<string>,
    beforeLesson: Option<bool>)

  /** A value handed to an integer attribute, before it is cast to the column type. */
  datatype Input = NilInput | IntInput(i: int) | TextInput(s: string) | BoolInput(b: bool)

  /** The validation context: a new record is validated `on: :create`, a persisted one `on: :update`. */
  datatype Phase = Create | Update

  datatype Attribute = OrderNumber | LessonId | Url
  datatype Check = Presence | Format

  /** One failed validation: the attribute and the kind of validator that rejected it. */
  datatype Error = Error(attribute: Attribute, check: Check)

  /** The default English message a failed validator adds. */
  function Message(e: Error): (m: string)
    ensures m == "can't be blank" <==> e.check == Presence
    ensures m == "is invalid" <==> e.check == Format
  {
    match e.check
    case Presence => "can't be blank"
    case Format => "is invalid"
  }

  /** `human_attribute_name`: underscores become spaces, a trailing `_id` is dropped, first letter capitalised. */
  function AttributeName(a: Attribute): string {
    match a
    case OrderNumber => "Order number"
    case LessonId => "Lesson"
    case Url => "Url"
  }

  /** One entry of `errors.full_messages`: the attribute's human name, a space, then the message. */
  function FullMessage(e: Error): string {
    AttributeName(e.attribute) + " " + Message(e)
  }

  /** `errors.full_messages`: one full message per error, in order. */
  function FullMessages(errs: seq<Error>): (ms: seq<string>)
    ensures |ms| == |errs|
    ensures forall i :: 0 <= i < |errs| ==> ms[i] == FullMessage(errs[i])
  {
    if errs == [] then [] else [FullMessage(errs[0])] + FullMessages(errs[1..])
  }

  /**
   * Casting a value to an integer column: nil stays nil, booleans become 1 and 0, blank
   * text becomes nil, other text goes through `String#to_i` (passed in as `toI`).
   */
  function CastInteger(v: Input, toI: string -> int): (r: Option<int>)
    ensures r == None <==> v.NilInput? || (v.TextInput? && IsBlank(v.s))
    ensures v.IntInput? ==> r == Some(v.i)
    ensures v.TextInput? && !IsBlank(v.s) ==> r == Some(toI(v.s))
  {
    match v
    case NilInput => None
    case IntInput(i) => Some(i)
    case BoolInput(b) => Some(if b then 1 else 0)
    case TextInput(s) => if IsBlank(s) then None else Some(toI(s))
  }

  /** `Reading.new(...)`: a new record without an id, its integer attributes cast. */
  function New(orderNumber: Input, lessonId: Input, url: Option<string>, caption: Option<string>,
               beforeLesson: Option<bool>, toI: string -> int): (r: Reading)
    ensures r.newRecord && r.id == None && PhaseOf(r) == Create
    ensures r.orderNumber == CastInteger(orderNumber, toI) && r.lessonId == CastInteger(lessonId, toI)
    ensures r.url == url && r.caption == caption && r.beforeLesson == beforeLesson
  {
    Reading(None, true, CastInteger(orderNumber, toI), CastInteger(lessonId, toI), url, caption, beforeLesson)
  }

  /** The validation context Active Record picks: `:create` for a new record, `:update` otherwise. */
  function PhaseOf(r: Reading): (p: Phase)
    ensures p == Create <==> r.newRecord
  {
    if r.newRecord then Create else Update
  }

  // ---------------------------------------------------------------------------
  // The url pattern \A(http|https):\/\/\S+

  const Schemes: seq<string> := ["http", "https"]

  /** `(http|https)://\S+` matching the whole of `p`, with the given alternative for the scheme. */
  ghost predicate WholeMatchWith(p: string, scheme: string) {
    var n := |scheme| + 3;
    && |p| > n
    && p[..n] == scheme + "://"
    && forall i :: n <= i < |p| ==> !IsRegexSpace(p[i])
  }

  ghost predicate WholeMatch(p: string): (b: bool)
    ensures b ==> |p| > 7
  {
    exists j :: 0 <= j < |Schemes| && WholeMatchWith(p, Schemes[j])
  }

  /** `\A(http|https)://\S+`: anchored at the start only, so it suffices that some prefix matches whole. */
  ghost predicate UrlPattern(s: string): (b: bool)
    ensures b ==> |s| > 7
  {
    exists k :: 0 <= k <= |s| && WholeMatch(s[..k])
  }

  /**
   * The direct check: `http://` or `https://` followed by one character that is not a
   * regular-expression space. Case-sensitive; anything may follow that character.
   */
  predicate UrlMatches(s: string): (b: bool)
    ensures b ==> |s| > 7 && s[..4] == "http"
  {
    || (|s| > 7 && s[..7] == "http://" && !IsRegexSpace(s[7]))
    || (|s| > 8 && s[..8] == "https://" && !IsRegexSpace(s[8]))
  }

  /** The direct check accepts exactly the strings the regular expression matches. */
  lemma UrlMatchesIffPattern(s: string)
    ensures UrlMatches(s) <==> UrlPattern(s)
  {
    if UrlMatches(s) {
      if |s| > 7 && s[..7] == "http://" && !IsRegexSpace(s[7]) {
        assert Schemes[0] + "://" == "http://";
        assert s[..8][..7] == s[..7];
        assert WholeMatchWith(s[..8], Schemes[0]);
        assert WholeMatch(s[..8]);
      } else {
        assert Schemes[1] + "://" == "https://";
        assert s[..9][..8] == s[..8];
        assert WholeMatchWith(s[..9], Schemes[1]);
        assert WholeMatch(s[..9]);
      }
    }
    if UrlPattern(s) {
      var k :| 0 <= k <= |s| && WholeMatch(s[..k]);
      var j :| 0 <= j < |Schemes| && WholeMatchWith(s[..k], Schemes[j]);
      var n := |Schemes[j]| + 3;
      assert n < k <= |s|;
      assert s[..k][..n] == s[..n];
      assert s[..k][n] == s[n];
    }
  }

  /** Behaviour at the edges of the pattern: no end anchor, no case folding, ASCII-only `\S`. */
  lemma UrlMatchesExamples()
    ensures UrlMatches("http://x y")
    ensures UrlMatches("https://example.org")
    ensures UrlMatches("http://\U{A0}")
    ensures !UrlMatches("HTTP://x")
    ensures !UrlMatches("http://")
    ensures !UrlMatches("http:// x")
    ensures !UrlMatches("www.sugarbeanfarm.com")
  {
    assert "HTTP://x"[0] != "http://"[0];
    assert "www.sugarbeanfarm.com"[0] != "http://"[0];
  }

  /** A url that passes the format check is never blank. */
  lemma UrlMatchesNotBlank(s: string)
    requires UrlMatches(s)
    ensures !IsBlank(s)
  {
    assert s[0] == s[..7][0];
  }

  // ---------------------------------------------------------------------------
  // Validations

  /** `presence: true` on an integer column: present when not nil (numbers are never blank). */
  predicate OrderNumberPresent(r: Reading) { r.orderNumber.Some? }

  predicate LessonIdPresent(r: Reading) { r.lessonId.Some? }

  /** `presence: true` on a string column: not nil and not blank. */
  predicate UrlPresent(r: Reading) { r.url.Some? && !IsBlank(r.url.value) }

  /** The format validator tests `value.to_s`, and `nil.to_s` is the empty string. */
  predicate UrlFormatOk(r: Reading) {
    UrlMatches(if r.url.Some? then r.url.value else "")
  }

  /** The declared rules, all at once: three presence rules always, the url format on create only. */
  predicate Valid(r: Reading, phase: Phase): (v: bool)
    ensures v ==> r.orderNumber.Some? && r.lessonId.Some? && r.url.Some? && !IsBlank(r.url.value)
    ensures v && phase == Create ==> |r.url.value| > 7 && r.url.value[..4] == "http"
  {
    && OrderNumberPresent(r)
    && LessonIdPresent(r)
    && UrlPresent(r)
    && (phase == Create ==> UrlFormatOk(r))
  }

  /** The validators in declaration order, each named by the error it adds. */
  const Validators: seq<Error> := [Error(OrderNumber, Presence), Error(LessonId, Presence),
                                   Error(Url, Presence), Error(Url, Format)]

  /** Only the url format validator carries `on: :create`. */
  predicate Runs(v: Error, phase: Phase) {
    v.check == Format ==> phase == Create
  }

  predicate Passes(r: Reading, v: Error) {
    match v
    case Error(OrderNumber, Presence) => OrderNumberPresent(r)
    case Error(LessonId, Presence) => LessonIdPresent(r)
    case Error(Url, Presence) => UrlPresent(r)
    case Error(Url, Format) => UrlFormatOk(r)
    case _ => true
  }

  /** Runs every validator in `vs` and collects one error per failing validator, in order. */
  function Failing(vs: seq<Error>, r: Reading, phase: Phase): (errs: seq<Error>)
    ensures forall e :: e in errs <==> e in vs && Runs(e, phase) && !Passes(r, e)
    ensures |errs| <= |vs|
    ensures (forall i, j :: 0 <= i < j < |vs| ==> vs[i] != vs[j]) ==>
              forall i, j :: 0 <= i < j < |errs| ==> errs[i] != errs[j]
  {
    if vs == [] then []
    else
      var rest := Failing(vs[1..], r, phase);
      assert forall e :: e in vs <==> e == vs[0] || e in vs[1..];
      if Runs(vs[0], phase) && !Passes(r, vs[0]) then [vs[0]] + rest else rest
  }

  /** `record.errors` after `valid?`: every failing rule, not just the first. */
  function Errors(r: Reading, phase: Phase): (errs: seq<Error>)
    ensures forall e :: e in errs <==> e in Validators && Runs(e, phase) && !Passes(r, e)
    ensures forall i, j :: 0 <= i < j < |errs| ==> errs[i] != errs[j]
    ensures errs == [] <==> Valid(r, phase)
  {
    var errs := Failing(Validators, r, phase);
    FailingIffValid(r, phase);
    errs
  }

  lemma FailingIffValid(r: Reading, phase: Phase)
    ensures Failing(Validators, r, phase) == [] <==> Valid(r, phase)
  {
    var errs := Failing(Validators, r, phase);
    var v0, v1, v2, v3 := Error(OrderNumber, Presence), Error(LessonId, Presence), Error(Url, Presence), Error(Url, Format);
    assert Validators == [v0, v1, v2, v3];
    assert v0 in Validators && v1 in Validators && v2 in Validators && v3 in Validators;
    assert Passes(r, v0) == OrderNumberPresent(r);
    assert Passes(r, v1) == LessonIdPresent(r);
    assert Passes(r, v2) == UrlPresent(r);
    assert Passes(r, v3) == UrlFormatOk(r);
    if errs != [] {
      assert errs[0] in Validators && Runs(errs[0], phase) && !Passes(r, errs[0]);
    }
  }

  /** A blank `order_number`, `lesson_id` or `url` makes a reading invalid in every phase. */
  lemma BlankIsInvalid(r: Reading, phase: Phase)
    requires r.orderNumber == None || r.lessonId == None || r.url == None || IsBlank(r.url.value)
    ensures !Valid(r, phase)
    ensures r.orderNumber == None ==> Error(OrderNumber, Presence) in Errors(r, phase)
    ensures r.lessonId == None ==> Error(LessonId, Presence) in Errors(r, phase)
    ensures r.url == None || IsBlank(r.url.value) ==> Error(Url, Presence) in Errors(r, phase)
  {
  }

  /** On create, a url that does not match the pattern is rejected, whatever else holds. */
  lemma CreateRejectsBadUrl(r: Reading)
    requires !UrlFormatOk(r)
    ensures !Valid(r, Create)
    ensures Error(Url, Format) in Errors(r, Create)
  {
  }

  /** On update the format rule is skipped; on create it is the only rule added. */
  lemma UpdateSkipsFormat(r: Reading)
    ensures Valid(r, Update) <==> OrderNumberPresent(r) && LessonIdPresent(r) && UrlPresent(r)
    ensures Valid(r, Create) <==> Valid(r, Update) && UrlFormatOk(r)
    ensures Error(Url, Format) !in Errors(r, Update)
  {
  }

  /**
   * When the three presence rules hold, the error list is empty on update, and on create it
   * is the single format error exactly when the url does not match.
   */
  lemma {:induction false} ErrorsWhenPresent(r: Reading)
    requires OrderNumberPresent(r) && LessonIdPresent(r) && UrlPresent(r)
    ensures Errors(r, Update) == []
    ensures Errors(r, Create) == if UrlFormatOk(r) then [] else [Error(Url, Format)]
  {
    var vs := Validators;
    assert vs[1..] == [Error(LessonId, Presence), Error(Url, Presence), Error(Url, Format)];
    assert vs[1..][1..] == [Error(Url, Presence), Error(Url, Format)];
    assert vs[1..][1..][1..] == [Error(Url, Format)];
    assert vs[1..][1..][1..][1..] == [];
    assert Passes(r, Error(Url, Format)) == UrlFormatOk(r);
    assert Failing(vs[1..][1..][1..], r, Create) == if UrlFormatOk(r) then [] else [Error(Url, Format)];
    assert Failing(vs[1..][1..], r, Create) == Failing(vs[1..][1..][1..], r, Create);
    assert Failing(vs[1..], r, Create) == Failing(vs[1..][1..], r, Create);
  }

  /** `Reading.new(order_number: " ", lesson_id: " ", url: " ")` fails all four rules on save. */
  lemma AllBlankReadingFails(toI: string -> int)
    ensures Errors(New(TextInput(" "), TextInput(" "), Some(" "), None, None, toI), Create)
            == Validators
  {
  }

  /** The full messages of that record, as `errors.full_messages` lists them. */
  lemma AllBlankReadingMessages(toI: string -> int)
    ensures FullMessages(Errors(New(TextInput(" "), TextInput(" "), Some(" "), None, None, toI), Create))
            == ["Order number can't be blank", "Lesson can't be blank", "Url can't be blank", "Url is invalid"]
  {
    AllBlankReadingFails(toI);
    ValidatorMessages();
  }

  /** The full message of each validator, in declaration order. */
  lemma ValidatorMessages()
    ensures FullMessages(Validators)
            == ["Order number can't be blank", "Lesson can't be blank", "Url can't be blank", "Url is invalid"]
  {
    var ms := FullMessages(Validators);
    assert ms == [FullMessage(Validators[0]), FullMessage(Validators[1]),
                  FullMessage(Validators[2]), FullMessage(Validators[3])];
    PresenceMessages();
    FormatMessage();
  }

  lemma PresenceMessages()
    ensures FullMessage(Error(OrderNumber, Presence)) == "Order number can't be blank"
    ensures FullMessage(Error(LessonId, Presence)) == "Lesson can't be blank"
    ensures FullMessage(Error(Url, Presence)) == "Url can't be blank"
  {
  }

  lemma FormatMessage()
    ensures FullMessage(Error(Url, Format)) == "Url is invalid"
  {
  }

  // ---------------------------------------------------------------------------
  // Saving and cloning

  /** Two records hold the same attribute values, ids and persistence state aside. */
  predicate SameAttributes(a: Reading, b: Reading) {
    && a.orderNumber == b.orderNumber
    && a.lessonId == b.lessonId
    && a.url == b.url
    && a.caption == b.caption
    && a.beforeLesson == b.beforeLesson
  }

  /**
   * `save`: the validations of the record's phase, then the write. On insert the store
   * assigns `freshId` unless the record already carries an id; on failure nothing is written.
   */
  function Save(r: Reading, freshId: int): (res: Result<Reading, seq<Error>>)
    ensures res.Failure? <==> !Valid(r, PhaseOf(r))
    ensures res.Failure? ==> res.error != [] && res.error == Errors(r, PhaseOf(r))
    ensures res.Success? ==> !res.value.newRecord && res.value.id.Some? && SameAttributes(res.value, r)
    ensures res.Success? && r.id.Some? ==> res.value.id == r.id
  {
    var errs := Errors(r, PhaseOf(r));
    if errs != [] then Failure(errs)
    else Success(r.(id := if r.id.Some? then r.id else Some(freshId), newRecord := false))
  }

  /** Once saved, a reading stays saveable after its url is changed to any non-blank text. */
  lemma UpdateAcceptsAnyNonBlankUrl(r: Reading, freshId: int, url: string, freshId': int)
    requires Save(r, freshId).Success?
    requires !IsBlank(url)
    ensures Save(Save(r, freshId).value.(url := Some(url)), freshId').Success?
  {
  }

  /** `clone` (`dup`): a new, unsaved record with the original's attributes and no id. */
  function Clone(r: Reading): (c: Reading)
    ensures c.newRecord && c.id == None && PhaseOf(c) == Create
    ensures SameAttributes(c, r)
  {
    r.(id := None, newRecord := true)
  }

  /**
   * Saving a clone validates it as a new record, so a persisted reading whose url was
   * later changed to a non-matching value saves, but its clone does not.
   */
  lemma CloneRevalidatesUrl(r: Reading, freshId: int)
    requires !r.newRecord && Valid(r, Update) && !UrlFormatOk(r)
    ensures Save(r, freshId).Success?
    ensures Save(Clone(r), freshId) == Failure([Error(Url, Format)])
  {
    ErrorsWhenPresent(Clone(r));
  }

  // ---------------------------------------------------------------------------
  // Default ordering and the pre/post scopes

  /** Non-decreasing in `order_number`, NULL first. */
  predicate Ordered(rows: seq<Reading>) {
    forall i, j :: 0 <= i < j < |rows| ==> Sql.NullsFirstLe(rows[i].orderNumber, rows[j].orderNumber)
  }

  function Insert(x: Reading, rows: seq<Reading>): (r: seq<Reading>)
    ensures multiset(r) == multiset(rows) + multiset{x}
  {
    if rows == [] || Sql.NullsFirstLe(x.orderNumber, rows[0].orderNumber) then [x] + rows
    else
      assert rows == [rows[0]] + rows[1..];
      [rows[0]] + Insert(x, rows[1..])
  }

  /** `default_scope { order('order_number') }`: the table's rows, sorted. Ties keep storage order. */
  function DefaultScope(table: seq<Reading>): (r: seq<Reading>)
    ensures multiset(r) == multiset(table)
  {
    if table == [] then []
    else
      assert table == [table[0]] + table[1..];
      Insert(table[0], DefaultScope(table[1..]))
  }

  lemma {:induction false} InsertOrdered(x: Reading, rows: seq<Reading>)
    requires Ordered(rows)
    ensures Ordered(Insert(x, rows))
    ensures multiset(Insert(x, rows)) == multiset(rows) + multiset{x}
  {
    if rows == [] || Sql.NullsFirstLe(x.orderNumber, rows[0].orderNumber) {
    } else {
      var tail := rows[1..];
      InsertOrdered(x, tail);
      assert rows == [rows[0]] + tail;
      var ins := Insert(x, tail);
      forall y | y in ins
        ensures Sql.NullsFirstLe(rows[0].orderNumber, y.orderNumber)
      {
        assert y in multiset(ins);
        if y != x {
          assert y in tail;
        }
      }
    }
  }

  /** Default retrieval is a permutation of the stored rows, non-decreasing in `order_number`. */
  lemma {:induction false} DefaultScopeOrdered(table: seq<Reading>)
    ensures Ordered(DefaultScope(table))
    ensures multiset(DefaultScope(table)) == multiset(table)
  {
    if table != [] {
      DefaultScopeOrdered(table[1..]);
      InsertOrdered(table[0], DefaultScope(table[1..]));
      assert table == [table[0]] + table[1..];
    }
  }

  /** A WHERE clause applied to ordered rows keeps them ordered. */
  lemma {:induction false} WhereOrdered(rows: seq<Reading>, cond: Reading -> Option<bool>)
    requires Ordered(rows)
    ensures Ordered(Sql.Where(rows, cond))
  {
    if rows != [] {
      var tail := rows[1..];
      WhereOrdered(tail, cond);
      var rest := Sql.Where(tail, cond);
      forall y | y in rest
        ensures Sql.NullsFirstLe(rows[0].orderNumber, y.orderNumber)
      {
        var k :| 0 <= k < |tail| && tail[k] == y;
        assert rows[k + 1] == y;
      }
    }
  }

  function PreCondition(r: Reading): (c: Option<bool>)
    ensures c == Some(true) <==> r.beforeLesson == Some(true)
  {
    Sql.Equal(r.beforeLesson, true)
  }

  /** Under three-valued logic `before_lesson != true` is TRUE only for a stored false. */
  function PostCondition(r: Reading): (c: Option<bool>)
    ensures c == Some(true) <==> r.beforeLesson == Some(false)
  {
    assert r.beforeLesson.Some? && r.beforeLesson.value != true ==> r.beforeLesson == Some(false);
    Sql.NotEqual(r.beforeLesson, true)
  }

  /** `before_lesson IS NULL`, never UNKNOWN. */
  function UnsetCondition(r: Reading): Option<bool> { Some(r.beforeLesson == None) }

  /** `Reading.pre`: `where("before_lesson = ?", true)` on the default scope. */
  function Pre(table: seq<Reading>): (r: seq<Reading>)
    ensures forall x :: x in r ==> x in table && x.beforeLesson == Some(true)
  {
    Sql.Where(DefaultScope(table), PreCondition)
  }

  /** `Reading.post`: `where("before_lesson != ?", true)` on the default scope. */
  function Post(table: seq<Reading>): (r: seq<Reading>)
    ensures forall x :: x in r ==> x in table && x.beforeLesson == Some(false)
  {
    Sql.Where(DefaultScope(table), PostCondition)
  }

  /** `pre` returns, in default order, exactly the stored readings with `before_lesson` true. */
  lemma PreExactly(table: seq<Reading>)
    ensures Ordered(Pre(table))
    ensures forall r :: multiset(Pre(table))[r] == if r.beforeLesson == Some(true) then multiset(table)[r] else 0
    ensures forall r :: r in Pre(table) <==> r in table && r.beforeLesson == Some(true)
  {
    DefaultScopeOrdered(table);
    WhereOrdered(DefaultScope(table), PreCondition);
  }

  /** `post` returns, in default order, exactly the stored readings with `before_lesson` false. */
  lemma PostExactly(table: seq<Reading>)
    ensures Ordered(Post(table))
    ensures forall r :: multiset(Post(table))[r] == if r.beforeLesson == Some(false) then multiset(table)[r] else 0
    ensures forall r :: r in Post(table) <==> r in table && r.beforeLesson == Some(false)
  {
    DefaultScopeOrdered(table);
    WhereOrdered(DefaultScope(table), PostCondition);
    forall r ensures PostCondition(r) == Some(true) <==> r.beforeLesson == Some(false) {
      if r.beforeLesson.Some? && r.beforeLesson.value != true {
        assert r.beforeLesson == Some(false);
      }
    }
  }

  /** No reading is returned by both `pre` and `post`. */
  lemma PrePostDisjoint(table: seq<Reading>)
    ensures multiset(Pre(table)) * multiset(Post(table)) == multiset{}
  {
  }

  /**
   * Together `pre` and `post` hold every stored reading except those whose `before_lesson`
   * is NULL, which neither returns.
   */
  lemma PrePostCover(table: seq<Reading>)
    ensures multiset(Pre(table)) + multiset(Post(table)) + multiset(Sql.Where(table, UnsetCondition))
            == multiset(table)
  {
    forall r ensures (multiset(Pre(table)) + multiset(Post(table)) + multiset(Sql.Where(table, UnsetCondition)))[r]
                     == multiset(table)[r]
    {
      PrePostCoverAt(table, r);
    }
  }

  lemma PrePostCoverAt(table: seq<Reading>, r: Reading)
    ensures multiset(Pre(table))[r] + multiset(Post(table))[r] + multiset(Sql.Where(table, UnsetCondition))[r]
            == multiset(table)[r]
  {
    DefaultScopeOrdered(table);
    var sorted := DefaultScope(table);
    assert multiset(Pre(table))[r] == if PreCondition(r) == Some(true) then multiset(sorted)[r] else 0;
    assert multiset(Post(table))[r] == if PostCondition(r) == Some(true) then multiset(sorted)[r] else 0;
  }
}
