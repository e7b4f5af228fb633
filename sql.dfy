/**
 * The fragment of SQL semantics that the Reading scopes and the CourseInstructor
 * associations compile to: three-valued comparisons against a nullable column, a WHERE
 * filter that keeps only rows whose condition is TRUE, and ORDER BY on a nullable
 * integer column (SQLite places NULL before every number in ascending order).
 */
module Sql {
  import opened Wrappers

  /** `column = v`: UNKNOWN (None) when the column is NULL. */
  function Equal<T(==)>(column: Option<T>, v: T): (r: Option<bool>)
    ensures r == Some(true) <==> column == Some(v)
    ensures r == None <==> column == None
  {
    if column.None? then None else Some(column.value == v)
  }

  /** `column != v`: UNKNOWN (None) when the column is NULL, so a NULL row is never "different". */
  function NotEqual<T(==)>(column: Option<T>, v: T): (r: Option<bool>)
    ensures r == Some(true) <==> column.Some? && column.value != v
    ensures r == None <==> column == None
  {
    if column.None? then None else Some(column.value != v)
  }

  /** A WHERE clause: the rows whose condition evaluates to TRUE, in their original order. */
  function Where<T(==,!new)>(rows: seq<T>, cond: T -> Option<bool>): (r: seq<T>)
    ensures |r| <= |rows|
    ensures forall x :: x in r <==> x in rows && cond(x) == Some(true)
    ensures forall x :: multiset(r)[x] == if cond(x) == Some(true) then multiset(rows)[x] else 0
  {
    if rows == [] then []
    else
      var rest := Where(rows[1..], cond);
      assert rows == [rows[0]] + rows[1..];
      if cond(rows[0]) == Some(true) then [rows[0]] + rest else rest
  }

  /** `ORDER BY column ASC` on a nullable integer column: NULL first, then numbers ascending. */
  predicate NullsFirstLe(a: Option<int>, b: Option<int>) {
    a.None? || (b.Some? && a.value <= b.value)
  }

  /** The order is total and transitive, so sorting by it is well defined up to ties. */
  lemma NullsFirstLeTotalPreorder(a: Option<int>, b: Option<int>, c: Option<int>)
    ensures NullsFirstLe(a, a)
    ensures NullsFirstLe(a, b) || NullsFirstLe(b, a)
    ensures NullsFirstLe(a, b) && NullsFirstLe(b, c) ==> NullsFirstLe(a, c)
  {
  }
}
