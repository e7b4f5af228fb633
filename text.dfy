/**
 * The two notions of "whitespace" that the Reading validations rely on. They differ:
 * Rails' `blank?` uses the POSIX class `[[:space:]]`, which on a Unicode string is the
 * Unicode White_Space property, while `\s`/`\S` inside a Ruby regular expression only
 * know the six ASCII whitespace characters.
 */
module Text {

  /** `[[:space:]]`: the Unicode White_Space characters. */
  predicate IsSpace(c: char) {
    || ('\t' <= c <= '\r')
    || c == ' '
    || c == '\U{85}'
    || c == '\U{A0}'
    || c == '\U{1680}'
    || ('\U{2000}' <= c <= '\U{200A}')
    || c == '\U{2028}'
    || c == '\U{2029}'
    || c == '\U{202F}'
    || c == '\U{205F}'
    || c == '\U{3000}'
  }

  /** `\s` in a Ruby regular expression: space, tab, line feed, vertical tab, form feed, carriage return. */
  predicate IsRegexSpace(c: char) {
    c == ' ' || c == '\t' || c == '\n' || c == '\U{B}' || c == '\U{C}' || c == '\r'
  }

  /** Rails' `String#blank?`: empty, or made only of `[[:space:]]` characters. */
  predicate IsBlank(s: string) {
    forall i :: 0 <= i < |s| ==> IsSpace(s[i])
  }

  /** Every regular-expression space is also a `[[:space:]]` character, but not conversely. */
  lemma RegexSpaceIsSpace(c: char)
    ensures IsRegexSpace(c) ==> IsSpace(c)
    ensures IsSpace('\U{A0}') && !IsRegexSpace('\U{A0}')
  {
  }
}
