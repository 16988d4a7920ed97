/** The editor's view of one line of text: which characters count as
    whitespace, the index of the first non-whitespace character, and the
    "empty or whitespace" classification derived from it. A line's text is
    a `string` (`seq<char>`) without its line break. */
module TextLine {

  /** The characters matched by JavaScript's `\s`: the ECMAScript WhiteSpace
      code points (tab, vertical tab, form feed, space, no-break space, the
      byte order mark and every space separator) and the LineTerminator
      code points (line feed, carriage return, line and paragraph separator). */
  predicate IsWhitespace(c: char) {
    c == '\t' || c == '\n' || c == '\U{000B}' || c == '\U{000C}' || c == '\r'
    || c == ' ' || c == '\U{00A0}' || c == '\U{1680}'
    || ('\U{2000}' <= c <= '\U{200A}')
    || c == '\U{2028}' || c == '\U{2029}' || c == '\U{202F}' || c == '\U{205F}'
    || c == '\U{3000}' || c == '\U{FEFF}'
  }

  /** Every character of `s` is whitespace (vacuously true of ""). */
  predicate AllWhitespace(s: string) {
    forall i :: 0 <= i < |s| ==> IsWhitespace(s[i])
  }

  /** The editor's `firstNonWhitespaceCharacterIndex`: the length of the
      longest all-whitespace prefix of the line. */
  function FirstNonWhitespaceIndex(s: string): (r: nat)
    ensures r <= |s|
    ensures forall i :: 0 <= i < r ==> IsWhitespace(s[i])
    ensures r < |s| ==> !IsWhitespace(s[r])
  {
    if s == [] || !IsWhitespace(s[0]) then 0
    else
      var rest := FirstNonWhitespaceIndex(s[1..]);
      assert forall i :: 1 <= i < 1 + rest ==> s[i] == s[1..][i - 1];
      1 + rest
  }

  /** The editor's `isEmptyOrWhitespace`: the first non-whitespace index
      is the line's length. Equivalently, every character is whitespace. */
  predicate IsEmptyOrWhitespace(s: string)
    ensures IsEmptyOrWhitespace(s) <==> AllWhitespace(s)
  {
    FirstNonWhitespaceIndex(s) == |s|
  }

  /** A blank line: at least one character, all of them whitespace. Only
      such a line is ever cleared after a key move. */
  predicate IsBlank(s: string) {
    s != "" && IsEmptyOrWhitespace(s)
  }

  /** `' '.repeat(n)`. */
  function Spaces(n: nat): (s: string)
    ensures |s| == n
    ensures forall i :: 0 <= i < n ==> s[i] == ' '
  {
    if n == 0 then "" else Spaces(n - 1) + " "
  }

  /** A run of spaces is whitespace-only, and its first non-whitespace
      index is its length. */
  lemma SpacesAreWhitespace(n: nat)
    ensures FirstNonWhitespaceIndex(Spaces(n)) == n
    ensures IsEmptyOrWhitespace(Spaces(n))
  {
  }
}
