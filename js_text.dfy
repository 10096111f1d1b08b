/**
 * The parts of JavaScript's string semantics that the request handlers rely on:
 * the WhiteSpace and LineTerminator sets of ECMAScript (used by String.prototype.trim
 * and by the regex escape \s), the line-terminator set excluded by the regex `.`,
 * ASCII character classes, and trim / indexOf.
 *
 * A Dafny `char` is a Unicode scalar value, where a JavaScript string is a
 * sequence of UTF-16 code units: a character outside the Basic Multilingual
 * Plane is one char here, and a lone surrogate cannot occur.
 */
module JsText {

  /** LineTerminator: LF, CR, LINE SEPARATOR, PARAGRAPH SEPARATOR. */
  predicate IsLineTerminator(c: char) {
    c == '\n' || c == '\r' || c == '\U{2028}' || c == '\U{2029}'
  }

  /** The Unicode category Zs (space separators). */
  predicate IsSpaceSeparator(c: char) {
    c == ' ' || c == '\U{00A0}' || c == '\U{1680}' ||
    ('\U{2000}' <= c <= '\U{200A}') ||
    c == '\U{202F}' || c == '\U{205F}' || c == '\U{3000}'
  }

  /** WhiteSpace or LineTerminator: what trim() strips and what \s matches. */
  predicate IsJsSpace(c: char) {
    c == '\t' || c == '\U{000B}' || c == '\U{000C}' || c == '\U{FEFF}' ||
    IsSpaceSeparator(c) || IsLineTerminator(c)
  }

  predicate IsAsciiLower(c: char) { 'a' <= c <= 'z' }
  predicate IsAsciiUpper(c: char) { 'A' <= c <= 'Z' }
  predicate IsAsciiLetter(c: char) { IsAsciiLower(c) || IsAsciiUpper(c) }
  predicate IsAsciiDigit(c: char) { '0' <= c <= '9' }

  /** The regex escape \w: [A-Za-z0-9_]. */
  predicate IsWordChar(c: char) { IsAsciiLetter(c) || IsAsciiDigit(c) || c == '_' }

  /** Where trimming starts: the index of the first character that is not white space. */
  function FirstNonSpace(s: string): (i: nat)
    ensures i <= |s|
    ensures forall k :: 0 <= k < i ==> IsJsSpace(s[k])
    ensures i < |s| ==> !IsJsSpace(s[i])
    decreases |s|
  {
    if |s| > 0 && IsJsSpace(s[0]) then 1 + FirstNonSpace(s[1..]) else 0
  }

  /** Where trimming ends: the index just past the last character that is not white space. */
  function EndOfNonSpace(s: string): (j: nat)
    ensures j <= |s|
    ensures forall k :: j <= k < |s| ==> IsJsSpace(s[k])
    ensures 0 < j ==> !IsJsSpace(s[j - 1])
    decreases |s|
  {
    if |s| > 0 && IsJsSpace(s[|s| - 1]) then EndOfNonSpace(s[..|s| - 1]) else |s|
  }

  /**
   * s[i..j] is what is left of s once its leading and trailing white space
   * is removed: everything outside is white space and the kept part neither
   * starts nor ends with white space.
   */
  ghost predicate TrimmedAt(s: string, i: int, j: int) {
    0 <= i <= j <= |s| &&
    (forall k :: 0 <= k < i ==> IsJsSpace(s[k])) &&
    (forall k :: j <= k < |s| ==> IsJsSpace(s[k])) &&
    (i < j ==> !IsJsSpace(s[i]) && !IsJsSpace(s[j - 1]))
  }

  /** String.prototype.trim. */
  function Trim(s: string): (r: string)
    ensures exists i, j :: TrimmedAt(s, i, j) && r == s[i..j]
  {
    var i := FirstNonSpace(s);
    var j := EndOfNonSpace(s);
    if i <= j then
      assert TrimmedAt(s, i, j);
      s[i..j]
    else
      assert TrimmedAt(s, 0, 0);
      []
  }

  /** The trimmed part of a string is unique: any cut as described is what trim() returns. */
  lemma TrimUnique(s: string, i: int, j: int)
    requires TrimmedAt(s, i, j)
    ensures Trim(s) == s[i..j]
  {
    var i', j' :| TrimmedAt(s, i', j') && Trim(s) == s[i'..j'];
    SameCut(s, i, j, i', j');
    SameCut(s, i', j', i, j);
  }

  /** Two cuts of the same string keep the same characters (or none). */
  lemma SameCut(s: string, i: int, j: int, i': int, j': int)
    requires TrimmedAt(s, i, j) && TrimmedAt(s, i', j')
    ensures i < j ==> i' <= i && j <= j'
  {
  }

  /** trim() is idempotent. */
  lemma TrimIdempotent(s: string)
    ensures Trim(Trim(s)) == Trim(s)
  {
    var t := Trim(s);
    var i, j :| TrimmedAt(s, i, j) && t == s[i..j];
    assert TrimmedAt(t, 0, |t|);
    TrimUnique(t, 0, |t|);
  }

  /** A string that neither starts nor ends with white space is left as it is. */
  lemma TrimKeepsTrimmed(s: string)
    requires s == [] || (!IsJsSpace(s[0]) && !IsJsSpace(s[|s| - 1]))
    ensures Trim(s) == s
  {
    assert TrimmedAt(s, 0, |s|);
    TrimUnique(s, 0, |s|);
  }

  /** trim() keeps a string that starts and ends with a word character or '!'. */
  lemma NoSurroundingSpace(s: string)
    requires |s| > 0 && (IsWordChar(s[0]) || s[0] == '!') && (IsWordChar(s[|s| - 1]) || s[|s| - 1] == '!')
    ensures Trim(s) == s
  {
    TrimKeepsTrimmed(s);
  }

  /** String.prototype.indexOf for one character; |s| when it does not occur. */
  function IndexOf(s: string, c: char): (i: nat)
    ensures i <= |s|
    ensures forall k :: 0 <= k < i ==> s[k] != c
    ensures i < |s| ==> s[i] == c
    decreases |s|
  {
    if |s| == 0 then 0
    else if s[0] == c then 0
    else 1 + IndexOf(s[1..], c)
  }

  /** The first occurrence is found behind a prefix that does not contain the character. */
  lemma IndexOfAfter(a: string, c: char, b: string)
    requires forall k :: 0 <= k < |a| ==> a[k] != c
    requires |b| > 0 && b[0] == c
    ensures IndexOf(a + b, c) == |a|
  {
    var s := a + b;
    var i := IndexOf(s, c);
    assert s[|a|] == c;
  }
}
