/**
 The whitespace trimming that `addTask` applies to the input box's value
 before it decides whether there is anything to add. JavaScript's
 `String.prototype.trim` strips, from both ends, every code point that
 ECMAScript classes as WhiteSpace or LineTerminator.
 */
module Text {

  /** ECMAScript WhiteSpace (TAB, VT, FF, ZWNBSP and every Unicode "Zs"
      space separator) together with LineTerminator (LF, CR, LS, PS). */
  predicate IsWhitespace(c: char) {
    || c == '\t' || c == '\U{000B}' || c == '\U{000C}' || c == '\U{FEFF}'
    || c == '\n' || c == '\r' || c == '\U{2028}' || c == '\U{2029}'
    || c == ' ' || c == '\U{00A0}' || c == '\U{1680}'
    || ('\U{2000}' <= c <= '\U{200A}')
    || c == '\U{202F}' || c == '\U{205F}' || c == '\U{3000}'
  }

  /** Every character of `s` is whitespace (vacuously so for ""). */
  predicate AllWhitespace(s: string) {
    forall k :: 0 <= k < |s| ==> IsWhitespace(s[k])
  }

  /** The position of the first non-whitespace character at or after
      `i`, or `|s|` when there is none: the end of the leading
      whitespace run that starts at `i`. */
  function SkipLeading(s: string, i: nat): (j: nat)
    requires i <= |s|
    ensures i <= j <= |s|
    ensures forall k :: i <= k < j ==> IsWhitespace(s[k])
    ensures j == |s| || !IsWhitespace(s[j])
    decreases |s| - i
  {
    if i < |s| && IsWhitespace(s[i]) then SkipLeading(s, i + 1) else i
  }

  /** The position just after the last non-whitespace character before
      `j`, or 0 when there is none: the start of the trailing whitespace
      run that ends at `j`. */
  function SkipTrailing(s: string, j: nat): (i: nat)
    requires j <= |s|
    ensures i <= j
    ensures forall k :: i <= k < j ==> IsWhitespace(s[k])
    ensures i == 0 || !IsWhitespace(s[i - 1])
    decreases j
  {
    if j > 0 && IsWhitespace(s[j - 1]) then SkipTrailing(s, j - 1) else j
  }

  /** `r` sits at offset `i` of `s`, and every character of `s` before
      and after it is whitespace. */
  ghost predicate IsInfixWithWhitespaceMargins(s: string, r: string, i: int) {
    && 0 <= i <= |s| - |r|
    && r == s[i..i + |r|]
    && (forall k :: 0 <= k < i ==> IsWhitespace(s[k]))
    && (forall k :: i + |r| <= k < |s| ==> IsWhitespace(s[k]))
  }

  /** `String.prototype.trim`: the infix of `s` left once the whitespace
      margins at both ends are cut away. The result is empty exactly when
      `s` is whitespace only; otherwise it starts and ends with a
      non-whitespace character. */
  function Trim(s: string): (r: string)
    ensures exists i :: IsInfixWithWhitespaceMargins(s, r, i)
    ensures r == [] <==> AllWhitespace(s)
    ensures r != [] ==> !IsWhitespace(r[0]) && !IsWhitespace(r[|r| - 1])
  {
    var start := SkipLeading(s, 0);
    if start == |s| then
      assert IsInfixWithWhitespaceMargins(s, [], 0);
      []
    else
      var end := SkipTrailing(s, |s|);
      assert start < end;
      var r := s[start..end];
      assert IsInfixWithWhitespaceMargins(s, r, start);
      r
  }

  /** Trimming twice is trimming once. */
  lemma TrimIdempotent(s: string)
    ensures Trim(Trim(s)) == Trim(s)
  {
    var r := Trim(s);
    if r != [] {
      assert SkipLeading(r, 0) == 0;
      assert SkipTrailing(r, |r|) == |r|;
      assert r[0..|r|] == r;
    }
  }
}
