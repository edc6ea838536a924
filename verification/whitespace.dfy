/**
 * The part of JavaScript's String.prototype.trim that the to-do list relies on:
 * `input.trim()` removes leading and trailing white space, and the add handler
 * treats an empty result as "nothing typed".
 */
module Whitespace {

  /** The ECMAScript WhiteSpace and LineTerminator code points that trim removes. */
  predicate IsWhitespace(c: char) {
    || c == '\t'            // CHARACTER TABULATION
    || c == '\n'            // LINE FEED
    || c == '\U{000B}'      // LINE TABULATION
    || c == '\U{000C}'      // FORM FEED
    || c == '\r'            // CARRIAGE RETURN
    || c == ' '             // SPACE
    || c == '\U{00A0}'      // NO-BREAK SPACE
    || c == '\U{1680}'      // OGHAM SPACE MARK
    || ('\U{2000}' <= c <= '\U{200A}')  // EN QUAD .. HAIR SPACE
    || c == '\U{2028}'      // LINE SEPARATOR
    || c == '\U{2029}'      // PARAGRAPH SEPARATOR
    || c == '\U{202F}'      // NARROW NO-BREAK SPACE
    || c == '\U{205F}'      // MEDIUM MATHEMATICAL SPACE
    || c == '\U{3000}'      // IDEOGRAPHIC SPACE
    || c == '\U{FEFF}'      // ZERO WIDTH NO-BREAK SPACE
  }

  predicate AllWhitespace(s: string) {
    forall i :: 0 <= i < |s| ==> IsWhitespace(s[i])
  }

  /** How many white-space characters `s` starts with. */
  function LeadingSpace(s: string): (k: nat)
    ensures k <= |s|
    ensures forall i :: 0 <= i < k ==> IsWhitespace(s[i])
    ensures k < |s| ==> !IsWhitespace(s[k])
  {
    if |s| == 0 || !IsWhitespace(s[0]) then 0 else 1 + LeadingSpace(s[1..])
  }

  /** How many white-space characters `s` ends with. */
  function TrailingSpace(s: string): (k: nat)
    ensures k <= |s|
    ensures forall i :: |s| - k <= i < |s| ==> IsWhitespace(s[i])
    ensures k < |s| ==> !IsWhitespace(s[|s| - 1 - k])
  {
    if |s| == 0 || !IsWhitespace(s[|s| - 1]) then 0 else 1 + TrailingSpace(s[..|s| - 1])
  }

  /**
   * `s.trim()`: the contiguous run of `s` that starts after the leading white
   * space. Only white space lies outside that run, and the run neither starts
   * nor ends with white space.
   */
  function Trim(s: string): (r: string)
    ensures LeadingSpace(s) + |r| <= |s|
    ensures r == s[LeadingSpace(s)..LeadingSpace(s) + |r|]
    ensures forall i :: 0 <= i < LeadingSpace(s) ==> IsWhitespace(s[i])
    ensures forall i :: LeadingSpace(s) + |r| <= i < |s| ==> IsWhitespace(s[i])
    ensures r != [] ==> !IsWhitespace(r[0]) && !IsWhitespace(r[|r| - 1])
  {
    var a := LeadingSpace(s);
    if a == |s| then []
    else
      assert |s| - TrailingSpace(s) > a;
      s[a..|s| - TrailingSpace(s)]
  }

  /** `!s.trim()`: JavaScript's empty string is falsy, every other string truthy. */
  predicate IsBlank(s: string) {
    Trim(s) == []
  }

  /** A string is blank exactly when every one of its characters is white space. */
  lemma BlankIffAllWhitespace(s: string)
    ensures IsBlank(s) <==> AllWhitespace(s)
  {
    var a := LeadingSpace(s);
    if a < |s| {
      assert |s| - TrailingSpace(s) > a;
    }
  }
}
