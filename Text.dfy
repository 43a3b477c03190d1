/**
  String helpers used by the scanner: a model of JavaScript's `String.prototype.trim`.
  `trim` removes leading and trailing characters of the ECMAScript WhiteSpace and
  LineTerminator productions; every such character lies in the Basic Multilingual Plane.
 */
module Text {

  /** ECMAScript WhiteSpace (TAB, VT, FF, ZWNBSP and the Unicode category Zs)
      together with LineTerminator (LF, CR, LS, PS). */
  predicate IsWhitespace(c: char) {
    c == '\t' || c == '\n' || c == '\U{000B}' || c == '\U{000C}' || c == '\r' ||
    c == ' ' || c == '\U{00A0}' || c == '\U{1680}' ||
    ('\U{2000}' <= c <= '\U{200A}') ||
    c == '\U{2028}' || c == '\U{2029}' || c == '\U{202F}' || c == '\U{205F}' ||
    c == '\U{3000}' || c == '\U{FEFF}'
  }

  predicate AllWhitespace(s: string) {
    forall i :: 0 <= i < |s| ==> IsWhitespace(s[i])
  }

  /** A string that `trim` leaves alone: empty, or with no whitespace at either end. */
  predicate IsTrimmed(s: string) {
    s == [] || (!IsWhitespace(s[0]) && !IsWhitespace(s[|s| - 1]))
  }

  /** The length of the run of whitespace that `s` starts with. */
  function LeadingWhitespace(s: string): (n: nat)
    ensures n <= |s|
    ensures forall i :: 0 <= i < n ==> IsWhitespace(s[i])
    ensures n < |s| ==> !IsWhitespace(s[n])
  {
    if s == [] || !IsWhitespace(s[0]) then 0 else 1 + LeadingWhitespace(s[1..])
  }

  /** The length of the run of whitespace that `s` ends with. */
  function TrailingWhitespace(s: string): (n: nat)
    ensures n <= |s|
    ensures forall i :: |s| - n <= i < |s| ==> IsWhitespace(s[i])
    ensures n < |s| ==> !IsWhitespace(s[|s| - 1 - n])
  {
    if s == [] || !IsWhitespace(s[|s| - 1]) then 0
    else 1 + TrailingWhitespace(s[..|s| - 1])
  }

  /** `trim`: the part of `s` between its leading and its trailing whitespace. */
  function Trim(s: string): string {
    var rest := s[LeadingWhitespace(s)..];
    rest[..|rest| - TrailingWhitespace(rest)]
  }

  /** `Trim(s)` is the slice of `s` that starts after its leading whitespace, and all that
      follows that slice is whitespace too. */
  lemma TrimSlice(s: string)
    ensures var lead, r := LeadingWhitespace(s), Trim(s);
      lead + |r| <= |s| && r == s[lead..lead + |r|] &&
      forall i :: lead + |r| <= i < |s| ==> IsWhitespace(s[i])
  {
    var lead := LeadingWhitespace(s);
    var rest := s[lead..];
    assert forall i :: lead <= i < |s| ==> s[i] == rest[i - lead];
  }

  /** `Trim(s)` has no whitespace at either end. */
  lemma TrimIsTrimmed(s: string)
    ensures IsTrimmed(Trim(s))
  {
    var rest := s[LeadingWhitespace(s)..];
    var trail := TrailingWhitespace(rest);
    var r := Trim(s);
    if r != [] {
      assert r[0] == rest[0] == s[LeadingWhitespace(s)];
      assert r[|r| - 1] == rest[|rest| - 1 - trail];
    }
  }

  /** `Trim(s)` is empty exactly when `s` is all whitespace. */
  lemma TrimEmptyIff(s: string)
    ensures Trim(s) == [] <==> AllWhitespace(s)
  {
    var lead := LeadingWhitespace(s);
    var rest := s[lead..];
    if lead < |s| {
      assert rest[0] == s[lead];
      assert TrailingWhitespace(rest) < |rest|;
    }
  }

  /** Trimming is idempotent, and it is the identity exactly on trimmed strings. */
  lemma TrimIdentity(s: string)
    ensures Trim(s) == s <==> IsTrimmed(s)
    ensures Trim(Trim(s)) == Trim(s)
  {
    var r := Trim(s);
    TrimIsTrimmed(s);
    if IsTrimmed(s) && s != [] {
      assert LeadingWhitespace(s) == 0;
      assert TrailingWhitespace(s) == 0;
    }
    if r != [] {
      assert LeadingWhitespace(r) == 0;
      assert TrailingWhitespace(r) == 0;
    }
  }
}
