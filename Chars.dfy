/** Character classes shared by the placeholder syntax, the tag parser and the search filter. */
module Chars {

  /** JavaScript's `\s` class (and the set `String.prototype.trim` removes): the ECMAScript
      WhiteSpace code points (TAB, VT, FF, SPACE, NBSP, ZWNBSP and the Zs category) together
      with the LineTerminator code points (LF, CR, LS, PS). */
  predicate IsSpace(c: char) {
    c == '\t' || c == '\n' || c == '\U{B}' || c == '\U{C}' || c == '\r' || c == ' '
    || c == '\U{A0}' || c == '\U{1680}' || ('\U{2000}' <= c <= '\U{200A}')
    || c == '\U{2028}' || c == '\U{2029}' || c == '\U{202F}' || c == '\U{205F}'
    || c == '\U{3000}' || c == '\U{FEFF}'
  }

  /** The character class `[a-zA-Z0-9_]` of a placeholder name. */
  predicate IsIdentChar(c: char) {
    ('a' <= c <= 'z') || ('A' <= c <= 'Z') || ('0' <= c <= '9') || c == '_'
  }

  /** A placeholder name: one or more identifier characters. */
  predicate IsIdentifier(s: string) {
    |s| > 0 && forall i :: 0 <= i < |s| ==> IsIdentChar(s[i])
  }

  predicate AllSpace(s: string) {
    forall i :: 0 <= i < |s| ==> IsSpace(s[i])
  }

  /** No space character is an identifier character, and no brace is either. */
  lemma ClassesDisjoint(c: char)
    ensures IsSpace(c) ==> !IsIdentChar(c)
    ensures c == '{' || c == '}' ==> !IsSpace(c) && !IsIdentChar(c)
  {
  }

  /** `toLowerCase` restricted to ASCII: 'A'..'Z' become 'a'..'z', everything else is kept. */
  function LowerChar(c: char): (r: char)
    ensures !('A' <= r <= 'Z')
    ensures ('a' <= c <= 'z') || !(('A' <= c <= 'Z') || ('a' <= c <= 'z')) ==> r == c
  {
    if 'A' <= c <= 'Z' then (c as int + 32) as char else c
  }

  function Lower(s: string): (r: string)
    ensures |r| == |s|
    ensures forall i :: 0 <= i < |s| ==> r[i] == LowerChar(s[i])
  {
    if s == [] then [] else [LowerChar(s[0])] + Lower(s[1..])
  }
}
