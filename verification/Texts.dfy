/** Text as Python sees it: which characters are white space, and what strip() leaves. */
module Texts {

  predicate Whitespace(c: char) {
    c in " \t\n\r\U{0B}\U{0C}\U{1C}\U{1D}\U{1E}\U{1F}\U{85}\U{A0}\U{1680}\U{2028}\U{2029}\U{202F}\U{205F}\U{3000}"
    || '\U{2000}' <= c <= '\U{200A}'
  }

  predicate Letter(c: char) { 'a' <= c <= 'z' || 'A' <= c <= 'Z' }

  lemma LettersShow(c: char)
    requires Letter(c)
    ensures !Whitespace(c)
  {
  }

  predicate NonBlank(s: string) {
    exists i | 0 <= i < |s| :: !Whitespace(s[i])
  }

  function Strip(s: string): string {
    if s != "" && Whitespace(s[0]) then Strip(s[1..])
    else if s != "" && Whitespace(s[|s| - 1]) then Strip(s[..|s| - 1])
    else s
  }

  /** Nothing is left exactly when there was nothing but white space. */
  lemma {:induction false} StripLeaves(s: string)
    ensures Strip(s) != "" <==> NonBlank(s)
    decreases |s|
  {
    hide Whitespace;
    if s != "" && Whitespace(s[0]) {
      StripLeaves(s[1..]);
      if i :| 0 <= i < |s| && !Whitespace(s[i]) { assert !Whitespace(s[1..][i - 1]); }
    } else if s != "" && Whitespace(s[|s| - 1]) {
      StripLeaves(s[..|s| - 1]);
      if i :| 0 <= i < |s| && !Whitespace(s[i]) { assert !Whitespace(s[..|s| - 1][i]); }
    }
  }

  /** The middle of a text that begins without white space: only its end can be cut. */
  lemma {:induction false} StripKeepsStart(s: string)
    requires s != "" && !Whitespace(s[0])
    ensures Strip(s) != "" && Strip(s) <= s
    decreases |s|
  {
    hide Whitespace;
    if Whitespace(s[|s| - 1]) { StripKeepsStart(s[..|s| - 1]); }
  }

  lemma StripNothing(s: string)
    requires s != "" && Letter(s[0]) && Letter(s[|s| - 1])
    ensures Strip(s) == s
  {
    hide Whitespace;
    LettersShow(s[0]);
    LettersShow(s[|s| - 1]);
  }
}
