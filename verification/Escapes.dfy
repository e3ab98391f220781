/** Backslash escaping as a forward automaton, shared by the Rust string rule and the Markdown row rule. */
module Escapes {

  /** Read from the left, a backslash escapes the next character unless it is itself escaped. */
  predicate Escaped(s: string, j: nat)
    requires j <= |s|
  {
    j > 0 && s[j - 1] == '\\' && !Escaped(s, j - 1)
  }

  /** The automaton forgets everything before an unescaped position. */
  lemma {:induction false} EscapedShifts(s: string, d: nat, j: nat)
    requires d + j <= |s| && !Escaped(s, d)
    ensures Escaped(s, d + j) <==> Escaped(s[d..], j)
  {
    if j == 0 {
    } else {
      EscapedShifts(s, d, j - 1);
    }
  }
}
