/** Case folding as far as the exit test of the duplicate-line counter needs it.

    Go's strings.ToLower lowers a string rune by rune with unicode.ToLower, and
    every rune lowers to exactly one rune. This module keeps the mappings whose
    result is an ASCII letter: 'A'..'Z', LATIN CAPITAL LETTER I WITH DOT ABOVE
    (U+0130, lowered to 'i') and KELVIN SIGN (U+212A, lowered to 'k'). Every other
    rune is kept as it is. Because "exit" is plain ASCII, this is enough to decide
    exactly which lines the program treats as an exit command.
 */
module Lowercase {

  /** The one-rune lowering of unicode.ToLower, restricted as described above. */
  function LowerRune(c: char): char
  {
    if 'A' <= c <= 'Z' then (c as int + ('a' as int - 'A' as int)) as char
    else if c == '\U{0130}' then 'i'
    else if c == '\U{212A}' then 'k'
    else c
  }

  /** strings.ToLower: lower every rune, keep the length. */
  function Lower(s: string): string
  {
    seq(|s|, i requires 0 <= i < |s| => LowerRune(s[i]))
  }

  /** The exit test of the read loop: the lowercase form is exactly "exit". */
  predicate IsExit(s: string)
  {
    Lower(s) == "exit"
  }

  /** The runes that lower to each letter of "exit". */
  lemma LowerRuneTo(c: char)
    ensures LowerRune(c) == 'e' <==> c == 'e' || c == 'E'
    ensures LowerRune(c) == 'x' <==> c == 'x' || c == 'X'
    ensures LowerRune(c) == 'i' <==> c == 'i' || c == 'I' || c == '\U{0130}'
    ensures LowerRune(c) == 't' <==> c == 't' || c == 'T'
  {
  }

  /** A line is an exit command exactly when it spells "exit" in any mix of
      cases, the dotted capital I included; nothing longer or shorter is one. */
  lemma ExitSpellings(s: string)
    ensures IsExit(s) <==>
      && |s| == 4
      && (s[0] == 'e' || s[0] == 'E')
      && (s[1] == 'x' || s[1] == 'X')
      && (s[2] == 'i' || s[2] == 'I' || s[2] == '\U{0130}')
      && (s[3] == 't' || s[3] == 'T')
  {
    if |s| == 4 {
      LowerRuneTo(s[0]);
      LowerRuneTo(s[1]);
      LowerRuneTo(s[2]);
      LowerRuneTo(s[3]);
      var l := Lower(s);
      if IsExit(s) {
        assert l[0] == 'e' && l[1] == 'x' && l[2] == 'i' && l[3] == 't';
      } else {
        assert l != "exit";
        assert exists j :: 0 <= j < 4 && l[j] != "exit"[j];
      }
    } else {
      assert |Lower(s)| != |"exit"|;
    }
  }
}
