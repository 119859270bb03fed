/** The character classes of the text layer, character by character. */
module Characters {
  import opened Text
  import opened OutputClause

  /** Go's white space: these characters and no other. */
  lemma SpacesAre(c: char)
    ensures IsSpace(c) <==>
              c as int in {
                0x9, 0xA, 0xB, 0xC, 0xD, 0x20, 0x85, 0xA0, 0x1680, 0x2000, 0x2001, 0x2002, 0x2003, 0x2004, 0x2005,
                0x2006, 0x2007, 0x2008, 0x2009, 0x200A, 0x2028, 0x2029, 0x202F, 0x205F, 0x3000}
  {
  }

  /** The characters of an identifier: these and no other. */
  lemma IdentCharsAre(c: char)
    ensures IsIdentChar(c) <==>
              c in {
                '0', '1', '2', '3', '4', '5', '6', '7', '8', '9', '_',
                'A', 'B', 'C', 'D', 'E', 'F', 'G', 'H', 'I', 'J', 'K', 'L', 'M',
                'N', 'O', 'P', 'Q', 'R', 'S', 'T', 'U', 'V', 'W', 'X', 'Y', 'Z',
                'a', 'b', 'c', 'd', 'e', 'f', 'g', 'h', 'i', 'j', 'k', 'l', 'm',
                'n', 'o', 'p', 'q', 'r', 's', 't', 'u', 'v', 'w', 'x', 'y', 'z'}
  {
  }

  /** Upper case, letter by letter. */
  lemma UpperLetters(k: nat)
    requires k < 26
    ensures UpperChar("abcdefghijklmnopqrstuvwxyz"[k]) == "ABCDEFGHIJKLMNOPQRSTUVWXYZ"[k]
  {
  }

  /** Any other character stays, but for the two whose upper case is an ASCII letter. */
  lemma UpperOthers(c: char)
    ensures c !in "abcdefghijklmnopqrstuvwxyz" ==>
              UpperChar(c) == if c == '\U{131}' then 'I' else if c == '\U{17F}' then 'S' else c
  {
  }

  /** What the terminator trim leaves: the text without its longest tail of semicolons and spaces. */
  lemma TerminatorTrimIs(s: string, kept: string)
    ensures kept == TrimTerminators(s) <==>
              && kept <= s
              && (forall i :: |kept| <= i < |s| ==> s[i] == ';' || s[i] == ' ')
              && (kept == "" || (kept[|kept| - 1] != ';' && kept[|kept| - 1] != ' '))
  {
    TrimTerminatorsCuts(s);
    var r := TrimTerminators(s);
    assert forall i :: |r| <= i < |s| ==> s[i] == s[|r|..][i - |r|];
    assert r == s[..|r|];
    if kept <= s {
      assert kept == s[..|kept|];
    }
  }
}
