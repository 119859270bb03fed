/** A lossless tokenizer, and the statement scanner's verdict read off its tokens. */
module Tokens {
  import opened Text
  import opened Lexer

  /** A literal, a comment with its delimiters (the newline belongs to a line comment), a
      semicolon, or any one other character. */
  datatype Lexeme =
    | Quoted(text: string)
    | LineComment(text: string)
    | BlockComment(text: string)
    | Separator
    | Other(c: char)

  function Spelling(x: Lexeme): string {
    match x
    case Quoted(t) => t
    case LineComment(t) => t
    case BlockComment(t) => t
    case Separator => ";"
    case Other(c) => [c]
  }

  function Concat(xs: seq<Lexeme>): string {
    if xs == [] then "" else Spelling(xs[0]) + Concat(xs[1..])
  }

  /** The end of a literal opened by q before position i; a backslash takes the next character
      along, except between backticks. */
  function QuotedEnd(s: string, q: char, i: nat): (n: nat)
    requires i <= |s|
    ensures i <= n <= |s|
    decreases |s| - i
  {
    if i == |s| then i
    else if s[i] == q then i + 1
    else if s[i] == '\\' && q != '`' && i + 1 < |s| then QuotedEnd(s, q, i + 2)
    else QuotedEnd(s, q, i + 1)
  }

  function LineEnd(s: string): (n: nat)
    ensures n <= |s|
  {
    var i := Index(s, "\n");
    if i >= 0 && i < |s| then i + 1 else |s|
  }

  function BlockEnd(s: string): (n: nat)
    requires |s| >= 2
    ensures 2 <= n <= |s|
  {
    var i := IndexFrom(s, "*/", 2);
    if i >= 0 then i + 2 else |s|
  }

  /** The first lexeme of a text. */
  function First(s: string): (x: Lexeme)
    requires s != []
    ensures Spelling(x) != [] && Spelling(x) <= s
  {
    if IsQuote(s[0]) then Quoted(s[..QuotedEnd(s, s[0], 1)])
    else if HasPrefix(s, "--") then
      assert |s[..LineEnd(s)]| > 0;
      LineComment(s[..LineEnd(s)])
    else if HasPrefix(s, "/*") then BlockComment(s[..BlockEnd(s)])
    else if s[0] == ';' then Separator
    else Other(s[0])
  }

  function Tokenize(s: string): seq<Lexeme>
    decreases |s|
  {
    if s == [] then [] else
      var x := First(s);
      [x] + Tokenize(s[|Spelling(x)|..])
  }

  /** Nothing is lost. */
  lemma {:induction false} Lossless(s: string)
    ensures Concat(Tokenize(s)) == s
    decreases |s|
  {
    if s == [] {
    } else {
      var x := First(s);
      Lossless(s[|Spelling(x)|..]);
      assert Tokenize(s)[1..] == Tokenize(s[|Spelling(x)|..]);
    }
  }

  predicate SeparatorAt(xs: seq<Lexeme>, k: nat) {
    k < |xs| && xs[k].Separator? && !Blank(Concat(xs[k + 1..]))
  }

  /** Some separator lexeme has a non-whitespace character after it. */
  predicate SomeSeparator(xs: seq<Lexeme>) {
    exists k: nat :: k < |xs| && SeparatorAt(xs, k)
  }

  // --- Runs over one lexeme -----------------------------------------------------------------

  // The scanner after a prefix: no terminator met, and its mode.
  predicate Quietly(s: string, i: nat, m: Mode)
    requires i <= |s|
  {
    Run(Normal, s[..i]) == m && !TerminatedIn(Normal, s[..i])
  }

  lemma Extend(s: string, i: nat, m: Mode)
    requires i < |s| && Quietly(s, i, m) && (s[i] == ';' ==> !Open(m))
    ensures Quietly(s, i + 1, Step(m, s[i]))
  {
    RunStep(Normal, s, i);
    assert s[..i + 1] == s[..i] + [s[i]];
    TerminatedAppend(Normal, s[..i], [s[i]]);
    assert [s[i]][..0] == [];
  }

  lemma Start(s: string)
    ensures Quietly(s, 0, Normal)
  {
    assert s[..0] == [];
  }

  lemma {:induction false} QuotedRun(s: string, q: char, i: nat)
    requires IsQuote(q) && i <= |s| && Quietly(s, i, Enter(q))
    ensures var n := QuotedEnd(s, q, i); Quietly(s, n, Normal) || (n == |s| && !TerminatedIn(Normal, s))
    decreases |s| - i
  {
    if i == |s| {
      assert s[..i] == s;
    } else {
      Extend(s, i, Enter(q));
      if s[i] == q {
      } else if s[i] == '\\' && q != '`' {
        if i + 1 < |s| {
          Extend(s, i + 1, Step(Enter(q), s[i]));
          QuotedRun(s, q, i + 2);
        } else {
          assert s[..i + 1] == s;
        }
      } else {
        QuotedRun(s, q, i + 1);
      }
    }
  }

  lemma {:induction false} LineRuns(s: string, i: nat)
    requires HasPrefix(s, "--") && 2 <= i <= |s| && '\n' !in s[2..i]
    ensures Quietly(s, i, Line)
  {
    if i == 2 {
      Start(s);
      Extend(s, 0, Normal);
      Extend(s, 1, Dash);
    } else {
      assert s[2..i - 1] == s[2..i][..i - 3];
      assert s[2..i][i - 3] == s[i - 1];
      LineRuns(s, i - 1);
      Extend(s, i - 1, Line);
    }
  }

  lemma {:induction false} BlockRuns(s: string, i: nat)
    requires HasPrefix(s, "/*") && 2 <= i <= |s|
    requires forall j :: 2 <= j && j + 2 <= i ==> !At(s, j, "*/")
    ensures Quietly(s, i, if i > 2 && s[i - 1] == '*' then Star else Block)
  {
    if i == 2 {
      Start(s);
      Extend(s, 0, Normal);
      Extend(s, 1, Slash);
    } else {
      BlockRuns(s, i - 1);
      if i > 3 && s[i - 2] == '*' && s[i - 1] == '/' {
        assert s[i - 2..i] == "*/" && At(s, i - 2, "*/");
      }
      Extend(s, i - 1, if i - 1 > 2 && s[i - 2] == '*' then Star else Block);
    }
  }

  /** m cannot be told from Normal by a scanner about to read rest. */
  predicate Settled(m: Mode, rest: string) {
    m == Normal || rest == [] || (m == Dash && rest[0] != '-') || (m == Slash && rest[0] != '*')
  }

  // A lexeme other than a separator shows no terminator and leaves the scanner settled.
  lemma LexemeRun(s: string)
    requires s != [] && First(s) != Separator
    ensures var n := |Spelling(First(s))|;
            !TerminatedIn(Normal, s[..n]) && Settled(Run(Normal, s[..n]), s[n..])
  {
    Start(s);
    assert |s| > 1 ==> s[..2] == [s[0], s[1]];
    if IsQuote(s[0]) {
      Extend(s, 0, Normal);
      QuotedRun(s, s[0], 1);
      assert s[..|s|] == s;
    } else if HasPrefix(s, "--") {
      LineLexeme(s);
    } else if HasPrefix(s, "/*") {
      BlockLexeme(s);
    } else {
      Extend(s, 0, Normal);
    }
  }

  lemma LineLexeme(s: string)
    requires HasPrefix(s, "--")
    ensures var n := LineEnd(s); !TerminatedIn(Normal, s[..n]) && Settled(Run(Normal, s[..n]), s[n..])
  {
    IndexChar(s, '\n');
    var i := Index(s, "\n");
    assert s[0] == '-' && s[1] == '-';
    if i >= 0 {
      assert forall j :: 2 <= j < i ==> s[j] == s[..i][j];
      LineRuns(s, i);
      Extend(s, i, Line);
    } else {
      LineRuns(s, |s|);
      assert s[..|s|] == s;
    }
  }

  lemma BlockLexeme(s: string)
    requires HasPrefix(s, "/*")
    ensures var n := BlockEnd(s); !TerminatedIn(Normal, s[..n]) && Settled(Run(Normal, s[..n]), s[n..])
  {
    var i := IndexFrom(s, "*/", 2);
    if i >= 0 {
      assert s[i..i + 2] == "*/";
      assert s[i] == s[i..i + 2][0] && s[i + 1] == s[i..i + 2][1];
      BlockRuns(s, i + 1);
      Extend(s, i + 1, Star);
    } else {
      BlockRuns(s, |s|);
      assert s[..|s|] == s;
    }
  }

  lemma {:induction false} SettledRun(m: Mode, s: string, p: nat)
    requires Settled(m, s) && 1 <= p <= |s|
    ensures Run(m, s[..p]) == Run(Normal, s[..p])
  {
    RunStep(m, s, p - 1);
    RunStep(Normal, s, p - 1);
    if p == 1 {
      assert s[..0] == [];
    } else {
      SettledRun(m, s, p - 1);
    }
  }

  lemma SettledVerdict(m: Mode, s: string)
    requires Settled(m, s)
    ensures MultipleIn(m, s) <==> Multiple(s)
  {
    forall p: nat | p < |s| ensures Separates(m, s, p) == Separates(Normal, s, p) {
      if p == 0 { assert s[..0] == []; } else { SettledRun(m, s, p); }
    }
  }

  // One lexeme's contribution to the verdict.
  lemma FirstVerdict(s: string)
    requires s != []
    ensures var n := |Spelling(First(s))|;
            Multiple(s) <==> (First(s) == Separator && !Blank(s[n..])) || Multiple(s[n..])
  {
    var n := |Spelling(First(s))|;
    var x, rest := s[..n], s[n..];
    assert s == x + rest;
    if First(s) == Separator {
      assert x == ";" && x[..0] == [];
      assert Run(Normal, x) == Normal;
      assert Terminates(Normal, x, 0);
    } else {
      LexemeRun(s);
      SettledVerdict(Run(Normal, x), rest);
    }
    if Blank(rest) {
      MultipleBlankTail(Normal, x, rest);
      MultipleBlank(rest);
      if First(s) == Separator {
        assert x[1..] == [];
        assert forall p: nat :: p < |x| ==> !Separates(Normal, x, p);
      } else {
        MultipleIsTerminated(Normal, x);
      }
    } else {
      MultipleAppend(Normal, x, rest);
    }
  }

  /** The index-skipping scanner refines the tokenizer: it reports several statements exactly
      when some separator lexeme has content after it. */
  lemma {:induction false} VerdictFromTokens(s: string)
    ensures Multiple(s) <==> SomeSeparator(Tokenize(s))
    decreases |s|
  {
    if s == [] {
      MultipleBlank(s);
    } else {
      var x := First(s);
      var rest := s[|Spelling(x)|..];
      var xs := Tokenize(s);
      FirstVerdict(s);
      VerdictFromTokens(rest);
      Lossless(rest);
      assert xs[1..] == Tokenize(rest) && xs[0] == x;
      ConsSeparator(xs);
    }
  }

  lemma ShiftSeparator(xs: seq<Lexeme>, k: nat)
    requires k + 1 < |xs|
    ensures SeparatorAt(xs[1..], k) <==> SeparatorAt(xs, k + 1)
  {
    assert xs[1..][k + 1..] == xs[k + 2..];
  }

  lemma ConsSeparator(xs: seq<Lexeme>)
    requires xs != []
    ensures SomeSeparator(xs) <==> SeparatorAt(xs, 0) || SomeSeparator(xs[1..])
  {
    if SomeSeparator(xs) {
      var k: nat :| k < |xs| && SeparatorAt(xs, k);
      if k > 0 { ShiftSeparator(xs, k - 1); }
    }
    if SomeSeparator(xs[1..]) {
      var k: nat :| k < |xs[1..]| && SeparatorAt(xs[1..], k);
      ShiftSeparator(xs, k);
    }
  }
}
