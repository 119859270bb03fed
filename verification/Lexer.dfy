/** The statement scanner of internal/query/result.go.

    The program scans with six states, a one-character look-ahead and index skips. The
    specification is an automaton with neither: `Mode` remembers instead of looking
    ahead, so that runs over concatenated texts compose. */
module Lexer {
  import opened Text

  /** What a scanner that never looks ahead must remember. `Dash`, `Slash` and `Star` say that
      the last character may start or end a comment; `SingleEsc` and `DoubleEsc` that it was
      a backslash inside a literal. */
  datatype Mode =
    | Normal | Dash | Slash
    | Single | SingleEsc
    | Double | DoubleEsc
    | Backtick
    | Line
    | Block | Star

  /** Outside every literal and comment. */
  predicate Open(m: Mode) {
    m == Normal || m == Dash || m == Slash
  }

  function Step(m: Mode, c: char): Mode {
    match m
    case Dash => if c == '-' then Line else Enter(c)
    case Slash => if c == '*' then Block else Enter(c)
    case Normal => Enter(c)
    case Single => if c == '\\' then SingleEsc else if c == '\'' then Normal else Single
    case SingleEsc => Single
    case Double => if c == '\\' then DoubleEsc else if c == '"' then Normal else Double
    case DoubleEsc => Double
    case Backtick => if c == '`' then Normal else Backtick
    case Line => if c == '\n' then Normal else Line
    case Block => if c == '*' then Star else Block
    case Star => if c == '/' then Normal else if c == '*' then Star else Block
  }

  function Enter(c: char): Mode {
    if c == '\'' then Single
    else if c == '"' then Double
    else if c == '`' then Backtick
    else if c == '-' then Dash
    else if c == '/' then Slash
    else Normal
  }

  function Run(m: Mode, s: string): Mode {
    if s == [] then m else Step(Run(m, s[..|s| - 1]), s[|s| - 1])
  }

  lemma RunStep(m: Mode, s: string, p: nat)
    requires p < |s|
    ensures Run(m, s[..p + 1]) == Step(Run(m, s[..p]), s[p])
  {
    assert s[..p + 1][..p] == s[..p];
  }

  lemma {:induction false} RunAppend(m: Mode, a: string, b: string)
    ensures Run(m, a + b) == Run(Run(m, a), b)
  {
    if b == [] {
      assert a + b == a;
    } else {
      assert (a + b)[..|a + b| - 1] == a + b[..|b| - 1];
      RunAppend(m, a, b[..|b| - 1]);
    }
  }

  lemma RunPrefix(m: Mode, a: string, b: string, p: nat)
    requires p <= |b|
    ensures Run(m, (a + b)[..|a| + p]) == Run(Run(m, a), b[..p])
  {
    assert (a + b)[..|a| + p] == a + b[..p];
    RunAppend(m, a, b[..p]);
  }

  /** A semicolon outside every literal and comment, for a scanner that enters s in mode m. */
  predicate Terminates(m: Mode, s: string, p: nat)
    requires p < |s|
  {
    s[p] == ';' && Open(Run(m, s[..p]))
  }

  /** A terminator with something other than whitespace after it. */
  predicate Separates(m: Mode, s: string, p: nat)
    requires p < |s|
  {
    Terminates(m, s, p) && !Blank(s[p + 1..])
  }

  predicate TerminatedIn(m: Mode, s: string) {
    exists p: nat :: p < |s| && Terminates(m, s, p)
  }

  predicate MultipleIn(m: Mode, s: string) {
    exists p: nat :: p < |s| && Separates(m, s, p)
  }

  /** More than one statement: the declarative form of the scanner's verdict. */
  predicate Multiple(s: string) {
    MultipleIn(Normal, s)
  }

  // Multiple, searched from position i on.
  predicate SeparatesFrom(s: string, i: nat)
    decreases |s| - i
  {
    i < |s| && (Separates(Normal, s, i) || SeparatesFrom(s, i + 1))
  }

  lemma {:induction false} SeparatesFromIff(s: string, i: nat)
    ensures SeparatesFrom(s, i) <==> exists p: nat :: i <= p < |s| && Separates(Normal, s, p)
    decreases |s| - i
  {
    if i < |s| {
      SeparatesFromIff(s, i + 1);
    }
  }

  // --- Verdicts on concatenations ---------------------------------------------------

  lemma TerminatesAppend(m: Mode, a: string, b: string, p: nat)
    requires p < |a + b|
    ensures p < |a| ==> Terminates(m, a + b, p) == Terminates(m, a, p)
    ensures p >= |a| ==> Terminates(m, a + b, p) == Terminates(Run(m, a), b, p - |a|)
  {
    if p < |a| {
      assert (a + b)[..p] == a[..p];
    } else {
      RunPrefix(m, a, b, p - |a|);
    }
  }

  lemma BlankAppend(a: string, b: string)
    ensures Blank(a + b) <==> Blank(a) && Blank(b)
  {
    if Blank(a + b) {
      assert forall i :: 0 <= i < |a| ==> a[i] == (a + b)[i];
      assert forall i :: 0 <= i < |b| ==> b[i] == (a + b)[|a| + i];
    }
  }

  lemma TerminatedAppend(m: Mode, a: string, b: string)
    ensures TerminatedIn(m, a + b) <==> TerminatedIn(m, a) || TerminatedIn(Run(m, a), b)
  {
    forall p: nat | p < |a| && Terminates(m, a, p) ensures TerminatedIn(m, a + b) {
      TerminatesAppend(m, a, b, p);
      assert Terminates(m, a + b, p);
    }
    forall p: nat | p < |b| && Terminates(Run(m, a), b, p) ensures TerminatedIn(m, a + b) {
      TerminatesAppend(m, a, b, |a| + p);
      assert Terminates(m, a + b, |a| + p);
    }
    forall p: nat | p < |a + b| && Terminates(m, a + b, p)
      ensures TerminatedIn(m, a) || TerminatedIn(Run(m, a), b)
    {
      TerminatesAppend(m, a, b, p);
      if p < |a| {
        assert Terminates(m, a, p);
      } else {
        assert Terminates(Run(m, a), b, p - |a|);
      }
    }
  }

  lemma SeparatesAppend(m: Mode, a: string, b: string, p: nat)
    requires p < |a + b|
    ensures p < |a| ==> Separates(m, a + b, p) == (Terminates(m, a, p) && !(Blank(a[p + 1..]) && Blank(b)))
    ensures p >= |a| ==> Separates(m, a + b, p) == Separates(Run(m, a), b, p - |a|)
  {
    TerminatesAppend(m, a, b, p);
    if p < |a| {
      assert (a + b)[p + 1..] == a[p + 1..] + b;
      BlankAppend(a[p + 1..], b);
    } else {
      assert (a + b)[p + 1..] == b[p - |a| + 1..];
    }
  }

  // With content after it, the first part's terminators separate.
  lemma MultipleFrom(m: Mode, a: string, b: string)
    requires !Blank(b) && (TerminatedIn(m, a) || MultipleIn(Run(m, a), b))
    ensures MultipleIn(m, a + b)
  {
    if TerminatedIn(m, a) {
      var p: nat :| p < |a| && Terminates(m, a, p);
      SeparatesAppend(m, a, b, p);
      assert Separates(m, a + b, p);
    } else {
      var p: nat :| p < |b| && Separates(Run(m, a), b, p);
      SeparatesAppend(m, a, b, |a| + p);
      assert Separates(m, a + b, |a| + p);
    }
  }

  lemma MultipleInto(m: Mode, a: string, b: string)
    requires MultipleIn(m, a + b)
    ensures TerminatedIn(m, a) || MultipleIn(Run(m, a), b)
  {
    var p: nat :| p < |a + b| && Separates(m, a + b, p);
    SeparatesAppend(m, a, b, p);
    if p < |a| {
      assert Terminates(m, a, p);
    } else {
      assert Separates(Run(m, a), b, p - |a|);
    }
  }

  /** Content after a terminator makes it a separator. */
  lemma MultipleAppend(m: Mode, a: string, b: string)
    requires !Blank(b)
    ensures MultipleIn(m, a + b) <==> TerminatedIn(m, a) || MultipleIn(Run(m, a), b)
  {
    if TerminatedIn(m, a) || MultipleIn(Run(m, a), b) { MultipleFrom(m, a, b); }
    if MultipleIn(m, a + b) { MultipleInto(m, a, b); }
  }

  /** Trailing whitespace changes no verdict. */
  lemma MultipleBlankTail(m: Mode, a: string, b: string)
    requires Blank(b)
    ensures MultipleIn(m, a + b) <==> MultipleIn(m, a)
  {
    forall p: nat | p < |a| ensures Separates(m, a + b, p) == Separates(m, a, p) {
      SeparatesAppend(m, a, b, p);
    }
    forall p: nat | |a| <= p < |a + b| ensures !Separates(m, a + b, p) {
      assert IsSpace(b[p - |a|]);
    }
    forall p: nat | p < |a| && Separates(m, a, p) ensures MultipleIn(m, a + b) {
      assert Separates(m, a + b, p);
    }
  }

  // --- The program's scanner ----------------------------------------------------

  datatype ScanState = InNormal | InSingle | InDouble | InBacktick | InLine | InBlock

  /** How a program state at index i stands for the automaton's mode: look-ahead has already
      ruled out a comment opener or closer split across i. */
  predicate Tracks(state: ScanState, m: Mode, s: string, i: nat) {
    match state
    case InNormal =>
      || m == Normal
      || (m == Dash && (i >= |s| || s[i] != '-'))
      || (m == Slash && (i >= |s| || s[i] != '*'))
    case InSingle => m == Single
    case InDouble => m == Double
    case InBacktick => m == Backtick
    case InLine => m == Line
    case InBlock => m == Block || (m == Star && (i >= |s| || s[i] != '/'))
  }

  /** The automaton's whole run over s: the mode at every position, and whether a separator
      lies at or after it. */
  datatype Trace = Trace(modes: seq<Mode>, ahead: seq<bool>)

  predicate Link(s: string, t: Trace, k: int)
    requires |t.modes| == |t.ahead| == |s| + 1 && 0 <= k < |s|
  {
    && t.modes[k + 1] == Step(t.modes[k], s[k])
    && t.ahead[k] == ((s[k] == ';' && Open(t.modes[k]) && TrimSpace(s[k + 1..]) != "") || t.ahead[k + 1])
  }

  predicate Traces(s: string, t: Trace) {
    && |t.modes| == |t.ahead| == |s| + 1
    && t.modes[0] == Normal && !t.ahead[|s|]
    && forall k :: 0 <= k < |s| ==> Link(s, t, k)
  }

  lemma TraceOf(s: string) returns (t: Trace)
    ensures Traces(s, t) && t.ahead[0] == Multiple(s)
  {
    t := Trace(seq(|s| + 1, k requires 0 <= k <= |s| => Run(Normal, s[..k])),
               seq(|s| + 1, k requires 0 <= k <= |s| => SeparatesFrom(s, k)));
    assert s[..0] == [];
    SeparatesFromIff(s, 0);
    forall k | 0 <= k < |s| ensures Link(s, t, k) {
      RunStep(Normal, s, k);
      TrimSpaceEmpty(s[k + 1..]);
    }
  }

  method ContainsMultipleStatements(sql: string) returns (multiple: bool)
    ensures multiple <==> Multiple(sql)
  {
    ghost var t := TraceOf(sql);
    ghost var verdict := t.ahead[0];
    var state := InNormal;
    var i := 0;
    while i < |sql|
      invariant 0 <= i <= |sql| + 1
      invariant i <= |sql| ==> Tracks(state, t.modes[i], sql, i)
      invariant i <= |sql| ==> verdict == t.ahead[i]
      invariant i > |sql| ==> !verdict
    {
      var c := sql[i];
      assert Link(sql, t, i);
      assert i + 1 < |sql| ==> Link(sql, t, i + 1);
      match state {
        case InNormal =>
          if c == '\'' {
            state := InSingle;
          } else if c == '"' {
            state := InDouble;
          } else if c == '`' {
            state := InBacktick;
          } else if c == '-' && i + 1 < |sql| && sql[i + 1] == '-' {
            state := InLine;
            i := i + 1;
          } else if c == '/' && i + 1 < |sql| && sql[i + 1] == '*' {
            state := InBlock;
            i := i + 1;
          } else if c == ';' {
            if TrimSpace(sql[i + 1..]) != "" {
              return true;
            }
          }
        case InSingle =>
          if c == '\\' {
            i := i + 1;
          } else if c == '\'' {
            state := InNormal;
          }
        case InDouble =>
          if c == '\\' {
            i := i + 1;
          } else if c == '"' {
            state := InNormal;
          }
        case InBacktick =>
          if c == '`' {
            state := InNormal;
          }
        case InLine =>
          if c == '\n' {
            state := InNormal;
          }
        case InBlock =>
          if c == '*' && i + 1 < |sql| && sql[i + 1] == '/' {
            state := InNormal;
            i := i + 1;
          }
      }
      i := i + 1;
    }
    return false;
  }

  lemma TrimSpaceEmpty(s: string)
    ensures TrimSpace(s) == "" <==> Blank(s)
  {
    var lead, tail := TrimSpaceParts(s);
    if Blank(s) {
      TrimSpaceIsParts(s, [], []);
      assert s + [] + [] == s;
    }
  }

  // --- What a run cannot see ------------------------------------------------------

  /** A character that opens nothing, ends nothing and separates nothing in open text. */
  predicate Plain(c: char) {
    c !in {'\'', '"', '`', '-', '/', ';'}
  }

  /** Plain text leaves an open scanner open. */
  lemma {:induction false} PlainRun(m: Mode, s: string)
    requires m == Normal
    requires forall i :: 0 <= i < |s| ==> Plain(s[i])
    ensures Run(m, s) == Normal
  {
    if s == [] {
    } else {
      PlainRun(m, s[..|s| - 1]);
    }
  }

  // --- Literals -----------------------------------------------------------------------

  predicate IsQuote(q: char) {
    q == '\'' || q == '"' || q == '`'
  }

  /** Between quotes q, body brings the scanner back to Normal and shows it no terminator. */
  predicate Enclosed(q: char, body: string)
    requires IsQuote(q)
  {
    && Run(Enter(q), body + [q]) == Normal
    && !TerminatedIn(Enter(q), body + [q])
  }

  function Literal(q: char, body: string): string {
    [q] + body + [q]
  }

  // A whole enclosed literal, entered in open text, shows the scanner no terminator.
  lemma LiteralRun(m: Mode, q: char, body: string)
    requires Open(m) && IsQuote(q) && Enclosed(q, body)
    ensures Run(m, Literal(q, body)) == Normal
    ensures !TerminatedIn(m, Literal(q, body))
  {
    assert [q] + body + [q] == [q] + (body + [q]);
    assert [q][..0] == [];
    assert Run(m, [q]) == Enter(q);
    RunAppend(m, [q], body + [q]);
    TerminatedAppend(m, [q], body + [q]);
  }

  lemma MultipleIsTerminated(m: Mode, s: string)
    requires !TerminatedIn(m, s)
    ensures !MultipleIn(m, s)
  {
    forall p: nat | p < |s| ensures !Separates(m, s, p) {
      assert !Terminates(m, s, p);
    }
  }

  lemma MultipleBlank(s: string)
    requires Blank(s)
    ensures !Multiple(s)
  {
  }

  // Text that ends no statement, followed by anything.
  lemma MultipleAfter(m: Mode, s: string, b: string)
    requires !TerminatedIn(m, s) && Run(m, s) == Normal
    ensures MultipleIn(m, s + b) <==> Multiple(b)
  {
    if Blank(b) {
      MultipleBlankTail(m, s, b);
      MultipleIsTerminated(m, s);
      MultipleBlank(b);
    } else {
      MultipleAppend(m, s, b);
    }
  }

  // Text with content but no terminator, between any two texts.
  lemma VerdictAround(a: string, s: string, b: string)
    requires !TerminatedIn(Run(Normal, a), s) && Run(Run(Normal, a), s) == Normal && !Blank(s)
    ensures Run(Normal, a + s) == Normal
    ensures Multiple(a + (s + b)) <==> TerminatedIn(Normal, a) || Multiple(b)
  {
    RunAppend(Normal, a, s);
    BlankAppend(s, b);
    MultipleAppend(Normal, a, s + b);
    MultipleAfter(Run(Normal, a), s, b);
  }

  /** Literal contents cannot affect the verdict: around an enclosed literal it depends on
      the text before and the text after alone. */
  lemma LiteralVerdict(a: string, q: char, body: string, b: string)
    requires Open(Run(Normal, a)) && IsQuote(q) && Enclosed(q, body)
    ensures Run(Normal, a + Literal(q, body)) == Normal
    ensures Multiple(a + (Literal(q, body) + b)) <==> TerminatedIn(Normal, a) || Multiple(b)
  {
    LiteralRun(Run(Normal, a), q, body);
    assert !IsSpace(Literal(q, body)[0]);
    VerdictAround(a, Literal(q, body), b);
  }

  /** Backslash escaping, for the quotes that honour it. */
  function Escaped(q: char, s: string): string {
    if s == [] then []
    else Escaped(q, s[..|s| - 1]) + (if s[|s| - 1] == q || s[|s| - 1] == '\\' then ['\\', s[|s| - 1]] else [s[|s| - 1]])
  }

  /** Quote doubling; a backslash is escaped except between backticks, where it is ordinary. */
  function Doubled(q: char, s: string): string {
    if s == [] then []
    else
      var c := s[|s| - 1];
      Doubled(q, s[..|s| - 1]) + (if c == q then [q, q] else if c == '\\' && q != '`' then "\\\\" else [c])
  }

  // The mode inside a literal opened by q.
  predicate Inside(q: char, body: string)
    requires IsQuote(q)
  {
    Run(Enter(q), body) == Enter(q) && !TerminatedIn(Enter(q), body)
  }

  lemma SnocRun(m: Mode, s: string, c: char)
    ensures Run(m, s + [c]) == Step(Run(m, s), c)
    ensures TerminatedIn(m, s + [c]) <==> TerminatedIn(m, s) || (c == ';' && Open(Run(m, s)))
  {
    assert (s + [c])[..|s|] == s;
    TerminatedAppend(m, s, [c]);
    assert [c][..0] == [];
    assert Terminates(Run(m, s), [c], 0) <==> c == ';' && Open(Run(m, s));
  }

  lemma InsideOne(q: char, body: string, c: char)
    requires IsQuote(q) && Inside(q, body) && c != q && (c == '\\' ==> q == '`')
    ensures Inside(q, body + [c])
  {
    SnocRun(Enter(q), body, c);
  }

  // Two characters that stand for one: an escape, or a doubled quote.
  lemma InsideTwo(q: char, body: string, c: char, d: char)
    requires IsQuote(q) && Inside(q, body) && ((c == '\\' && q != '`') || (c == q && d == q))
    ensures Inside(q, body + [c] + [d])
  {
    SnocRun(Enter(q), body, c);
    SnocRun(Enter(q), body + [c], d);
  }

  lemma InsideAppend(q: char, body: string, piece: string)
    requires IsQuote(q) && Inside(q, body)
    requires 1 <= |piece| <= 2
    requires |piece| == 1 ==> piece[0] != q && (piece[0] == '\\' ==> q == '`')
    requires |piece| == 2 ==> (piece[0] == '\\' && q != '`') || (piece == [q, q])
    ensures Inside(q, body + piece)
  {
    if |piece| == 2 {
      assert body + piece == body + [piece[0]] + [piece[1]];
      InsideTwo(q, body, piece[0], piece[1]);
    } else {
      assert piece == [piece[0]];
      InsideOne(q, body, piece[0]);
    }
  }

  lemma InsideEncloses(q: char, body: string)
    requires IsQuote(q) && Inside(q, body)
    ensures Enclosed(q, body)
  {
    TerminatedAppend(Enter(q), body, [q]);
    RunAppend(Enter(q), body, [q]);
    assert [q][..0] == [];
  }

  lemma {:induction false} EscapedInside(q: char, s: string)
    requires IsQuote(q) && q != '`'
    ensures Inside(q, Escaped(q, s))
  {
    if s == [] {
    } else {
      EscapedInside(q, s[..|s| - 1]);
      var c := s[|s| - 1];
      InsideAppend(q, Escaped(q, s[..|s| - 1]), if c == q || c == '\\' then ['\\', c] else [c]);
    }
  }

  lemma {:induction false} DoubledInside(q: char, s: string)
    requires IsQuote(q)
    ensures Inside(q, Doubled(q, s))
  {
    if s == [] {
    } else {
      DoubledInside(q, s[..|s| - 1]);
      var c := s[|s| - 1];
      InsideAppend(q, Doubled(q, s[..|s| - 1]),
                   if c == q then [q, q] else if c == '\\' && q != '`' then "\\\\" else [c]);
    }
  }

  /** Swapping the string a literal stands for, in either way of writing it, leaves the
      verdict alone. */
  lemma LiteralSwap(a: string, q: char, s: string, t: string, b: string)
    requires Open(Run(Normal, a)) && IsQuote(q)
    ensures Multiple(a + (Literal(q, Doubled(q, s)) + b)) <==> Multiple(a + (Literal(q, Doubled(q, t)) + b))
    ensures q != '`' ==>
              (Multiple(a + (Literal(q, Escaped(q, s)) + b)) <==> Multiple(a + (Literal(q, Doubled(q, t)) + b)))
  {
    DoubledInside(q, s);
    InsideEncloses(q, Doubled(q, s));
    LiteralVerdict(a, q, Doubled(q, s), b);
    DoubledInside(q, t);
    InsideEncloses(q, Doubled(q, t));
    LiteralVerdict(a, q, Doubled(q, t), b);
    if q != '`' {
      EscapedInside(q, s);
      InsideEncloses(q, Escaped(q, s));
      LiteralVerdict(a, q, Escaped(q, s), b);
    }
  }
}
