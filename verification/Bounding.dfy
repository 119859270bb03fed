/** Row bounding by rewriting: internal/query/result.go wraps a SELECT or WITH into
    `SELECT * FROM (inner newline) LIMIT n`. The theorems say what the statement scanner makes
    of the rewritten text, for every input text, closed or not. */
module Bounding {
  import opened Text
  import opened Lexer
  import opened Keyword

  const OPENING := "SELECT * FROM "
  const CLOSING := "\n) LIMIT "

  function Inner(sql: string): string {
    TrimSpace(TrimTerminators(TrimSpace(sql)))
  }

  function Bound(sql: string, fetchLimit: int): string {
    if !CanBound(sql) then sql
    else Wrapped(Inner(sql), fetchLimit)
  }

  function Wrapped(inner: string, fetchLimit: int): string {
    OPENING + "(" + inner + CLOSING + Itoa(fetchLimit)
  }

  // --- How the three trims cut a text ------------------------------------------------------

  /** Around the inner query lie only whitespace and semicolons. */
  predicate Inert(s: string) {
    forall i :: 0 <= i < |s| ==> IsSpace(s[i]) || s[i] == ';'
  }

  /** A text cut into whitespace, the inner query and what is trimmed after it. When nothing
      trimmed after it is a semicolon, the inner query does not end in one either. */
  predicate IsCut(sql: string, lead: string, inner: string, rest: string) {
    && sql == lead + inner + rest && Blank(lead) && Inert(rest)
    && (inner == [] || !IsSpace(inner[|inner| - 1]))
    && (Blank(rest) ==> inner == [] || inner[|inner| - 1] != ';')
  }

  lemma BlankInert(s: string)
    requires Blank(s)
    ensures Inert(s)
  {
  }

  lemma InertAppend(a: string, b: string)
    requires Inert(a) && Inert(b)
    ensures Inert(a + b)
  {
  }

  lemma Regroup(a: string, b: string, c: string, d: string)
    ensures a + (b + c) + d == a + b + (c + d)
  {
  }

  // inner + gap is what the second trim leaves, inner what the third does.
  lemma CutPieces(inner: string, gap: string, dropped: string)
    requires Blank(gap) && AllTerminators(dropped)
    requires inner == [] || !IsSpace(inner[|inner| - 1])
    requires gap == [] ==> inner == [] || !IsTerminator(inner[|inner| - 1])
    requires dropped == [] ==> gap == []
    requires dropped != [] ==> !IsSpace(dropped[|dropped| - 1])
    ensures Inert(gap + dropped)
    ensures Blank(gap + dropped) ==> inner == [] || inner[|inner| - 1] != ';'
  {
    BlankInert(gap);
    InertAppend(gap, dropped);
    BlankAppend(gap, dropped);
  }

  lemma GapEndsBlank(t: string, inner: string)
    requires |inner| < |t| && Blank(t[|inner|..])
    ensures IsSpace(t[|t| - 1])
  {
    assert t[|inner|..][|t| - 1 - |inner|] == t[|t| - 1];
  }

  // The second and third trim, applied to trimmed text.
  lemma CutTrimmed(m: string, t: string, inner: string) returns (rest: string)
    requires Trimmed(m)
    requires |t| <= |m| && t == m[..|t|] && AllTerminators(m[|t|..]) && (t == [] || !IsTerminator(t[|t| - 1]))
    requires |inner| <= |t| && inner == t[..|inner|] && Blank(t[|inner|..])
    requires inner == [] || !IsSpace(inner[|inner| - 1])
    ensures m == inner + rest && Inert(rest)
    ensures Blank(rest) ==> inner == [] || inner[|inner| - 1] != ';'
  {
    var gap, dropped := t[|inner|..], m[|t|..];
    rest := gap + dropped;
    assert m == inner + rest;
    if dropped == [] {
      assert t == m;
      if |inner| < |t| { GapEndsBlank(t, inner); }
    }
    CutPieces(inner, gap, dropped);
  }

  // The third trim finds nothing to cut at the front.
  lemma InnerTrims(m: string)
    requires Trimmed(m)
    ensures TrimSpace(TrimTerminators(m)) == TrimRight(TrimTerminators(m))
  {
    var t := TrimTerminators(m);
    assert t == [] || t[0] == m[0];
    TrimSpaceOfSolidStart(t);
  }

  lemma CutMiddle(m: string, inner: string) returns (rest: string)
    requires Trimmed(m) && inner == TrimSpace(TrimTerminators(m))
    ensures m == inner + rest && Inert(rest)
    ensures inner == [] || !IsSpace(inner[|inner| - 1])
    ensures Blank(rest) ==> inner == [] || inner[|inner| - 1] != ';'
  {
    InnerTrims(m);
    TrimTerminatorsCuts(m);
    TrimRightCuts(TrimTerminators(m));
    rest := CutTrimmed(m, TrimTerminators(m), inner);
  }

  lemma Cut(sql: string) returns (lead: string, rest: string)
    ensures IsCut(sql, lead, Inner(sql), rest)
  {
    var tail;
    lead, tail := TrimSpaceParts(sql);
    var after := CutMiddle(TrimSpace(sql), Inner(sql));
    rest := after + tail;
    CutTail(sql, lead, Inner(sql), after, tail);
  }

  lemma CutTail(sql: string, lead: string, inner: string, after: string, tail: string)
    requires sql == lead + (inner + after) + tail && Blank(lead) && Blank(tail) && Inert(after)
    requires inner == [] || !IsSpace(inner[|inner| - 1])
    requires Blank(after) ==> inner == [] || inner[|inner| - 1] != ';'
    ensures IsCut(sql, lead, inner, after + tail)
  {
    Regroup(lead, inner, after, tail);
    BlankInert(tail);
    InertAppend(after, tail);
    BlankAppend(after, tail);
  }

  lemma BlankIsPlain(s: string)
    requires Blank(s)
    ensures Run(Normal, s) == Normal
  {
    PlainRun(Normal, s);
  }

  // A terminator in the inner query separates in the original text.
  lemma CutTerminated(inner: string, rest: string)
    requires IsCut(inner + rest, [], inner, rest) && TerminatedIn(Normal, inner)
    ensures Multiple(inner + rest)
  {
    if Blank(rest) {
      var p: nat :| p < |inner| && Terminates(Normal, inner, p);
      assert !IsSpace(inner[p + 1..][|inner| - p - 2]);
      assert Separates(Normal, inner, p);
      MultipleBlankTail(Normal, inner, rest);
    } else {
      MultipleAppend(Normal, inner, rest);
    }
  }

  lemma AfterBlank(lead: string, s: string)
    requires Blank(lead) && Multiple(s)
    ensures Multiple(lead + s)
  {
    BlankIsPlain(lead);
    if Blank(s) { MultipleBlank(s); }
    MultipleAppend(Normal, lead, s);
  }

  lemma InnerTerminated(sql: string)
    requires TerminatedIn(Normal, Inner(sql))
    ensures Multiple(sql)
  {
    var lead, rest := Cut(sql);
    CutMultiple(sql, lead, Inner(sql), rest);
  }

  lemma CutMultiple(sql: string, lead: string, inner: string, rest: string)
    requires IsCut(sql, lead, inner, rest) && TerminatedIn(Normal, inner)
    ensures Multiple(sql)
  {
    assert [] + inner + rest == inner + rest;
    CutTerminated(inner, rest);
    AfterBlank(lead, inner + rest);
    assert sql == lead + (inner + rest);
  }

  // Where the keyword ends in the text; before that nothing is trimmed.
  lemma KeywordNotTrimmed(sql: string, k: string, p: string, r: string, head: string, rest: string)
    requires sql == p + r == head + rest && Inert(rest)
    requires 0 < |k| <= |r| && Upper(r[..|k|]) == k && 'A' <= k[|k| - 1] <= 'Z'
    ensures |p| + |k| <= |head| && !IsSpace(r[|k| - 1])
  {
    var n := |p| + |k| - 1;
    assert k[|k| - 1] == UpperChar(r[|k| - 1]);
    assert sql[n] == r[|k| - 1];
    assert forall i :: |head| <= i < |sql| ==> sql[i] == rest[i - |head|];
  }

  lemma KeywordOfBoundable(sql: string)
    requires CanBound(sql)
    ensures StartsKeyword(Rest(sql)) && LeadingKeyword(Rest(sql)) == LeadingKeyword(sql)
  {
    KeywordOfRest(sql);
    RestSettled(sql);
    if !StartsKeyword(Rest(sql)) { SettledBlank(Rest(sql)); }
  }

  lemma HeadKeyword(ts: seq<Trivia>, p: string, r: string, k: string, sql: string, head: string, rest: string)
    requires AllWellFormed(ts) && p == Render(ts) && sql == p + r == head + rest && Inert(rest)
    requires StartsKeyword(r) && LeadingKeyword(r) == k && k in {"SELECT", "WITH"}
    ensures LeadingKeyword(head) == k
  {
    TokenText(r, k);
    KeywordNotTrimmed(sql, k, p, r, head, rest);
    var r' := r[..|head| - |p|];
    HeadSplits(sql, p, r, head, rest, r');
    PrependWhole(ts, r', head);
    KeywordOfPrefix(r, r');
  }

  lemma TokenText(r: string, k: string)
    requires StartsKeyword(r) && LeadingKeyword(r) == k
    ensures |k| <= |r| && Upper(r[..|k|]) == k
  {
    KeywordIsToken(r);
    TrimRightCuts(r);
    assert TrimRight(r)[..|k|] == r[..|k|];
  }

  lemma HeadSplits(sql: string, p: string, r: string, head: string, rest: string, r': string)
    requires sql == p + r == head + rest && |p| <= |head| && r' == r[..|head| - |p|]
    ensures head == p + r'
  {
    assert head == sql[..|head|];
  }

  lemma KeywordOfHead(sql: string, head: string, rest: string)
    requires CanBound(sql) && sql == head + rest && Inert(rest)
    ensures LeadingKeyword(head) == LeadingKeyword(sql)
  {
    KeywordOfBoundable(sql);
    LeadAndRest(sql);
    HeadKeyword(Lead(sql), Render(Lead(sql)), Rest(sql), LeadingKeyword(sql), sql, head, rest);
  }

  /** The inner query of a boundable text is boundable itself. */
  lemma InnerCanBound(sql: string)
    requires CanBound(sql)
    ensures CanBound(Inner(sql))
  {
    var lead, rest := Cut(sql);
    var inner := Inner(sql);
    KeywordOfHead(sql, lead + inner, rest);
    TrimSpaceIsParts(lead, inner, []);
    assert lead + inner + [] == lead + inner;
    TrimmedIsFixed(inner);
    SameTrimSameKeyword(lead + inner, inner);
  }

  lemma WrapperRuns()
    ensures Run(Normal, OPENING + "(") == Normal && !TerminatedIn(Normal, OPENING + "(")
  {
    PlainRun(Normal, OPENING + "(");
  }

  lemma TailHasNoSemicolon(k: int)
    ensures forall m :: !TerminatedIn(m, CLOSING + Itoa(k))
  {
    var tail := CLOSING + Itoa(k);
    assert forall i :: 0 <= i < |tail| ==> tail[i] != ';';
    forall m ensures !TerminatedIn(m, tail) {
      forall p: nat | p < |tail| ensures !Terminates(m, tail, p) {
      }
    }
  }

  lemma WrappedVerdict(inner: string, k: int)
    ensures Multiple(Wrapped(inner, k)) <==> TerminatedIn(Normal, inner)
  {
    var opening, tail := OPENING + "(", CLOSING + Itoa(k);
    assert Wrapped(inner, k) == (opening + inner) + tail;
    WrapperRuns();
    TailHasNoSemicolon(k);
    assert !Blank(tail) by { assert tail[1] == ')'; }
    MultipleAppend(Normal, opening + inner, tail);
    MultipleIsTerminated(Run(Normal, opening + inner), tail);
    TerminatedAppend(Normal, opening, inner);
  }

  /** The scanner's verdict on the wrapped text: exactly whether the inner query still holds a
      terminator. No literal or comment need be closed. */
  lemma BoundVerdict(sql: string, k: int)
    requires CanBound(sql)
    ensures Multiple(Bound(sql, k)) <==> TerminatedIn(Normal, Inner(sql))
  {
    WrappedVerdict(Inner(sql), k);
  }

  /** Bounding preserves single-statement form, for every text and every limit. */
  lemma BoundKeepsSingle(sql: string, k: int)
    requires !Multiple(sql)
    ensures !Multiple(Bound(sql, k))
  {
    if CanBound(sql) {
      BoundVerdict(sql, k);
      if TerminatedIn(Normal, Inner(sql)) {
        InnerTerminated(sql);
      }
    }
  }

  // --- The wrapper is never swallowed ----------------------------------------------------------

  /** Text ends outside every literal and block comment; a line comment may still be running. */
  predicate EndsOpen(s: string) {
    var m := Run(Normal, s);
    Open(m) || m == Line
  }

  lemma {:induction false} InertRun(m: Mode, s: string)
    requires Inert(s)
    ensures (Open(Run(m, s)) || Run(m, s) == Line) <==> (Open(m) || m == Line)
  {
    if s == [] {
    } else {
      assert Inert(s[..|s| - 1]);
      InertRun(m, s[..|s| - 1]);
    }
  }

  lemma EndsOpenCut(sql: string, lead: string, inner: string, rest: string)
    requires IsCut(sql, lead, inner, rest)
    ensures EndsOpen(sql) <==> EndsOpen(inner)
  {
    BlankIsPlain(lead);
    assert sql == lead + (inner + rest);
    RunAppend(Normal, lead, inner + rest);
    RunAppend(Normal, inner, rest);
    InertRun(Run(Normal, inner), rest);
  }

  /** The text after the injected newline. */
  function LimitText(k: int): string {
    ") LIMIT " + Itoa(k)
  }

  // From Normal on, the text after the newline keeps the scanner open.
  lemma {:induction false} LimitRun(t: string, p: nat)
    requires p <= |t| && forall i :: 0 <= i < |t| ==> Plain(t[i]) || (t[i] == '-' && i == 8)
    ensures Open(Run(Normal, t[..p]))
    ensures Run(Normal, t[..p]) == Dash ==> p == 9
    ensures Run(Normal, t[..p]) != Slash
  {
    if p == 0 {
    } else {
      LimitRun(t, p - 1);
      RunStep(Normal, t, p - 1);
    }
  }

  lemma LimitIsPlain(k: int)
    ensures var t := LimitText(k); forall i :: 0 <= i < |t| ==> Plain(t[i]) || (t[i] == '-' && i == 8)
  {
    var t, n := LimitText(k), Itoa(k);
    forall i | 0 <= i < |t| ensures Plain(t[i]) || (t[i] == '-' && i == 8) {
      if i >= 8 {
        assert t[i] == n[i - 8];
        if n[0] == '-' {
          if i > 8 { assert IsDigit(n[1..][i - 9]); }
        } else {
          assert IsDigit(n[i - 8]);
        }
      }
    }
  }

  /** What the wrapper puts before its closing paren. */
  function Head(inner: string): string {
    OPENING + "(" + inner + "\n"
  }

  /** Where the injected closing paren stands. */
  function ClosingParen(sql: string): nat {
    |Head(Inner(sql))|
  }

  lemma WrappedParts(inner: string, k: int)
    ensures Wrapped(inner, k) == Head(inner) + LimitText(k)
  {
  }

  lemma HeadRun(inner: string)
    ensures Run(Normal, Head(inner)) == Step(Run(Normal, inner), '\n')
  {
    var opening, head := OPENING + "(", Head(inner);
    WrapperRuns();
    RunAppend(Normal, opening, inner);
    assert head[..|head| - 1] == opening + inner;
  }

  lemma OpenAfterNewline(inner: string, t: string)
    requires t != []
    requires forall i :: 0 <= i < |t| ==> Plain(t[i]) || (t[i] == '-' && i == 8)
    ensures EndsOpen(inner) <==> Open(Run(Normal, (Head(inner) + t)[..|Head(inner)|]))
    ensures EndsOpen(inner) ==>
              forall p: nat :: |Head(inner)| <= p < |Head(inner) + t| ==> Open(Run(Normal, (Head(inner) + t)[..p]))
  {
    var head := Head(inner);
    HeadRun(inner);
    assert (head + t)[..|head|] == head;
    if EndsOpen(inner) {
      forall p: nat | |head| <= p < |head + t| ensures Open(Run(Normal, (head + t)[..p])) {
        RunPrefix(Normal, head, t, p - |head|);
        LimitRun(t, p - |head|);
      }
    }
  }

  /** The scanner is outside every literal and comment at every character of `) LIMIT n`
      exactly when the original text ends outside them, a running line comment aside. */
  lemma WrapperNotSwallowed(sql: string, k: int)
    requires CanBound(sql)
    ensures ClosingParen(sql) < |Bound(sql, k)| && Bound(sql, k)[ClosingParen(sql)..] == LimitText(k)
    ensures EndsOpen(sql) <==> Open(Run(Normal, Bound(sql, k)[..ClosingParen(sql)]))
    ensures EndsOpen(sql) ==>
              forall p: nat :: ClosingParen(sql) <= p < |Bound(sql, k)| ==> Open(Run(Normal, Bound(sql, k)[..p]))
  {
    var lead, rest := Cut(sql);
    EndsOpenCut(sql, lead, Inner(sql), rest);
    WrappedParts(Inner(sql), k);
    LimitIsPlain(k);
    OpenAfterNewline(Inner(sql), LimitText(k));
  }

  // --- The wrapper's parens match each other -----------------------------------------------------

  /** What a character does to the nesting of parens outside literals and comments. */
  function Delta(m: Mode, c: char): int {
    if Open(m) && c == '(' then 1 else if Open(m) && c == ')' then -1 else 0
  }

  function Level(m: Mode, s: string): int {
    if s == [] then 0 else Level(m, s[..|s| - 1]) + Delta(Run(m, s[..|s| - 1]), s[|s| - 1])
  }

  predicate Balanced(s: string) {
    Level(Normal, s) == 0 && forall p :: 0 <= p <= |s| ==> Level(Normal, s[..p]) >= 0
  }

  /** The paren that opens at o, outside literals and comments, is closed by the one at c. */
  predicate Matches(s: string, o: nat, c: nat)
    requires o < c < |s|
  {
    && s[o] == '(' && Open(Run(Normal, s[..o]))
    && s[c] == ')' && Open(Run(Normal, s[..c]))
    && Level(Normal, s[..c + 1]) == Level(Normal, s[..o])
    && forall p :: o < p <= c ==> Level(Normal, s[..p]) > Level(Normal, s[..o])
  }

  lemma {:induction false} LevelAppend(m: Mode, a: string, b: string)
    ensures Level(m, a + b) == Level(m, a) + Level(Run(m, a), b)
  {
    if b == [] {
      assert a + b == a;
    } else {
      var b' := b[..|b| - 1];
      assert (a + b)[..|a + b| - 1] == a + b';
      LevelAppend(m, a, b');
      RunAppend(m, a, b');
    }
  }

  lemma {:induction false} NoParenLevel(m: Mode, s: string)
    requires forall i :: 0 <= i < |s| ==> s[i] != '(' && s[i] != ')'
    ensures Level(m, s) == 0
  {
    if s == [] {
    } else {
      NoParenLevel(m, s[..|s| - 1]);
    }
  }

  lemma InertLevel(m: Mode, s: string)
    requires Inert(s)
    ensures Level(m, s) == 0
  {
    NoParenLevel(m, s);
  }

  lemma LevelInLead(lead: string, s: string, p: nat)
    requires Blank(lead) && p <= |lead|
    ensures Level(Normal, (lead + s)[..p]) == 0
  {
    assert (lead + s)[..p] == lead[..p];
    BlankInert(lead[..p]);
    InertLevel(Normal, lead[..p]);
  }

  lemma LevelAfterLead(lead: string, s: string, p: nat)
    requires Blank(lead) && p <= |s|
    ensures Level(Normal, (lead + s)[..|lead| + p]) == Level(Normal, s[..p])
  {
    BlankIsPlain(lead);
    BlankInert(lead);
    InertLevel(Normal, lead);
    assert (lead + s)[..|lead| + p] == lead + s[..p];
    LevelAppend(Normal, lead, s[..p]);
  }

  lemma LevelInRest(inner: string, rest: string, p: nat)
    requires Inert(rest) && p <= |rest|
    ensures Level(Normal, (inner + rest)[..|inner| + p]) == Level(Normal, inner)
  {
    assert (inner + rest)[..|inner| + p] == inner + rest[..p];
    assert Inert(rest[..p]);
    LevelAppend(Normal, inner, rest[..p]);
    InertLevel(Run(Normal, inner), rest[..p]);
  }

  lemma PrefixLevel(lead: string, inner: string, rest: string, p: nat)
    requires Blank(lead) && Inert(rest) && p <= |lead + (inner + rest)|
    ensures var l := Level(Normal, (lead + (inner + rest))[..p]);
            && (p <= |lead| ==> l == 0)
            && (|lead| <= p <= |lead| + |inner| ==> l == Level(Normal, inner[..p - |lead|]))
            && (|lead| + |inner| <= p ==> l == Level(Normal, inner))
  {
    var s := inner + rest;
    if p <= |lead| {
      LevelInLead(lead, s, p);
    }
    if |lead| <= p {
      LevelAfterLead(lead, s, p - |lead|);
      if p <= |lead| + |inner| {
        assert s[..p - |lead|] == inner[..p - |lead|];
      }
      if |lead| + |inner| <= p {
        LevelInRest(inner, rest, p - |lead| - |inner|);
      }
    }
  }

  lemma BalancedCut(sql: string, lead: string, inner: string, rest: string)
    requires IsCut(sql, lead, inner, rest)
    ensures Balanced(sql) <==> Balanced(inner)
  {
    assert sql == lead + (inner + rest);
    forall p: nat | p <= |sql|
      ensures p <= |lead| ==> Level(Normal, sql[..p]) == 0
      ensures |lead| <= p <= |lead| + |inner| ==> Level(Normal, sql[..p]) == Level(Normal, inner[..p - |lead|])
      ensures |lead| + |inner| <= p ==> Level(Normal, sql[..p]) == Level(Normal, inner)
    {
      PrefixLevel(lead, inner, rest, p);
    }
    assert sql[..|sql|] == sql && inner[..|inner|] == inner;
    forall q | 0 <= q <= |inner| ensures Level(Normal, inner[..q]) == Level(Normal, sql[..|lead| + q]) {
    }
  }

  lemma OpeningHasNoParen()
    ensures forall i :: 0 <= i < |OPENING| ==> OPENING[i] != '(' && OPENING[i] != ')'
  {
    var o := "SELECT * FROM ";
    assert |o| == 14 && o[0] == 'S' && o[1] == 'E' && o[2] == 'L' && o[3] == 'E' && o[4] == 'C' && o[5] == 'T'
      && o[6] == ' ' && o[7] == '*' && o[8] == ' ' && o[9] == 'F' && o[10] == 'R'
      && o[11] == 'O' && o[12] == 'M' && o[13] == ' ';
    assert OPENING == o;
  }

  lemma OpeningLevel()
    ensures Level(Normal, OPENING) == 0 && Level(Normal, OPENING + "(") == 1 && Run(Normal, OPENING) == Normal
  {
    var opening := OPENING + "(";
    OpeningHasNoParen();
    NoParenLevel(Normal, OPENING);
    PlainRun(Normal, OPENING);
    assert opening[..|OPENING|] == OPENING;
  }

  lemma HeadLevel(inner: string, t: string, p: nat)
    requires p <= |inner|
    ensures Level(Normal, (Head(inner) + t)[..|OPENING| + 1 + p]) == 1 + Level(Normal, inner[..p])
  {
    var opening := OPENING + "(";
    OpeningLevel();
    WrapperRuns();
    assert (Head(inner) + t)[..|OPENING| + 1 + p] == opening + inner[..p];
    LevelAppend(Normal, opening, inner[..p]);
  }

  // The levels around the newline and the closing paren.
  lemma ClosingLevel(inner: string, t: string)
    requires t != [] && t[0] == ')'
    ensures var w, c := Head(inner) + t, |Head(inner)|;
            && Level(Normal, w[..c]) == 1 + Level(Normal, inner)
            && (Open(Run(Normal, w[..c])) ==> Level(Normal, w[..c + 1]) == Level(Normal, inner))
  {
    var w, c := Head(inner) + t, |Head(inner)|;
    HeadLevel(inner, t, |inner|);
    assert inner[..|inner|] == inner;
    assert w[..c][..c - 1] == w[..c - 1] && w[c - 1] == '\n';
    assert w[..c + 1][..c] == w[..c] && w[c] == ')';
  }

  lemma WrappedMatches(inner: string, t: string)
    requires t != [] && t[0] == ')'
    requires EndsOpen(inner) <==> Open(Run(Normal, (Head(inner) + t)[..|Head(inner)|]))
    ensures Matches(Head(inner) + t, |OPENING|, |Head(inner)|) <==> EndsOpen(inner) && Balanced(inner)
  {
    var o, c, w := |OPENING|, |Head(inner)|, Head(inner) + t;
    assert w[o] == '(' && w[..o] == OPENING && w[c] == ')';
    OpeningLevel();
    ClosingLevel(inner, t);
    forall p | 0 <= p <= |inner| ensures Level(Normal, w[..o + 1 + p]) == 1 + Level(Normal, inner[..p]) {
      HeadLevel(inner, t, p);
    }
    if Matches(w, o, c) {
      forall p | 0 <= p <= |inner| ensures Level(Normal, inner[..p]) >= 0 {
        assert Level(Normal, w[..o + 1 + p]) > 0;
      }
    }
    if EndsOpen(inner) && Balanced(inner) {
      forall p | o < p <= c ensures Level(Normal, w[..p]) > 0 {
        if p < c {
          assert p == o + 1 + (p - o - 1);
          assert Level(Normal, inner[..p - o - 1]) >= 0;
        }
      }
    }
  }

  /** The injected opening paren is closed by the injected closing paren exactly when the
      original text ends open and its own parens, outside literals and comments, balance. */
  lemma WrapperMatches(sql: string, k: int)
    requires CanBound(sql)
    ensures ClosingParen(sql) < |Bound(sql, k)|
    ensures Matches(Bound(sql, k), |OPENING|, ClosingParen(sql)) <==> EndsOpen(sql) && Balanced(sql)
  {
    var lead, rest := Cut(sql);
    EndsOpenCut(sql, lead, Inner(sql), rest);
    BalancedCut(sql, lead, Inner(sql), rest);
    WrapperNotSwallowed(sql, k);
    WrappedParts(Inner(sql), k);
    WrappedMatches(Inner(sql), LimitText(k));
  }
}
