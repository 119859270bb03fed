/** The leading-keyword reader of internal/query/result.go: a second trivia skipper, written
    independently of the statement scanner. */
module Keyword {
  import opened Options
  import opened Text
  import opened Lexer
  import Tokens

  /** What is left after leading whitespace, comments and opening parens; None when a comment
      never ends. */
  function SkipTrivia(s: string): (r: Option<string>)
    decreases |s|, 1
  {
    SkipTrimmed(TrimSpace(s))
  }

  function SkipTrimmed(t: string): (r: Option<string>)
    decreases |t|, 0
  {
    if HasPrefix(t, "--") then
      var i := Index(t, "\n");
      if i >= 0 then SkipTrivia(t[i + 1..]) else None
    else if HasPrefix(t, "/*") then
      var i := Index(t, "*/");
      if i >= 0 then SkipTrivia(t[i + 2..]) else None
    else if HasPrefix(t, "(") then SkipTrivia(t[1..])
    else Some(t)
  }

  predicate EndsToken(c: char) {
    c == ' ' || c == '\t' || c == '\n' || c == '\r' || c == '('
  }

  function TokenEnd(s: string): (n: nat)
    ensures n <= |s| && (n == |s| || EndsToken(s[n]))
    ensures forall i :: 0 <= i < n ==> !EndsToken(s[i])
  {
    if s == [] || EndsToken(s[0]) then 0 else 1 + TokenEnd(s[1..])
  }

  function LeadingKeyword(sql: string): string {
    match SkipTrivia(sql)
    case None => ""
    case Some(t) => Upper(t[..TokenEnd(t)])
  }

  method ReadLeadingKeyword(sql: string) returns (keyword: string)
    ensures keyword == LeadingKeyword(sql)
  {
    var s := TrimSpace(sql);
    ghost var rest := SkipTrivia(sql);
    while true
      invariant SkipTrimmed(s) == rest
      decreases |s|
    {
      if HasPrefix(s, "--") {
        var i := Index(s, "\n");
        if i >= 0 {
          s := TrimSpace(s[i + 1..]);
          continue;
        }
        return "";
      } else if HasPrefix(s, "/*") {
        var i := Index(s, "*/");
        if i >= 0 {
          s := TrimSpace(s[i + 2..]);
          continue;
        }
        return "";
      } else if HasPrefix(s, "(") {
        s := TrimSpace(s[1..]);
        continue;
      }
      break;
    }
    var n := TokenLength(s);
    return Upper(s[..n]);
  }

  method TokenLength(s: string) returns (n: nat)
    ensures n == TokenEnd(s)
  {
    n := 0;
    while n < |s| && !EndsToken(s[n])
      invariant n <= |s|
      invariant TokenEnd(s) == n + TokenEnd(s[n..])
    {
      assert s[n..][1..] == s[n + 1..];
      n := n + 1;
    }
  }

  predicate IsBlank(sql: string) {
    LeadingKeyword(sql) == ""
  }

  predicate IsRowReturning(sql: string) {
    LeadingKeyword(sql) in {"SELECT", "WITH", "SHOW", "DESCRIBE", "DESC", "EXPLAIN", "EXISTS"}
  }

  predicate CanBound(sql: string) {
    LeadingKeyword(sql) in {"SELECT", "WITH"}
  }

  // --- Trivia, one piece at a time ------------------------------------------------------

  datatype Trivia = Space(c: char) | Paren | LineComment(body: string) | BlockComment(text: string)

  /** A block comment ends where the keyword reader finds its first closer. */
  predicate WellFormed(t: Trivia) {
    match t
    case Space(c) => IsSpace(c)
    case Paren => true
    case LineComment(body) => '\n' !in body
    case BlockComment(text) => HasPrefix(text, "/*") && Index(text, "*/") == |text| - 2
  }

  function Piece(t: Trivia): string {
    match t
    case Space(c) => [c]
    case Paren => "("
    case LineComment(body) => "--" + body + "\n"
    case BlockComment(text) => text
  }

  function Render(ts: seq<Trivia>): string {
    if ts == [] then "" else Piece(ts[0]) + Render(ts[1..])
  }

  predicate AllWellFormed(ts: seq<Trivia>) {
    forall i :: 0 <= i < |ts| ==> WellFormed(ts[i])
  }

  // One step of the reader, case by case.
  lemma SkipLine(t: string, i: nat)
    requires HasPrefix(t, "--") && Index(t, "\n") == i
    ensures SkipTrimmed(t) == SkipTrivia(t[i + 1..])
  {
  }

  lemma SkipBlock(t: string, i: nat)
    requires HasPrefix(t, "/*") && Index(t, "*/") == i
    ensures SkipTrimmed(t) == SkipTrivia(t[i + 2..])
  {
    assert t[0] == '/';
  }

  lemma SkipUnterminated(t: string)
    requires (HasPrefix(t, "--") && Index(t, "\n") < 0) || (HasPrefix(t, "/*") && Index(t, "*/") < 0)
    ensures SkipTrimmed(t) == None
  {
    assert t[0] == '-' || t[0] == '/';
  }

  lemma SkipNothing(t: string)
    requires !HasPrefix(t, "--") && !HasPrefix(t, "/*") && !HasPrefix(t, "(")
    ensures SkipTrimmed(t) == Some(t)
  {
  }

  lemma SkipParen(r: string)
    ensures SkipTrimmed("(" + r) == SkipTrivia(r)
  {
    var t := "(" + r;
    assert t[0] == '(' && t[1..] == r;
  }

  lemma UnterminatedKeyword(s: string, t: string)
    requires TrimSpace(s) == t
    requires (HasPrefix(t, "--") && Index(t, "\n") < 0) || (HasPrefix(t, "/*") && Index(t, "*/") < 0)
    ensures LeadingKeyword(s) == ""
  {
    SkipUnterminated(t);
  }

  lemma SameTrimSameKeyword(a: string, b: string)
    requires TrimSpace(a) == TrimSpace(b)
    ensures LeadingKeyword(a) == LeadingKeyword(b)
  {
  }

  lemma PrependSpace(c: char, s: string)
    requires IsSpace(c)
    ensures SkipTrivia([c] + s) == SkipTrivia(s)
  {
    assert ([c] + s)[1..] == s;
    var u := TrimLeft(s);
    assert [c] + s == ([c] + s[..|s| - |u|]) + u;
    TrimLeftIsParts([c] + s[..|s| - |u|], u);
  }

  // A piece x in front, and whitespace behind that the reader trims.
  lemma SkipPiece(x: string, s: string)
    requires x != [] && Trimmed(x)
    ensures SkipTrivia(x + s) == SkipTrimmed(x + TrimRight(s))
    ensures SkipTrivia(TrimRight(s)) == SkipTrivia(s)
  {
    TrimAfter(x, s);
    TrimSpaceOfRight(s);
  }

  lemma PrependParen(s: string)
    ensures SkipTrivia("(" + s) == SkipTrivia(s)
  {
    SkipParen(TrimRight(s));
    SkipPiece("(", s);
  }

  lemma PrependBlock(text: string, s: string)
    requires WellFormed(BlockComment(text))
    ensures SkipTrivia(text + s) == SkipTrivia(s)
  {
    BlockEdges(text);
    SkipWholeBlock(text, TrimRight(s), text + TrimRight(s));
    SkipPiece(text, s);
  }

  lemma BlockEdges(text: string)
    requires WellFormed(BlockComment(text))
    ensures text != [] && Trimmed(text)
  {
    var i := |text| - 2;
    AtPair(text, i, '*', '/');
    assert text[0] == text[..2][0];
  }

  lemma SkipWholeBlock(text: string, r: string, t: string)
    requires WellFormed(BlockComment(text)) && t == text + r
    ensures SkipTrimmed(t) == SkipTrivia(r)
  {
    IndexAppend(text, r, "*/");
    assert t[|text|..] == r && t[..2] == text[..2];
    SkipBlock(t, |text| - 2);
  }

  // A comment that never ends leaves nothing to read.
  lemma UnterminatedLine(t: string)
    requires HasPrefix(t, "--") && '\n' !in t
    ensures LeadingKeyword(t) == ""
  {
    var r := TrimRight(t[2..]);
    assert t == "--" + t[2..];
    TrimAfter("--", t[2..]);
    assert '\n' !in "--" + r by { assert forall i :: 0 <= i < |r| ==> r[i] == t[2 + i]; }
    IndexChar("--" + r, '\n');
    UnterminatedKeyword(t, "--" + r);
  }

  lemma IndexOfPrefix(u: string, y: string, sub: string)
    requires Index(u + y, sub) < 0
    ensures Index(u, sub) < 0
  {
    var i := Index(u, sub);
    if i >= 0 {
      AtAppend(u, y, i, sub);
    }
  }

  lemma UnterminatedBlock(t: string)
    requires HasPrefix(t, "/*") && Index(t, "*/") < 0
    ensures LeadingKeyword(t) == ""
  {
    var rest := t[2..];
    var r := TrimRight(rest);
    assert t == "/*" + rest;
    TrimAfter("/*", rest);
    assert t == ("/*" + r) + rest[|r|..];
    IndexOfPrefix("/*" + r, rest[|r|..], "*/");
    UnterminatedKeyword(t, "/*" + r);
  }

  lemma BlankKeyword(s: string)
    requires Blank(s)
    ensures LeadingKeyword(s) == ""
  {
    TrimSpaceEmpty(s);
    SkipNothing(TrimSpace(s));
  }

  lemma TrimRightAppend(a: string, s: string)
    requires !Blank(s)
    ensures TrimRight(a + s) == a + TrimRight(s)
  {
    var r := TrimRight(s);
    TrimRightCuts(s);
    assert s[0..] == s;
    assert a + s == (a + r) + s[|r|..];
    TrimRightIsParts(a + r, s[|r|..]);
  }

  lemma TrimLine(x: string, s: string)
    requires HasPrefix(x, "--") && !Blank(s)
    ensures TrimSpace(x + "\n" + s) == x + "\n" + TrimRight(s)
  {
    var y := x[2..] + "\n";
    assert x + "\n" + s == "--" + (y + s);
    TrimAfter("--", y + s);
    TrimRightAppend(y, s);
    assert x + "\n" + TrimRight(s) == "--" + (y + TrimRight(s));
  }

  lemma LineIntoText(x: string, s: string)
    requires HasPrefix(x, "--") && '\n' !in x && !Blank(s)
    ensures SkipTrivia(x + "\n" + s) == SkipTrivia(s)
  {
    var t := x + "\n" + TrimRight(s);
    TrimLine(x, s);
    FirstNewline(x, TrimRight(s));
    SkipLine(t, |x|);
    assert t[|x| + 1..] == TrimRight(s);
    TrimSpaceOfRight(s);
  }

  lemma LineIntoBlank(x: string, s: string)
    requires HasPrefix(x, "--") && '\n' !in x && Blank(s)
    ensures LeadingKeyword(x + "\n" + s) == LeadingKeyword(s)
  {
    BlankKeyword(s);
    var tail := "\n" + s;
    assert x + "\n" + s == x + tail;
    TrimRightBlankTail(x, tail);
    TrimSpaceOfRight(x + tail);
    TrimSpaceOfRight(x);
    SameTrimSameKeyword(x + tail, x);
    UnterminatedLine(x);
  }

  lemma PrependLine(body: string, s: string)
    requires '\n' !in body
    ensures LeadingKeyword("--" + body + "\n" + s) == LeadingKeyword(s)
    ensures !Blank(s) ==> SkipTrivia("--" + body + "\n" + s) == SkipTrivia(s)
  {
    if Blank(s) {
      LineIntoBlank("--" + body, s);
    } else {
      LineIntoText("--" + body, s);
    }
  }

  lemma PrependPiece(t: Trivia, s: string)
    requires WellFormed(t)
    ensures LeadingKeyword(Piece(t) + s) == LeadingKeyword(s)
    ensures !Blank(s) ==> SkipTrivia(Piece(t) + s) == SkipTrivia(s)
  {
    match t
    case Space(c) => PrependSpace(c, s);
    case Paren => PrependParen(s);
    case LineComment(body) => PrependLine(body, s);
    case BlockComment(text) => PrependBlock(text, s);
  }

  /** Prepending trivia never changes the keyword, nor where it is found. */
  lemma {:induction false} PrependTrivia(ts: seq<Trivia>, s: string)
    requires AllWellFormed(ts)
    ensures LeadingKeyword(Render(ts) + s) == LeadingKeyword(s)
    ensures !Blank(s) ==> SkipTrivia(Render(ts) + s) == SkipTrivia(s)
  {
    PrependWhole(ts, s, Render(ts) + s);
  }

  lemma {:induction false} PrependWhole(ts: seq<Trivia>, s: string, whole: string)
    requires AllWellFormed(ts) && whole == Render(ts) + s
    ensures LeadingKeyword(whole) == LeadingKeyword(s)
    ensures !Blank(s) ==> SkipTrivia(whole) == SkipTrivia(s)
  {
    if ts == [] {
      assert whole == s;
    } else {
      var rest := Render(ts[1..]) + s;
      assert whole == Piece(ts[0]) + rest;
      PrependWhole(ts[1..], s, rest);
      assert Blank(rest) ==> Blank(s) by { BlankAppend(Render(ts[1..]), s); }
      PrependPiece(ts[0], rest);
    }
  }

  // --- Where the reader stops -------------------------------------------------------------

  /** The trivia at the head of a text. */
  function Lead(s: string): (ts: seq<Trivia>)
    ensures AllWellFormed(ts)
    ensures |Render(ts)| <= |s| && s[..|Render(ts)|] == Render(ts)
    decreases |s|
  {
    if s == [] then []
    else if IsSpace(s[0]) then Consume(s, Space(s[0]))
    else if s[0] == '(' then Consume(s, Paren)
    else if HasPrefix(s, "--") && Index(s, "\n") >= 0 then
      var i := Index(s, "\n");
      assert LineAt(s, i) by { LineCut(s); }
      Consume(s, LineComment(s[2..i]))
    else if HasPrefix(s, "/*") && Index(s, "*/") >= 0 then
      var i := Index(s, "*/");
      assert WellFormed(BlockComment(s[..i + 2])) by { FirstClosed(s, i); }
      Consume(s, BlockComment(s[..i + 2]))
    else []
  }

  function Consume(s: string, t: Trivia): (ts: seq<Trivia>)
    requires WellFormed(t) && Piece(t) != "" && |Piece(t)| <= |s| && s[..|Piece(t)|] == Piece(t)
    ensures AllWellFormed(ts)
    ensures |Render(ts)| <= |s| && s[..|Render(ts)|] == Render(ts)
    decreases |s|, 0
  {
    var ts := Lead(s[|Piece(t)|..]);
    ConsumedOneMore(s, t, ts);
    [t] + ts
  }

  lemma RenderCons(t: Trivia, ts: seq<Trivia>)
    ensures Render([t] + ts) == Piece(t) + Render(ts)
  {
    assert ([t] + ts)[1..] == ts;
  }

  lemma ConsumedOneMore(s: string, t: Trivia, ts: seq<Trivia>)
    requires WellFormed(t) && |Piece(t)| <= |s| && s[..|Piece(t)|] == Piece(t)
    requires AllWellFormed(ts) && |Render(ts)| <= |s| - |Piece(t)| && s[|Piece(t)|..][..|Render(ts)|] == Render(ts)
    ensures AllWellFormed([t] + ts)
    ensures |Render([t] + ts)| <= |s| && s[..|Render([t] + ts)|] == Render([t] + ts)
  {
    RenderCons(t, ts);
    TakeTwice(s, Piece(t), Render(ts));
  }

  lemma TakeTwice(s: string, p: string, r: string)
    requires |p| + |r| <= |s| && s[..|p|] == p && s[|p|..][..|r|] == r
    ensures s[..|p + r|] == p + r
  {
  }

  predicate LineAt(s: string, i: int) {
    2 <= i < |s| && '\n' !in s[2..i] && s[..i + 1] == "--" + s[2..i] + "\n"
  }

  lemma LineCut(s: string)
    requires HasPrefix(s, "--") && Index(s, "\n") >= 0
    ensures LineAt(s, Index(s, "\n"))
  {
    var i := Index(s, "\n");
    IndexChar(s, '\n');
    assert s[0..2] == "--";
    assert s[0] == s[0..2][0] && s[1] == s[0..2][1];
    assert s[..i + 1] == s[0..2] + s[2..i] + [s[i]];
  }

  lemma FirstClosed(s: string, i: nat)
    requires HasPrefix(s, "/*") && Index(s, "*/") == i
    ensures WellFormed(BlockComment(s[..i + 2]))
  {
    var x, y := s[..i + 2], s[i + 2..];
    assert s == x + y;
    assert i != 0 by { assert s[0..2][0] == '/'; }
    forall j | 0 <= j <= i ensures At(x, j, "*/") == At(s, j, "*/") {
      AtAppend(x, y, j, "*/");
    }
    IndexIs(x, "*/", i);
  }

  /** What the reader stops at. */
  function Rest(s: string): string {
    s[|Render(Lead(s))|..]
  }

  predicate Unterminated(s: string) {
    (HasPrefix(s, "--") && '\n' !in s) || (HasPrefix(s, "/*") && Index(s, "*/") < 0)
  }

  predicate StartsKeyword(s: string) {
    s != [] && !IsSpace(s[0]) && s[0] != '(' && !HasPrefix(s, "--") && !HasPrefix(s, "/*")
  }

  lemma LeadEmpty(s: string)
    requires Lead(s) == []
    ensures s == [] || Unterminated(s) || StartsKeyword(s)
  {
    IndexChar(s, '\n');
  }

  lemma LeadStep(s: string)
    requires Lead(s) != []
    ensures var n := |Piece(Lead(s)[0])|; 0 < n <= |s| && Lead(s)[1..] == Lead(s[n..])
  {
  }

  // What stops the reader: nothing left, an endless comment, or the keyword.
  lemma {:induction false} RestSettled(s: string)
    ensures Rest(s) == [] || Unterminated(Rest(s)) || StartsKeyword(Rest(s))
    decreases |s|
  {
    var ts := Lead(s);
    if ts == [] {
      LeadEmpty(s);
      assert Render(ts) == [] && Rest(s) == s;
    } else {
      LeadStep(s);
      var n := |Piece(ts[0])|;
      RestSettled(s[n..]);
      assert |Render(ts)| == n + |Render(Lead(s[n..]))|;
      assert Rest(s) == Rest(s[n..]);
    }
  }

  lemma LeadAndRest(s: string)
    ensures s == Render(Lead(s)) + Rest(s)
  {
    assert s == s[..|Render(Lead(s))|] + s[|Render(Lead(s))|..];
  }

  lemma KeywordOfRest(s: string)
    ensures s == Render(Lead(s)) + Rest(s)
    ensures LeadingKeyword(s) == LeadingKeyword(Rest(s))
    ensures !Blank(Rest(s)) ==> SkipTrivia(s) == SkipTrivia(Rest(s))
  {
    LeadAndRest(s);
    PrependWhole(Lead(s), Rest(s), s);
  }

  // A text that starts with a keyword is its own stopping point.
  lemma KeywordStops(s: string)
    requires StartsKeyword(s)
    ensures !Blank(s) && SkipTrivia(s) == Some(TrimRight(s))
    ensures TokenEnd(TrimRight(s)) > 0
  {
    var r := TrimRight(s);
    TrimSpaceOfSolidStart(s);
    TrimRightCuts(s);
    assert s[0..] == s;
    SkipNothing(r);
  }

  predicate NothingToRun(sql: string, ts: seq<Trivia>, tail: string) {
    AllWellFormed(ts) && sql == Render(ts) + tail && (tail == [] || Unterminated(tail))
  }

  /** Exactly which texts count as blank: trivia, and perhaps one comment that never ends. The
      trivia include opening parens, which the tool descriptions do not mention. */
  lemma BlankIff(sql: string)
    ensures IsBlank(sql) <==> exists ts, tail :: NothingToRun(sql, ts, tail)
  {
    if IsBlank(sql) {
      KeywordOfRest(sql);
      RestSettled(sql);
      if StartsKeyword(Rest(sql)) { KeywordNonEmpty(Rest(sql)); }
      assert NothingToRun(sql, Lead(sql), Rest(sql));
    }
    forall ts, tail | NothingToRun(sql, ts, tail) ensures IsBlank(sql) {
      PrependTrivia(ts, tail);
      SettledBlank(tail);
    }
  }

  /** A lone opening paren counts as blank. */
  lemma ParenIsBlank(sql: string)
    requires sql == "("
    ensures IsBlank(sql)
  {
    PrependParen("");
    assert "(" + "" == sql;
    BlankKeyword("");
  }

  lemma SettledBlank(tail: string)
    requires tail == [] || Unterminated(tail)
    ensures LeadingKeyword(tail) == ""
  {
    if tail == [] {
      BlankKeyword(tail);
    } else if HasPrefix(tail, "--") && '\n' !in tail {
      UnterminatedLine(tail);
    } else {
      UnterminatedBlock(tail);
    }
  }

  lemma UpperOfToken(s: string, t: string)
    requires SkipTrivia(s) == Some(t)
    ensures |LeadingKeyword(s)| == TokenEnd(t)
  {
  }

  lemma KeywordNonEmpty(s: string)
    requires StartsKeyword(s)
    ensures LeadingKeyword(s) != ""
  {
    KeywordStops(s);
    UpperOfToken(s, TrimRight(s));
  }

  lemma {:induction false} TokenEndIs(s: string, n: nat)
    requires n <= |s| && (n == |s| || EndsToken(s[n])) && forall i :: 0 <= i < n ==> !EndsToken(s[i])
    ensures TokenEnd(s) == n
  {
    if n == 0 {
    } else {
      TokenEndIs(s[1..], n - 1);
    }
  }

  lemma KeywordIsToken(s: string)
    requires StartsKeyword(s)
    ensures var n := |LeadingKeyword(s)|;
            && n <= |TrimRight(s)| && n == TokenEnd(TrimRight(s)) && LeadingKeyword(s) == Upper(TrimRight(s)[..n])
  {
    KeywordStops(s);
    UpperOfToken(s, TrimRight(s));
  }

  lemma SpaceBehind(s: string)
    ensures forall i :: |TrimRight(s)| <= i < |s| ==> IsSpace(s[i])
  {
    TrimRightCuts(s);
    var n := |TrimRight(s)|;
    assert forall i :: n <= i < |s| ==> s[i] == s[n..][i - n];
  }

  // The whole keyword, cut off behind, keeps the token.
  lemma TokenOfPrefix(r: string, r': string, n: nat)
    requires r' <= r && n <= |r'| && n > 0 && n == TokenEnd(TrimRight(r)) && !IsSpace(r[n - 1])
    ensures n <= |TrimRight(r')| && TokenEnd(TrimRight(r')) == n && TrimRight(r')[..n] == TrimRight(r)[..n]
  {
    var t, t' := TrimRight(r), TrimRight(r');
    TrimRightCuts(r);
    TrimRightCuts(r');
    SpaceBehind(r);
    SpaceBehind(r');
    assert r'[n - 1] == r[n - 1];
    assert n <= |t'| <= |t|;
    assert forall i :: 0 <= i < n ==> t'[i] == t[i];
    TokenEndIs(t', n);
  }

  /** A text cut off behind its keyword keeps the keyword. */
  lemma KeywordOfPrefix(r: string, r': string)
    requires StartsKeyword(r) && r' <= r && 0 < |LeadingKeyword(r)| <= |r'|
    requires !IsSpace(r[|LeadingKeyword(r)| - 1])
    ensures LeadingKeyword(r') == LeadingKeyword(r)
  {
    KeywordIsToken(r);
    TokenOfPrefix(r, r', |LeadingKeyword(r)|);
    assert StartsKeyword(r');
    KeywordIsToken(r');
  }

  // --- The two comment skippers -------------------------------------------------------------

  /** The reader and the scanner agree on where a block comment ends unless its text begins with
      a slash: there the reader takes the opener's own star for the closer's. */
  lemma BlockEndsAgree(s: string)
    requires HasPrefix(s, "/*") && Index(s, "*/") >= 0
    ensures Run(Normal, s[..Index(s, "*/") + 2]) == Normal <==> !HasPrefix(s, "/*/")
  {
    var i := Index(s, "*/");
    AtPair(s, 0, '*', '/');
    AtPair(s, 1, '*', '/');
    AtPair(s, i, '*', '/');
    assert |s| > 2 ==> s[..3] == [s[0], s[1], s[2]];
    if HasPrefix(s, "/*/") {
      assert i == 1;
      Tokens.BlockRuns(s, 3);
    } else {
      assert i > 1;
      Tokens.BlockRuns(s, i + 1);
      RunStep(Normal, s, i + 1);
    }
  }

  predicate SlashFree(ts: seq<Trivia>) {
    forall i :: 0 <= i < |ts| && ts[i].BlockComment? ==> !HasPrefix(ts[i].text, "/*/")
  }

  lemma PieceRun(t: Trivia)
    requires WellFormed(t) && (t.BlockComment? ==> !HasPrefix(t.text, "/*/"))
    ensures Run(Normal, Piece(t)) == Normal
  {
    match t
    case Space(c) =>
      RunStep(Normal, [c], 0);
      assert [c][..1] == [c] && [c][..0] == [];
    case Paren =>
      var p := ['('];
      RunStep(Normal, p, 0);
      assert p[..1] == p && p[..0] == [];
    case LineComment(body) =>
      var line := Piece(t);
      var n := |line| - 1;
      assert line[2..n] == body;
      Tokens.LineRuns(line, n);
      RunStep(Normal, line, n);
      assert line[..n + 1] == line;
    case BlockComment(text) =>
      BlockEndsAgree(text);
      assert text[..|text|] == text;
  }

  lemma {:induction false} TriviaRun(ts: seq<Trivia>)
    requires AllWellFormed(ts) && SlashFree(ts)
    ensures Run(Normal, Render(ts)) == Normal
  {
    if ts == [] {
    } else {
      PieceRun(ts[0]);
      TriviaRun(ts[1..]);
      RunAppend(Normal, Piece(ts[0]), Render(ts[1..]));
    }
  }

  lemma {:induction false} RenderSnoc(ts: seq<Trivia>, k: nat)
    requires k < |ts|
    ensures Render(ts[..k + 1]) == Render(ts[..k]) + Piece(ts[k])
  {
    if k == 0 {
      assert ts[..1] == [ts[0]] && ts[..0] == [] && ts[..1][1..] == [];
    } else {
      RenderSnoc(ts[1..], k - 1);
      assert ts[..k + 1][1..] == ts[1..][..k] && ts[..k][1..] == ts[1..][..k - 1];
    }
  }

  /** The two comment skippers agree at every stop exactly when no block comment begins with a
      slash: then, and only then, the scanner is in its normal state after each piece of trivia
      that the reader skips. */
  lemma SkippersAgreeIff(ts: seq<Trivia>)
    requires AllWellFormed(ts)
    ensures (forall k :: 0 <= k <= |ts| ==> Run(Normal, Render(ts[..k])) == Normal) <==> SlashFree(ts)
  {
    if SlashFree(ts) {
      forall k | 0 <= k <= |ts| ensures Run(Normal, Render(ts[..k])) == Normal {
        TriviaRun(ts[..k]);
      }
    } else {
      var k :| 0 <= k < |ts| && ts[k].BlockComment? && HasPrefix(ts[k].text, "/*/");
      RenderSnoc(ts, k);
      RunAppend(Normal, Render(ts[..k]), ts[k].text);
      BlockEndsAgree(ts[k].text);
      assert WellFormed(ts[k]);
      assert ts[k].text[..|ts[k].text|] == ts[k].text;
      assert Run(Normal, Render(ts[..k])) == Normal ==> Run(Normal, Render(ts[..k + 1])) != Normal;
    }
  }

  /** Where the reader stops to read a keyword, the scanner is outside every literal and
      comment, as long as no comment before it begins with a slash. */
  lemma KeywordInOpenText(sql: string)
    ensures !IsBlank(sql) ==> SkipTrivia(sql) == Some(TrimRight(Rest(sql)))
    ensures SlashFree(Lead(sql)) ==> Run(Normal, sql[..|sql| - |Rest(sql)|]) == Normal
  {
    if SlashFree(Lead(sql)) { TriviaRun(Lead(sql)); }
    KeywordOfRest(sql);
    RestSettled(sql);
    if StartsKeyword(Rest(sql)) {
      KeywordStops(Rest(sql));
    } else {
      SettledBlank(Rest(sql));
    }
  }

  lemma PlainKeyword(s: string)
    requires StartsKeyword(s) && Trimmed(s) && forall i :: 0 <= i < |s| ==> !EndsToken(s[i])
    ensures LeadingKeyword(s) == Upper(s)
  {
    TrimmedIsFixed(s);
    SkipNothing(s);
    TokenIsWhole(s);
    assert s[..|s|] == s;
  }

  lemma {:induction false} TokenIsWhole(s: string)
    requires forall i :: 0 <= i < |s| ==> !EndsToken(s[i])
    ensures TokenEnd(s) == |s|
  {
    if s != [] { TokenIsWhole(s[1..]); }
  }

  lemma SlashComment(text: string)
    requires text == "/*/"
    ensures WellFormed(BlockComment(text)) && Run(Normal, text) == Block
  {
    AtPair(text, 0, '*', '/');
    AtPair(text, 1, '*', '/');
    IndexIs(text, "*/", 1);
    Tokens.BlockRuns(text, 3);
    assert text[..3] == text;
  }

  /** Without the side condition they part: the reader sees a SELECT that the scanner still
      takes for comment text. */
  lemma SkippersDisagree(text: string, select: string)
    requires text == "/*/" && select == "SELECT"
    ensures LeadingKeyword(text + select) == select
    ensures Run(Normal, text) == Block
  {
    SlashComment(text);
    PrependPiece(BlockComment(text), select);
    SelectKeyword(select);
  }

  lemma SelectKeyword(select: string)
    requires select == "SELECT"
    ensures LeadingKeyword(select) == select
  {
    PlainKeyword(select);
    assert Upper(select) == select;
  }
}
