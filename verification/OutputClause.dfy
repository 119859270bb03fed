/** The output-clause gate of internal/query/result.go and the line-based comment stripper it
    relies on: a third view of comments, besides the scanner's and the keyword reader's. */
module OutputClause {
  import opened Text
  import opened Lexer

  // --- The stripper -----------------------------------------------------------------------

  function SplitLines(s: string): (lines: seq<string>)
    ensures lines != []
    decreases |s|
  {
    var i := Index(s, "\n");
    if i < 0 then [s] else [s[..i]] + SplitLines(s[i + 1..])
  }

  function JoinLines(lines: seq<string>): string
    requires lines != []
  {
    if |lines| == 1 then lines[0] else lines[0] + "\n" + JoinLines(lines[1..])
  }

  function StripLine(line: string): string {
    var j := Index(line, "--");
    if j >= 0 then line[..j] else line
  }

  /** The text without its line comments, line by line. */
  function StripLineComments(s: string): string
    decreases |s|
  {
    var i := Index(s, "\n");
    if i < 0 then StripLine(s) else StripLine(s[..i]) + "\n" + StripLineComments(s[i + 1..])
  }

  lemma {:induction false} StripIsJoin(s: string, lines: seq<string>)
    requires |lines| == |SplitLines(s)|
    requires forall i :: 0 <= i < |lines| ==> lines[i] == StripLine(SplitLines(s)[i])
    ensures JoinLines(lines) == StripLineComments(s)
    decreases |s|
  {
    IndexChar(s, '\n');
    var i := Index(s, "\n");
    if i >= 0 {
      var rest := SplitLines(s[i + 1..]);
      assert SplitLines(s)[1..] == rest;
      forall k | 0 <= k < |rest| ensures lines[1..][k] == StripLine(rest[k]) {
        assert SplitLines(s)[k + 1] == rest[k];
      }
      StripIsJoin(s[i + 1..], lines[1..]);
    }
  }

  method Strip(sql: string) returns (stripped: string)
    ensures stripped == StripLineComments(sql)
  {
    var split := SplitLines(sql);
    var lines := new string[|split|](i requires 0 <= i < |split| => split[i]);
    for i := 0 to lines.Length
      invariant forall k :: 0 <= k < i ==> lines[k] == StripLine(split[k])
      invariant forall k :: i <= k < lines.Length ==> lines[k] == split[k]
    {
      var j := Index(lines[i], "--");
      if j >= 0 {
        lines[i] := lines[i][..j];
      }
    }
    StripIsJoin(sql, lines[..]);
    stripped := JoinLines(lines[..]);
  }

  // --- The gate ---------------------------------------------------------------------------

  predicate IsIdentChar(c: char) {
    c == '_' || '0' <= c <= '9' || 'A' <= c <= 'Z' || 'a' <= c <= 'z'
  }

  predicate IsIdentifier(s: string) {
    forall i :: 0 <= i < |s| ==> IsIdentChar(s[i])
  }

  method CheckIdentifier(s: string) returns (ok: bool)
    ensures ok <==> IsIdentifier(s)
  {
    for i := 0 to |s|
      invariant forall k :: 0 <= k < i ==> IsIdentChar(s[k])
    {
      if !IsIdentChar(s[i]) {
        return false;
      }
    }
    return true;
  }

  /** The text the gate looks at. */
  function Shown(sql: string): string {
    ShownOf(StripLineComments(sql))
  }

  function ShownOf(stripped: string): string {
    Upper(TrimTerminators(TrimSpace(stripped)))
  }

  predicate NamesOutfile(upper: string) {
    HasSuffix(upper, "INTO OUTFILE") || Contains(upper, "INTO OUTFILE ")
  }

  predicate EndsInFormat(upper: string) {
    var idx := LastIndex(upper, "FORMAT ");
    && idx >= 0
    && !(idx > 0 && IsIdentChar(upper[idx - 1]))
    && var tail := TrimSpace(upper[idx + 7..]);
       tail != "" && IsIdentifier(tail)
  }

  predicate HasUnsupportedOutputClause(sql: string) {
    NamesOutfile(Shown(sql)) || EndsInFormat(Shown(sql))
  }

  // --- The stripper refines the scanner -----------------------------------------------------

  /** Whether the scanner, entering s in mode m, takes the first character for part of a line
      comment: it runs into one, or the character is the first dash of an opener. */
  predicate InLineComment(m: Mode, s: string)
    requires s != []
  {
    Step(m, s[0]) == Line || (Step(m, s[0]) == Dash && |s| > 1 && s[1] == '-')
  }

  /** s without the characters the scanner takes for line comments. */
  function Uncommented(m: Mode, s: string): string
    decreases |s|
  {
    if s == [] then ""
    else (if InLineComment(m, s) then "" else [s[0]]) + Uncommented(Step(m, s[0]), s[1..])
  }

  predicate QuoteFree(s: string) {
    forall i :: 0 <= i < |s| ==> s[i] != '\'' && s[i] != '"' && s[i] != '`'
  }

  lemma NoDashes(s: string)
    requires !Contains(s, "--")
    ensures forall i :: 0 <= i && i + 1 < |s| && s[i] == '-' ==> s[i + 1] != '-'
  {
    forall i | 0 <= i && i + 1 < |s| && s[i] == '-' ensures s[i + 1] != '-' {
      AtPair(s, i, '-', '-');
    }
  }

  lemma NoOpener(s: string)
    requires !Contains(s, "/*")
    ensures forall i :: 0 <= i && i + 1 < |s| && s[i] == '/' ==> s[i + 1] != '*'
  {
    forall i | 0 <= i && i + 1 < |s| && s[i] == '/' ensures s[i + 1] != '*' {
      AtPair(s, i, '/', '*');
    }
  }

  lemma ContainsTail(s: string, k: nat, sub: string)
    requires k <= |s| && !Contains(s, sub)
    ensures !Contains(s[k..], sub)
  {
    forall i ensures !At(s[k..], i, sub) {
      if At(s[k..], i, sub) {
        assert s[k..][i..i + |sub|] == s[k + i..k + i + |sub|];
        assert At(s, k + i, sub);
      }
    }
  }

  // Within a line comment everything goes, up to the newline.
  lemma {:induction false} DropComment(s: string, n: nat)
    requires n <= |s| && '\n' !in s[..n]
    ensures Uncommented(Line, s) == Uncommented(Line, s[n..])
  {
    if n == 0 {
      assert s[0..] == s;
    } else {
      assert s[0] == s[..n][0];
      assert s[1..][..n - 1] == s[..n][1..];
      DropComment(s[1..], n - 1);
      assert s[1..][n - 1..] == s[n..];
    }
  }

  lemma KeepOne(m: Mode, kept: string, c: char, rest: string, x: string)
    requires x == [c] + rest && !InLineComment(m, x)
    ensures kept + Uncommented(m, x) == (kept + [c]) + Uncommented(Step(m, c), rest)
  {
    assert x[0] == c && x[1..] == rest;
    assert kept + ([c] + Uncommented(Step(m, c), rest)) == (kept + [c]) + Uncommented(Step(m, c), rest);
  }

  // The scanner stays in open text on a character that opens nothing with the next one.
  predicate Quiet(m: Mode, s: string, n: nat)
    requires n <= |s|
  {
    Open(m) && (m == Dash ==> n == |s| || s[n] != '-') && (m == Slash ==> n == |s| || s[n] != '*')
  }

  // Open, quote-free text with no comment opener among its first n characters is kept.
  lemma {:induction false} KeepText(m: Mode, s: string, n: nat)
    requires n <= |s| && QuoteFree(s) && Quiet(m, s, 0)
    requires forall i :: 0 <= i < n && s[i] == '-' && i + 1 < |s| ==> s[i + 1] != '-'
    requires forall i :: 0 <= i < |s| && s[i] == '/' && i + 1 < |s| ==> s[i + 1] != '*'
    ensures Quiet(Run(m, s[..n]), s, n)
    ensures Uncommented(m, s) == s[..n] + Uncommented(Run(m, s[..n]), s[n..])
  {
    if n == 0 {
      assert s[..0] == [] && s[0..] == s;
    } else {
      KeepText(m, s, n - 1);
      RunStep(m, s, n - 1);
      assert s[..n] == s[..n - 1] + [s[n - 1]];
      assert s[n - 1..] == [s[n - 1]] + s[n..];
      assert s[n..] != [] ==> s[n - 1..][1] == s[n];
      KeepOne(Run(m, s[..n - 1]), s[..n - 1], s[n - 1], s[n..], s[n - 1..]);
    }
  }

  // What follows a line: nothing, or a newline and the rest.
  lemma AfterLine(m: Mode, s: string, n: nat)
    requires n <= |s| && (n < |s| ==> s[n] == '\n')
    requires m == Line || Open(m)
    ensures Uncommented(m, s[n..]) == if n < |s| then "\n" + Uncommented(Normal, s[n + 1..]) else ""
  {
    if n < |s| {
      assert s[n..][1..] == s[n + 1..];
    }
  }

  lemma FromOpener(m: Mode, x: string)
    requires (m == Normal || m == Slash) && |x| >= 2 && x[0] == '-' && x[1] == '-'
    ensures Uncommented(m, x) == Uncommented(Line, x[2..])
  {
    assert x[1..][0] == '-' && x[1..][1..] == x[2..];
    assert InLineComment(m, x) && InLineComment(Dash, x[1..]);
  }

  lemma CommentedLine(s: string, n: nat, j: nat)
    requires QuoteFree(s) && !Contains(s, "/*") && n <= |s| && '\n' !in s[..n]
    requires n < |s| ==> s[n] == '\n'
    requires j + 2 <= n && s[j] == '-' && s[j + 1] == '-'
    requires forall i :: 0 <= i < j && s[i] == '-' && i + 1 < |s| ==> s[i + 1] != '-'
    ensures Uncommented(Normal, s) == s[..j] + Uncommented(Line, s[n..])
  {
    NoOpener(s);
    KeepText(Normal, s, j);
    var x := s[j..];
    FromOpener(Run(Normal, s[..j]), x);
    assert x[2..] == s[j + 2..];
    var y := s[j + 2..];
    assert y[..n - j - 2] == s[..n][j + 2..];
    DropComment(y, n - j - 2);
    assert y[n - j - 2..] == s[n..];
  }

  lemma PlainLine(s: string, n: nat)
    requires QuoteFree(s) && !Contains(s, "/*") && n <= |s|
    requires n < |s| ==> s[n] == '\n'
    requires !Contains(s[..n], "--")
    ensures Open(Run(Normal, s[..n])) && Uncommented(Normal, s) == s[..n] + Uncommented(Run(Normal, s[..n]), s[n..])
  {
    NoOpener(s);
    NoDashesInLine(s, n);
    KeepText(Normal, s, n);
  }

  lemma NoDashesInLine(s: string, n: nat)
    requires n <= |s| && (n < |s| ==> s[n] == '\n') && !Contains(s[..n], "--")
    ensures forall i :: 0 <= i < n && s[i] == '-' && i + 1 < |s| ==> s[i + 1] != '-'
  {
    NoDashes(s[..n]);
    assert forall i :: 0 <= i < n ==> s[..n][i] == s[i];
  }

  lemma OpenerInLine(s: string, n: nat, j: nat)
    requires n <= |s| && Index(s[..n], "--") == j
    ensures j + 2 <= n && s[j] == '-' && s[j + 1] == '-'
    ensures forall i :: 0 <= i < j && s[i] == '-' && i + 1 < |s| ==> s[i + 1] != '-'
    ensures StripLine(s[..n]) == s[..j]
  {
    var line := s[..n];
    assert line[j..j + 2] == "--";
    assert s[j] == line[j..j + 2][0] && s[j + 1] == line[j..j + 2][1];
    NoDashesBefore(line, j);
    forall i | 0 <= i < j && s[i] == '-' && i + 1 < |s| ensures s[i + 1] != '-' {
      assert line[i] == s[i] && line[i + 1] == s[i + 1];
    }
    assert s[..j] == line[..j];
  }

  // One line, followed by nothing or by a newline.
  lemma StripOneLine(s: string, n: nat)
    requires QuoteFree(s) && !Contains(s, "/*") && n <= |s| && '\n' !in s[..n]
    requires n < |s| ==> s[n] == '\n'
    ensures Uncommented(Normal, s)
         == StripLine(s[..n]) + if n < |s| then "\n" + Uncommented(Normal, s[n + 1..]) else ""
  {
    var j := Index(s[..n], "--");
    if j >= 0 {
      OpenerInLine(s, n, j);
      CommentedLine(s, n, j);
      AfterLine(Line, s, n);
    } else {
      PlainLine(s, n);
      AfterLine(Run(Normal, s[..n]), s, n);
    }
  }

  lemma NoDashesBefore(line: string, j: nat)
    requires Index(line, "--") == j
    ensures forall i :: 0 <= i < j && line[i] == '-' && i + 1 < |line| ==> line[i + 1] != '-'
  {
    forall i | 0 <= i < j && line[i] == '-' && i + 1 < |line| ensures line[i + 1] != '-' {
      AtPair(line, i, '-', '-');
    }
  }

  lemma StripLineKeeps(line: string)
    requires '\n' !in line
    ensures '\n' !in StripLine(line) && !Contains(StripLine(line), "--")
    ensures StripLine(StripLine(line)) == StripLine(line)
  {
    var j := Index(line, "--");
    if j >= 0 {
      var x := line[..j];
      forall i ensures !At(x, i, "--") {
        if At(x, i, "--") {
          assert x[i..i + 2] == line[i..i + 2];
          assert At(line, i, "--");
        }
      }
    }
  }

  lemma StripCons(line: string, rest: string, whole: string)
    requires '\n' !in line && whole == line + "\n" + rest
    ensures StripLineComments(whole) == StripLine(line) + "\n" + StripLineComments(rest)
  {
    FirstNewline(line, rest);
    assert whole[..|line|] == line && whole[|line| + 1..] == rest;
  }

  lemma StripAlone(s: string)
    requires '\n' !in s
    ensures StripLineComments(s) == StripLine(s)
  {
    IndexChar(s, '\n');
  }

  lemma CutLine(q: string) returns (line: string, rest: string)
    requires '\n' in q
    ensures q == line + "\n" + rest && '\n' !in line
  {
    IndexChar(q, '\n');
    var i := Index(q, "\n");
    line, rest := q[..i], q[i + 1..];
  }

  lemma UncommentedCons(line: string, rest: string, s: string)
    requires QuoteFree(s) && !Contains(s, "/*") && s == line + "\n" + rest && '\n' !in line
    ensures Uncommented(Normal, s) == StripLine(line) + "\n" + Uncommented(Normal, rest)
  {
    var n := |line|;
    assert s[..n] == line && s[n] == '\n' && s[n + 1..] == rest;
    StripOneLine(s, n);
  }

  lemma TailIsClean(line: string, rest: string, s: string)
    requires QuoteFree(s) && !Contains(s, "/*") && s == line + "\n" + rest
    ensures QuoteFree(rest) && !Contains(rest, "/*")
  {
    assert s[|line| + 1..] == rest;
    ContainsTail(s, |line| + 1, "/*");
  }

  /** On text without quotes and block comments the stripper deletes exactly the characters the
      scanner takes for line comments. */
  lemma {:induction false} StripRefinesScanner(s: string)
    requires QuoteFree(s) && !Contains(s, "/*")
    ensures StripLineComments(s) == Uncommented(Normal, s)
    decreases |s|
  {
    if '\n' in s {
      var line, rest := CutLine(s);
      UncommentedCons(line, rest, s);
      TailIsClean(line, rest, s);
      StripCons(line, rest, s);
      StripRefinesScanner(rest);
    } else {
      assert s[..|s|] == s;
      StripOneLine(s, |s|);
      StripAlone(s);
    }
  }

  /** Stripping twice is stripping once. */
  lemma {:induction false} StripIdempotent(s: string)
    ensures StripLineComments(StripLineComments(s)) == StripLineComments(s)
    decreases |s|
  {
    if '\n' in s {
      var line, rest := CutLine(s);
      StripIdempotent(rest);
      StripLineKeeps(line);
      StripCons(line, rest, s);
      StripCons(StripLine(line), StripLineComments(rest), StripLineComments(s));
    } else {
      StripLineKeeps(s);
      StripAlone(s);
      StripAlone(StripLine(s));
    }
  }

  // --- Text appended to a query ----------------------------------------------------------------

  function LastLine(s: string): string
    decreases |s|
  {
    var i := Index(s, "\n");
    if i < 0 then s else LastLine(s[i + 1..])
  }

  lemma AtHead(s: string, k: nat, i: int, sub: string)
    requires k <= |s|
    ensures At(s[..k], i, sub) ==> At(s, i, sub)
  {
    if 0 <= i && i + |sub| <= k { assert s[..k][i..i + |sub|] == s[i..i + |sub|]; }
  }

  lemma ContainsHead(s: string, k: nat, sub: string)
    requires k <= |s| && !Contains(s, sub)
    ensures !Contains(s[..k], sub)
  {
    forall i: int ensures !At(s[..k], i, sub) { AtHead(s, k, i, sub); }
  }

  lemma {:induction false} StripWithoutComment(s: string)
    requires !Contains(s, "--")
    ensures StripLineComments(s) == s
    decreases |s|
  {
    IndexChar(s, '\n');
    var i := Index(s, "\n");
    if i >= 0 {
      ContainsHead(s, i, "--");
      ContainsTail(s, i + 1, "--");
      StripWithoutComment(s[i + 1..]);
      assert s == s[..i] + [s[i]] + s[i + 1..];
    }
  }

  lemma NoDashesAppend(q: string, x: string)
    requires !Contains(q, "--") && !Contains(x, "--") && (x == [] || x[0] != '-')
    ensures !Contains(q + x, "--")
  {
    var t := q + x;
    forall i: int ensures !At(t, i, "--") {
      AtPair(t, i, '-', '-');
      AtPair(q, i, '-', '-');
      AtPair(x, i - |q|, '-', '-');
    }
  }

  lemma LastLineCons(line: string, rest: string, whole: string)
    requires '\n' !in line && whole == line + "\n" + rest
    ensures LastLine(whole) == LastLine(rest)
  {
    FirstNewline(line, rest);
    assert whole[|line| + 1..] == rest;
  }

  lemma Glue(a: string, b: string, c: string)
    ensures a + "\n" + (b + c) == (a + "\n" + b) + c
  {
  }

  // Comment-free text appended to a last line without a comment comes through as it is.
  lemma {:induction false} StripAppend(q: string, x: string, whole: string)
    requires whole == q + x
    requires !Contains(LastLine(q), "--") && !Contains(x, "--") && (x == [] || x[0] != '-')
    ensures StripLineComments(whole) == StripLineComments(q) + x
    decreases |q|
  {
    if '\n' in q {
      var line, rest := CutLine(q);
      StripCons(line, rest, q);
      LastLineCons(line, rest, q);
      StripAppend(rest, x, rest + x);
      Glue(line, rest, x);
      StripCons(line, rest + x, whole);
      Glue(StripLine(line), StripLineComments(rest), x);
    } else {
      AppendToLine(q, x);
    }
  }

  lemma AppendToLine(q: string, x: string)
    requires '\n' !in q
    requires !Contains(LastLine(q), "--") && !Contains(x, "--") && (x == [] || x[0] != '-')
    ensures StripLineComments(q + x) == StripLineComments(q) + x
  {
    LastLineAlone(q);
    NoDashesAppend(q, x);
    StripWithoutComment(q);
    StripWithoutComment(q + x);
  }

  lemma LastLineAlone(q: string)
    requires '\n' !in q
    ensures LastLine(q) == q
  {
    IndexChar(q, '\n');
  }

  // After two dashes on the last line the stripper drops everything up to the next newline.
  lemma {:induction false} StripSwallows(q: string, y: string, rest: string, long: string, short: string)
    requires Contains(LastLine(q), "--") && '\n' !in y && (rest == [] || rest[0] == '\n')
    requires long == q + y + rest && short == q + rest
    ensures StripLineComments(long) == StripLineComments(short)
    decreases |q|
  {
    if '\n' in q {
      var line, below := CutLine(q);
      LastLineCons(line, below, q);
      StripSwallows(below, y, rest, below + y + rest, below + rest);
      Below(line, below, y, rest);
      StripCons(line, below + y + rest, long);
      StripCons(line, below + rest, short);
    } else {
      LastLineAlone(q);
      SwallowOnLine(q, y, rest, long, short);
    }
  }

  lemma Below(line: string, below: string, y: string, rest: string)
    ensures (line + "\n" + below) + y + rest == line + "\n" + (below + y + rest)
    ensures (line + "\n" + below) + rest == line + "\n" + (below + rest)
  {
  }

  lemma StripLineSwallows(q: string, y: string)
    requires Contains(q, "--")
    ensures StripLine(q + y) == StripLine(q)
  {
    IndexAppend(q, y, "--");
    var j := Index(q, "--");
    assert (q + y)[..j] == q[..j];
  }

  lemma SwallowOnLine(q: string, y: string, rest: string, long: string, short: string)
    requires '\n' !in q && Contains(q, "--") && '\n' !in y && (rest == [] || rest[0] == '\n')
    requires long == q + y + rest && short == q + rest
    ensures StripLineComments(long) == StripLineComments(short)
  {
    StripLineSwallows(q, y);
    if rest == [] {
      assert long == q + y && short == q;
      StripAlone(q + y);
      StripAlone(q);
    } else {
      var r := rest[1..];
      assert rest == "\n" + r;
      assert long == (q + y) + "\n" + r && short == q + "\n" + r;
      StripCons(q + y, r, long);
      StripCons(q, r, short);
    }
  }

  /** Two dashes on the last line hide whatever follows on it from the gate, be they a comment's or
      inside a literal. */
  lemma DashesHide(q: string, y: string, rest: string)
    requires Contains(LastLine(q), "--") && '\n' !in y && (rest == [] || rest[0] == '\n')
    ensures HasUnsupportedOutputClause(q + y + rest) <==> HasUnsupportedOutputClause(q + rest)
  {
    StripSwallows(q, y, rest, q + y + rest, q + rest);
  }
}
