/** Queries on which the output-clause gate is wrong: clauses it does not see, and one it sees that is
    none. */
module GateExamples {
  import opened Text
  import opened OutputClause
  import opened OutputGate
  import opened FinalFormat

  predicate NoF(s: string) {
    forall i :: 0 <= i < |s| ==> UpperChar(s[i]) != 'F'
  }

  lemma WordsHoldF(u: string, j: int)
    ensures At(u, j, "FORMAT ") ==> u[j] == 'F'
    ensures At(u, j, "INTO OUTFILE") ==> u[j + 8] == 'F'
  {
    if At(u, j, "FORMAT ") { assert u[j..j + 7][0] == u[j]; }
    if At(u, j, "INTO OUTFILE") { assert u[j..j + 12][8] == u[j + 8]; }
  }

  lemma NothingWithoutF(u: string)
    requires 'F' !in u
    ensures !NamesOutfile(u) && !EndsInFormat(u)
  {
    forall j: int ensures !At(u, j, "FORMAT ") && !At(u, j, "INTO OUTFILE") && !At(u, j, "INTO OUTFILE ") {
      WordsHoldF(u, j);
      OutfileSpace(u, j);
    }
  }

  lemma TrimmedHasNoF(s: string)
    requires NoF(s)
    ensures NoF(TrimTerminators(TrimSpace(s)))
  {
    var lead, tail := TrimSpaceParts(s);
    var t := TrimSpace(s);
    assert forall i :: 0 <= i < |t| ==> t[i] == s[|lead| + i];
    TrimTerminatorsCuts(t);
  }

  // Both words of the gate hold an F.
  lemma GateNeedsF(q: string)
    requires NoF(StripLineComments(q))
    ensures !HasUnsupportedOutputClause(q)
  {
    TrimmedHasNoF(StripLineComments(q));
    NothingWithoutF(Shown(q));
  }

  lemma LineHasNoF(q: string)
    requires '\n' !in q && NoF(q)
    ensures !HasUnsupportedOutputClause(q)
  {
    StripAlone(q);
    GateNeedsF(q);
  }

  lemma HiddenOnLine(q: string, x: string)
    requires '\n' !in q && NoF(q) && Contains(q, "--") && '\n' !in x
    ensures !HasUnsupportedOutputClause(q + x)
  {
    LastLineAlone(q);
    DashesHide(q, x, []);
    assert q + x + [] == q + x && q + [] == q;
    LineHasNoF(q);
  }

  lemma NoDash(s: string)
    requires '-' !in s
    ensures StripLineComments(s) == s && !Contains(s, "--")
  {
    forall i: int ensures !At(s, i, "--") { AtPair(s, i, '-', '-'); }
    StripWithoutComment(s);
  }

  // --- Clauses that are not seen -----------------------------------------------------------------

  /** Two dashes inside a literal hide the clause. */
  lemma LiteralHidesFormat(q: string)
    requires q == "SELECT '--'"
    ensures !HasUnsupportedOutputClause(q + " FORMAT JSON")
  {
    AtPair(q, 8, '-', '-');
    HiddenOnLine(q, " FORMAT JSON");
  }

  lemma NoFBelow(line: string, r: string, s: string)
    requires s == line + "\n" + r && NoF(line) && NoF(r)
    ensures NoF(s)
  {
    forall i | 0 <= i < |s| ensures UpperChar(s[i]) != 'F' {
      if i > |line| { assert s[i] == r[i - |line| - 1]; }
    }
  }

  lemma TwoLines(q: string, r: string, s: string)
    requires s == q + "\n" + r && '\n' !in q && NoF(q) && NoF(r) && '-' !in r
    ensures !HasUnsupportedOutputClause(s)
  {
    StripCons(q, r, s);
    NoDash(r);
    StripLineIsHead(q);
    NoFBelow(StripLine(q), r, StripLineComments(s));
    GateNeedsF(s);
  }

  lemma HiddenThenLine(q: string, y: string, rest: string, r: string)
    requires '\n' !in q && NoF(q) && Contains(q, "--") && '\n' !in y
    requires rest == "\n" + r && NoF(r) && '-' !in r
    ensures !HasUnsupportedOutputClause(q + y + rest)
  {
    LastLineAlone(q);
    DashesHide(q, y, rest);
    assert q + rest == q + "\n" + r;
    TwoLines(q, r, q + rest);
  }

  lemma StripLineIsHead(q: string)
    requires NoF(q)
    ensures NoF(StripLine(q))
  {
  }

  /** So they do when a space follows the word and the name is on the next line. */
  lemma DashesHideTwoLines(q: string, y: string, rest: string)
    requires q == "SELECT '--'" && y == " FORMAT " && rest == "\nJSON"
    ensures !HasUnsupportedOutputClause(q + y + rest)
  {
    AtPair(q, 8, '-', '-');
    assert rest == "\n" + "JSON";
    HiddenThenLine(q, y, rest, "JSON");
  }

  predicate NoU(s: string) {
    forall i :: 0 <= i < |s| ==> UpperChar(s[i]) != 'U'
  }

  lemma NoOutfile(s: string)
    requires NoU(StripLineComments(s))
    ensures !NamesOutfile(Shown(s))
  {
    var u := Shown(s);
    ShownOnly(StripLineComments(s));
    forall j: int ensures !At(u, j, "INTO OUTFILE") && !At(u, j, "INTO OUTFILE ") {
      OutfileSpace(u, j);
      if At(u, j, "INTO OUTFILE") { OutfileChars(u, j); }
    }
  }

  // What the gate looks at is the text itself, cut at both ends and in upper case.
  lemma ShownOnly(s: string)
    ensures var u := ShownOf(s); forall i :: 0 <= i < |u| ==> exists k :: 0 <= k < |s| && u[i] == UpperChar(s[k])
  {
    var lead, tail := TrimSpaceParts(s);
    var t := TrimSpace(s);
    TrimTerminatorsCuts(t);
    var u := ShownOf(s);
    forall i | 0 <= i < |u| ensures exists k :: 0 <= k < |s| && u[i] == UpperChar(s[k]) {
      assert t[i] == s[|lead| + i];
    }
  }

  // No dash, and no U, which an outfile would need.
  predicate Plainly(s: string) {
    '-' !in s && NoU(s)
  }

  lemma PlainlyTwo(a: string, b: string)
    requires Plainly(a) && Plainly(b)
    ensures Plainly(a + b)
  {
  }

  // A clause after plain text, which the gate judges by its spacing alone.
  lemma JudgedBySpacing(q: string, fmt: string, sep: string, name: string, t: string)
    requires Plainly(q) && Plainly(fmt) && Plainly(sep) && Plainly(name) && Plainly(t)
    requires Upper(fmt) == "FORMAT" && sep != "" && Filler(sep) && name != "" && IsIdentifier(name) && Filler(t)
    ensures HasUnsupportedOutputClause(q + (fmt + sep + name) + t) <==> Refused(q, sep, name, t)
  {
    var sql := q + (fmt + sep + name) + t;
    PlainlyTwo(fmt, sep);
    PlainlyTwo(fmt + sep, name);
    PlainlyTwo(q, fmt + sep + name);
    PlainlyTwo(q + (fmt + sep + name), t);
    NoDash(sql);
    NoOutfile(sql);
    FormatVerdict(sql, q, fmt, sep, name, t);
  }

  lemma FormatUpper(fmt: string)
    requires fmt == "FORMAT" || fmt == "format"
    ensures Upper(fmt) == "FORMAT"
  {
    assert |Upper(fmt)| == 6;
    assert forall i :: 0 <= i < 6 ==> Upper(fmt)[i] == "FORMAT"[i];
  }

  /** A newline after the word lets the clause through. */
  lemma NewlineHidesFormat(q: string, w: string, name: string)
    requires q == "SELECT 1 " && w == "\n" && name == "JSON"
    ensures !HasUnsupportedOutputClause(q + ("FORMAT" + w + name) + "")
  {
    FormatUpper("FORMAT");
    IdleFiller(w);
    IdleFiller("");
    JudgedBySpacing(q, "FORMAT", w, name, "");
  }

  // What follows the name and is not whitespace lets the clause through.
  lemma HiddenByTrail(q: string, fmt: string, sep: string, name: string, t: string)
    requires Plainly(q) && Plainly(fmt) && Plainly(sep) && Plainly(name) && Plainly(t)
    requires Upper(fmt) == "FORMAT" && sep != "" && Filler(sep) && name != "" && IsIdentifier(name) && Filler(t)
    requires !Blank(Left(t))
    ensures !HasUnsupportedOutputClause(q + (fmt + sep + name) + t)
  {
    JudgedBySpacing(q, fmt, sep, name, t);
  }

  // The trims leave what is neither whitespace nor a semicolon.
  lemma LeftHolds(t: string, i: nat)
    requires i < |t| && !IsSpace(t[i]) && t[i] != ';'
    ensures !Blank(Left(t))
  {
    LeftKeeps(t, i);
    assert Left(t)[i] == t[i];
  }

  lemma CommentIsPlain(t: string, name: string)
    requires t == " /* c */" && name == "JSON"
    ensures Plainly(t) && Plainly(name) && IsIdentifier(name)
  {
  }

  /** A comment behind the name lets it through. */
  lemma CommentHidesFormat(q: string, t: string, name: string)
    requires q == "SELECT 1 " && t == " /* c */" && name == "JSON"
    ensures !HasUnsupportedOutputClause(q + ("FORMAT" + " " + name) + t)
  {
    FormatUpper("FORMAT");
    IdleFiller(" ");
    CommentFiller(t);
    CommentIsPlain(t, name);
    HiddenByTrail(q, "FORMAT", " ", name, t);
  }

  lemma CommentFiller(t: string)
    requires t == " /* c */"
    ensures Filler(t) && !Blank(Left(t))
  {
    var c := t[1..];
    assert c == "/* c */";
    AtPair(c, 5, '*', '/');
    forall j | 2 <= j < 5 ensures !At(c, j, "*/") { AtPair(c, j, '*', '/'); }
    IdleFiller(c[7..]);
    LeftHolds(t, 7);
  }

  /** A newline after the word lets an outfile through. */
  lemma NewlineHidesOutfile(sql: string)
    requires sql == "SELECT 1 INTO OUTFILE\n'x'"
    ensures !HasUnsupportedOutputClause(sql)
  {
    OutfileExampleIsPlain(sql);
    OutfileExampleShown(sql);
    OneOutfile(Shown(sql));
  }

  lemma OutfileExampleIsPlain(sql: string)
    requires sql == "SELECT 1 INTO OUTFILE\n'x'"
    ensures StripLineComments(sql) == sql
  {
    assert |sql| == 25 && forall i :: 0 <= i < 25 ==> sql[i] != '-';
    NoDash(sql);
  }

  lemma OutfileExampleShown(sql: string)
    requires sql == "SELECT 1 INTO OUTFILE\n'x'" && StripLineComments(sql) == sql
    ensures Shown(sql) == "SELECT 1 INTO OUTFILE\n'X'"
  {
    TrimmedIsFixed(sql);
    assert sql + [] == sql;
    TrimTerminatorsIsParts(sql, []);
    var u := "SELECT 1 INTO OUTFILE\n'X'";
    assert |u| == |sql| == 25;
    assert forall i :: 0 <= i < 25 ==> UpperChar(sql[i]) == u[i];
    assert Upper(sql) == u;
  }

  lemma FormatHoldsM(u: string, j: int)
    ensures At(u, j, "FORMAT ") ==> u[j + 3] == 'M'
  {
    if At(u, j, "FORMAT ") { assert u[j..j + 7][3] == u[j + 3]; }
  }

  lemma OneOutfile(u: string)
    requires u == "SELECT 1 INTO OUTFILE\n'X'"
    ensures !NamesOutfile(u) && !EndsInFormat(u)
  {
    assert u[21] == '\n' && |u| == 25;
    assert forall i :: 0 <= i < |u| && u[i] == 'U' ==> i == 15;
    assert forall i :: 0 <= i < |u| ==> u[i] != 'M';
    forall j: int ensures At(u, j, "INTO OUTFILE") ==> j == 9 {
      if At(u, j, "INTO OUTFILE") { OutfileChars(u, j); }
    }
    forall j: int ensures !At(u, j, "INTO OUTFILE ") { OutfileSpace(u, j); }
    forall j: int ensures !At(u, j, "FORMAT ") { FormatHoldsM(u, j); }
    assert !EndsInFormat(u);
  }

  // --- A clause that is none ---------------------------------------------------------------------------

  // A word of that name, a space and one more word: refused, whatever they are.
  lemma WordsRefused(q: string, fmt: string, name: string)
    requires Plainly(q) && Plainly(fmt) && Plainly(name) && q != "" && q[|q| - 1] == ' '
    requires Upper(fmt) == "FORMAT" && name != "" && IsIdentifier(name)
    ensures HasUnsupportedOutputClause(q + (fmt + " " + name) + "")
  {
    IdleFiller(" ");
    IdleFiller("");
    NothingLeft("");
    JudgedBySpacing(q, fmt, " ", name, "");
  }

  /** A column of that name in a descending order is taken for a clause. */
  lemma ColumnTakenForClause(q: string, fmt: string, name: string)
    requires q == "SELECT format FROM t ORDER BY " && fmt == "format" && name == "DESC"
    ensures HasUnsupportedOutputClause(q + (fmt + " " + name) + "")
  {
    FormatUpper(fmt);
    WordsRefused(q, fmt, name);
  }
}
