/** A final FORMAT clause, however it is written and whatever it follows: exactly when the gate of
    internal/query/result.go refuses it. */
module FinalFormat {
  import opened Text
  import opened OutputClause
  import opened OutputGate

  // --- What may stand around the words --------------------------------------------------------

  /** Whitespace, semicolons and block comments. */
  predicate Filler(s: string)
    decreases |s|
  {
    || s == ""
    || ((IsSpace(s[0]) || s[0] == ';') && Filler(s[1..]))
    || (HasPrefix(s, "/*") && IndexFrom(s, "*/", 2) >= 0 && Filler(s[IndexFrom(s, "*/", 2) + 2..]))
  }

  predicate Idle(s: string) {
    forall i :: 0 <= i < |s| ==> IsSpace(s[i]) || s[i] == ';'
  }

  // The last closer of a comment.
  predicate Closes(s: string, p: nat) {
    p < |s| && s[p] == '/' && forall i :: p < i < |s| ==> IsSpace(s[i]) || s[i] == ';'
  }

  lemma {:induction false} FillerEnds(s: string) returns (p: nat)
    requires Filler(s)
    ensures Idle(s) || Closes(s, p)
    decreases |s|
  {
    p := 0;
    if s == "" {
    } else if IsSpace(s[0]) || s[0] == ';' {
      p := FillerEnds(s[1..]);
      p := p + 1;
    } else {
      var j := IndexFrom(s, "*/", 2);
      AtPair(s, j, '*', '/');
      p := FillerEnds(s[j + 2..]);
      p := if Idle(s[j + 2..]) then j + 1 else p + j + 2;
    }
  }

  lemma {:induction false} IdleGap(s: string)
    requires Idle(s)
    ensures Gap(s)
  {
    if !Blank(s) {
      var n := |s| - 1;
      if s[n] == ';' {
        assert GapEnd(s, n);
      } else {
        IdleGap(s[..n]);
        assert s == s[..n] + [s[n]];
        var p :| 0 <= p < n && GapEnd(s[..n], p);
        assert GapEnd(s, p);
      }
    }
  }

  lemma ClosesGap(s: string, p: nat)
    requires Closes(s, p)
    ensures Gap(s)
  {
    var tail := s[p + 1..];
    assert forall i :: p < i < |s| ==> s[i] == tail[i - p - 1];
    IdleGap(tail);
    if Blank(tail) {
      assert GapEnd(s, p);
    } else {
      var q :| 0 <= q < |tail| && GapEnd(tail, q);
      assert GapEnd(s, p + 1 + q);
    }
  }

  lemma FillerGap(s: string)
    requires Filler(s)
    ensures Gap(s)
  {
    var p := FillerEnds(s);
    if Idle(s) { IdleGap(s); } else { ClosesGap(s, p); }
  }

  /** What the gate's trims leave of the text after a clause. */
  function Left(t: string): string {
    TrimTerminators(TrimRight(t))
  }

  lemma LeftCuts(t: string)
    ensures var n := |Left(t)|; n <= |t| && Left(t) == t[..n] && Idle(t[n..])
  {
    var r, l := TrimRight(t), Left(t);
    TrimRightCuts(t);
    TrimTerminatorsCuts(r);
    assert t[|l|..] == r[|l|..] + t[|r|..];
  }

  // The trims stop at anything else.
  lemma LeftKeeps(t: string, p: nat)
    requires p < |t| && !IsSpace(t[p]) && t[p] != ';'
    ensures p < |Left(t)| <= |t| && Left(t) == t[..|Left(t)|]
  {
    LeftCuts(t);
    var n := |Left(t)|;
    assert forall i :: n <= i < |t| ==> t[i] == t[n..][i - n];
  }

  lemma LeftIdle(t: string)
    requires Idle(t)
    ensures Gap(Left(t))
  {
    LeftCuts(t);
    IdleGap(Left(t));
  }

  lemma LeftCloses(t: string, p: nat)
    requires Closes(t, p)
    ensures Gap(Left(t))
  {
    LeftKeeps(t, p);
    ClosesGap(Left(t), p);
  }

  lemma LeftGap(t: string)
    requires Filler(t)
    ensures Gap(Left(t))
  {
    var p := FillerEnds(t);
    if Idle(t) { LeftIdle(t); } else { LeftCloses(t, p); }
  }

  // --- What the gate looks at -------------------------------------------------------------------

  // s is whitespace followed by t.
  predicate EndsIn(s: string, t: string) {
    |t| <= |s| && t == s[|s| - |t|..] && Blank(s[..|s| - |t|])
  }

  lemma TrimFront(q: string, x: string) returns (b: string)
    requires x != "" && !IsSpace(x[0])
    ensures TrimLeft(q + x) == b + x && EndsIn(q, b)
  {
    if Blank(q) {
      b := "";
      assert q[..|q|] == q;
      TrimLeftIsParts(q, x);
    } else {
      b := TrimLeft(q);
      TrimLeftCuts(q);
      var lead := q[..|q| - |b|];
      assert q[..|q|] == q;
      assert q + x == lead + (b + x);
      TrimLeftIsParts(lead, b + x);
    }
  }

  lemma TrimBehind(a: string, t: string)
    requires a != "" && !IsSpace(a[|a| - 1]) && !IsTerminator(a[|a| - 1])
    ensures TrimTerminators(TrimRight(a + t)) == a + Left(t)
  {
    var r, l := TrimRight(t), Left(t);
    TrimRightCuts(t);
    assert a + t == (a + r) + t[|r|..];
    TrimRightIsParts(a + r, t[|r|..]);
    TrimTerminatorsCuts(r);
    assert a + r == (a + l) + r[|l|..];
    TrimTerminatorsIsParts(a + l, r[|l|..]);
  }

  lemma UpperIsFormat(fmt: string)
    requires Upper(fmt) == "FORMAT"
    ensures |fmt| == 6 && !IsSpace(fmt[0]) && forall i :: 0 <= i < 6 ==> fmt[i] != '-' && fmt[i] != '\n'
  {
    assert UpperChar(fmt[0]) == 'F';
    forall i | 0 <= i < 6 ensures fmt[i] != '-' && fmt[i] != '\n' {
      assert UpperChar(fmt[i]) == "FORMAT"[i];
      assert UpperChar('-') == '-' && UpperChar('\n') == '\n';
    }
  }

  lemma CoreEdges(fmt: string, sep: string, name: string, core: string)
    requires Upper(fmt) == "FORMAT" && name != "" && IsIdentifier(name) && core == fmt + sep + name
    ensures core != "" && !IsSpace(core[0]) && !IsSpace(core[|core| - 1]) && !IsTerminator(core[|core| - 1])
  {
    UpperIsFormat(fmt);
    assert core[0] == fmt[0] && core[|core| - 1] == name[|name| - 1];
    assert IsIdentChar(name[|name| - 1]);
  }

  lemma Trims(s: string, q: string, core: string, t: string) returns (b: string)
    requires s == q + core + t
    requires core != "" && !IsSpace(core[0]) && !IsSpace(core[|core| - 1]) && !IsTerminator(core[|core| - 1])
    ensures TrimTerminators(TrimSpace(s)) == b + core + Left(t) && EndsIn(q, b)
  {
    assert s == q + (core + t);
    b := TrimFront(q, core + t);
    assert b + (core + t) == (b + core) + t;
    assert (b + core)[|b + core| - 1] == core[|core| - 1];
    TrimBehind(b + core, t);
  }

  lemma UpperThree(a: string, b: string, c: string)
    ensures Upper(a + b + c) == Upper(a) + Upper(b) + Upper(c)
  {
    UpperAppend(a + b, c);
    UpperAppend(a, b);
  }

  lemma ShownParts(s: string, q: string, fmt: string, sep: string, name: string, t: string) returns (b: string)
    requires s == q + (fmt + sep + name) + t && Upper(fmt) == "FORMAT" && name != "" && IsIdentifier(name)
    ensures ShownOf(s) == Upper(b) + ("FORMAT" + Upper(sep) + Upper(name)) + Upper(Left(t)) && EndsIn(q, b)
  {
    var core := fmt + sep + name;
    CoreEdges(fmt, sep, name, core);
    b := Trims(s, q, core, t);
    UpperThree(b, core, Left(t));
    UpperThree(fmt, sep, name);
  }

  // --- The verdict ------------------------------------------------------------------------------------

  lemma UpperCharKeeps(c: char)
    ensures IsSpace(UpperChar(c)) <==> IsSpace(c)
    ensures UpperChar(c) == ' ' <==> c == ' '
    ensures IsSpace(c) || c == '/' || c == ';' ==> UpperChar(c) == c
    ensures IsIdentChar(c) ==> IsIdentChar(UpperChar(c))
  {
  }

  lemma UpperKeeps(s: string)
    ensures Blank(Upper(s)) <==> Blank(s)
    ensures Blank(s) ==> Upper(s) == s
    ensures IsIdentifier(s) ==> IsIdentifier(Upper(s))
    ensures s != "" ==> (Upper(s)[0] == ' ' <==> s[0] == ' ')
  {
    forall i | 0 <= i < |s|
      ensures IsSpace(Upper(s)[i]) <==> IsSpace(s[i])
      ensures IsSpace(s[i]) ==> Upper(s)[i] == s[i]
      ensures Upper(s)[i] == ' ' <==> s[i] == ' '
      ensures IsIdentChar(s[i]) ==> IsIdentChar(Upper(s)[i])
    {
      UpperCharKeeps(s[i]);
    }
  }

  lemma GapUpper(s: string)
    requires Gap(s)
    ensures Gap(Upper(s))
  {
    UpperKeeps(s);
    if !Blank(s) {
      var p :| 0 <= p < |s| && GapEnd(s, p);
      forall i | 0 <= i < |s|
        ensures IsSpace(s[i]) ==> IsSpace(Upper(s)[i])
        ensures s[i] == '/' || s[i] == ';' ==> Upper(s)[i] == s[i]
      {
        UpperCharKeeps(s[i]);
      }
      assert GapEnd(Upper(s), p);
    }
  }

  // A clause in upper case: parts, then positions.
  lemma FinalOfParts(u: string, b: string, sep: string, name: string, l: string, f: nat, n: nat, t: nat)
    requires u == b + ("FORMAT" + sep + name) + l && f == |b| && n == f + 6 + |sep| && t == n + |name|
    requires sep != "" && Gap(sep) && Gap(l) && name != "" && IsIdentifier(name)
    ensures t + |l| == |u| && Final(u, f, n, t)
    ensures u[..f] == b && u[f + 6..n] == sep && u[n..t] == name && u[t..] == l
  {
    assert u[f..f + 6] == "FORMAT";
    assert u[f + 6..n] == sep && u[n..t] == name && u[t..] == l;
    assert u[f + 6] == sep[0];
    assert forall i :: n <= i < t ==> u[i] == name[i - n];
  }

  /** What stands around and between the words of a clause for the gate to see it. */
  predicate Refused(q: string, sep: string, name: string, t: string)
    requires sep != ""
  {
    && sep[0] == ' ' && Blank(sep) && Blank(Left(t))
    && (q == "" || !IsIdentChar(UpperChar(q[|q| - 1])))
    && !(Left(t) != "" && Left(t)[0] == ' ' && HasSuffix(Upper(name), "FORMAT"))
  }

  lemma SeenIff(u: string, b: string, sep: string, name: string, l: string, f: nat, n: nat, t: nat)
    requires f + 6 < n <= t <= |u| && u[..f] == b && u[f + 6..n] == sep && u[n..t] == name && u[t..] == l
    ensures Seen(u, f, n, t) <==>
              && sep[0] == ' ' && Blank(sep) && Blank(l)
              && (b == "" || !IsIdentChar(b[|b| - 1]))
              && !(l != "" && l[0] == ' ' && HasSuffix(name, "FORMAT"))
  {
    AgainInName(u, n, t, name);
    assert u[f + 6] == sep[0] && (t < |u| ==> u[t] == l[0]);
    assert f > 0 ==> u[f - 1] == b[f - 1];
    assert forall i :: f + 6 <= i < n ==> u[i] == sep[i - f - 6];
    assert forall i :: t <= i < |u| ==> u[i] == l[i - t];
    assert forall i :: 0 <= i < |sep| ==> sep[i] == u[f + 6 + i];
    assert forall i :: 0 <= i < |l| ==> l[i] == u[t + i];
  }

  // The edge in front, in the query and in what is left of it.
  lemma FrontEdge(q: string, b: string)
    requires EndsIn(q, b)
    ensures (Upper(b) == "" || !IsIdentChar(Upper(b)[|b| - 1])) <==> (q == "" || !IsIdentChar(UpperChar(q[|q| - 1])))
  {
    if b == "" {
      if q != "" {
        assert IsSpace(q[..|q|][|q| - 1]);
        UpperCharKeeps(q[|q| - 1]);
      }
    } else {
      assert b[|b| - 1] == q[|q| - 1];
    }
  }

  // The verdict on text in upper case.
  lemma UpperVerdict(u: string, b: string, sep: string, name: string, l: string)
    requires u == b + ("FORMAT" + sep + name) + l
    requires sep != "" && Gap(sep) && Gap(l) && name != "" && IsIdentifier(name)
    ensures EndsInFormat(u) <==>
              && sep[0] == ' ' && Blank(sep) && Blank(l)
              && (b == "" || !IsIdentChar(b[|b| - 1]))
              && !(l != "" && l[0] == ' ' && HasSuffix(name, "FORMAT"))
  {
    var f, n, t := |b|, |b| + 6 + |sep|, |b| + 6 + |sep| + |name|;
    FinalOfParts(u, b, sep, name, l, f, n, t);
    FinalIff(u, f, n, t);
    SeenIff(u, b, sep, name, l, f, n, t);
  }

  lemma VerdictOnShown(u: string, q: string, b: string, sep: string, name: string, t: string)
    requires u == Upper(b) + ("FORMAT" + Upper(sep) + Upper(name)) + Upper(Left(t)) && EndsIn(q, b)
    requires sep != "" && Gap(sep) && Gap(Left(t)) && name != "" && IsIdentifier(name)
    ensures EndsInFormat(u) <==> Refused(q, sep, name, t)
  {
    UpperKeeps(sep);
    UpperKeeps(name);
    UpperKeeps(Left(t));
    GapUpper(sep);
    GapUpper(Left(t));
    UpperVerdict(u, Upper(b), Upper(sep), Upper(name), Upper(Left(t)));
    FrontEdge(q, b);
  }

  /** The gate's exact verdict on a final FORMAT clause: after any text, with any whitespace and block
      comments between the word and the name, and with these and semicolons behind, as they stand
      without the line comments. It refuses the query for an outfile named anywhere, and otherwise
      exactly when the word stands by itself with a space behind, only whitespace is between it and
      the name, and what the trims leave behind the name is whitespace. */
  lemma FormatVerdict(sql: string, q: string, fmt: string, sep: string, name: string, t: string)
    requires StripLineComments(sql) == q + (fmt + sep + name) + t
    requires Upper(fmt) == "FORMAT" && sep != "" && Filler(sep) && name != "" && IsIdentifier(name) && Filler(t)
    ensures HasUnsupportedOutputClause(sql) <==> NamesOutfile(Shown(sql)) || Refused(q, sep, name, t)
  {
    var b := ShownParts(StripLineComments(sql), q, fmt, sep, name, t);
    FillerGap(sep);
    LeftGap(t);
    VerdictOnShown(Shown(sql), q, b, sep, name, t);
  }

  // --- INTO OUTFILE ----------------------------------------------------------------------------------

  lemma WordsOfParts(u: string, b: string, into: string, w: string, l: string)
    requires u == b + (into + w + "OUTFILE") + l && into == "INTO" && w != "" && Blank(w)
    ensures var i, f := |b|, |b| + 4 + |w|; Words(u, i, f) && u[..i] == b && u[i + 4..f] == w && u[f + 7..] == l
  {
    var i, f := |b|, |b| + 4 + |w|;
    assert u[i..i + 4] == into && u[i + 4..f] == w && u[f..f + 7] == "OUTFILE" && u[f + 7..] == l;
    assert u[i] == into[0] && u[i + 1] == into[1] && u[i + 2] == into[2] && u[i + 3] == into[3];
    assert forall k :: i + 4 <= k < f ==> u[k] == w[k - i - 4];
  }

  lemma WordEdges(into: string, w: string, outfile: string, core: string)
    requires Upper(into) == "INTO" && Upper(outfile) == "OUTFILE" && core == into + w + outfile
    ensures core != "" && !IsSpace(core[0]) && !IsSpace(core[|core| - 1]) && !IsTerminator(core[|core| - 1])
  {
    assert |into| == |Upper(into)| == 4 && |outfile| == |Upper(outfile)| == 7;
    assert UpperChar(into[0]) == 'I' && UpperChar(outfile[6]) == 'E';
    UpperCharKeeps(into[0]);
    UpperCharKeeps(outfile[6]);
    assert core[0] == into[0] && core[|core| - 1] == outfile[6];
  }

  lemma ShownWords(s: string, q: string, into: string, w: string, outfile: string, t: string) returns (b: string)
    requires s == q + (into + w + outfile) + t && Upper(into) == "INTO" && Upper(outfile) == "OUTFILE" && Blank(w)
    ensures EndsIn(q, b) && ShownOf(s) == Upper(b) + ("INTO" + w + "OUTFILE") + Upper(Left(t))
  {
    var core := into + w + outfile;
    WordEdges(into, w, outfile, core);
    b := Trims(s, q, core, t);
    UpperThree(b, core, Left(t));
    UpperThree(into, w, outfile);
    UpperKeeps(w);
  }

  lemma OutfileShown(u: string, b: string, w: string, l: string)
    requires u == b + ("INTO" + w + "OUTFILE") + l && w != "" && Blank(w)
    requires !Contains(b, "OUTFILE") && !Contains(l, "OUTFILE")
    ensures NamesOutfile(u) <==> w == " " && (l == "" || l[0] == ' ')
  {
    var i, f := |b|, |b| + 4 + |w|;
    WordsOfParts(u, b, "INTO", w, l);
    WordsIff(u, i, f);
    assert u[i + 4] == u[i + 4..f][0] == w[0];
    assert l != "" ==> u[f + 7] == u[f + 7..][0];
  }

  /** The verdict on an INTO OUTFILE clause, where the word stands nowhere else: seen exactly when one
      space is between the words, and behind them a space, or nothing that the trims leave. */
  lemma OutfileVerdict(sql: string, q: string, into: string, w: string, outfile: string, t: string)
    requires StripLineComments(sql) == q + (into + w + outfile) + t
    requires Upper(into) == "INTO" && w != "" && Blank(w) && Upper(outfile) == "OUTFILE"
    requires !Contains(Upper(q), "OUTFILE") && !Contains(Upper(Left(t)), "OUTFILE")
    ensures NamesOutfile(Shown(sql)) <==> w == " " && (Left(t) == "" || Left(t)[0] == ' ')
  {
    var b := ShownWords(StripLineComments(sql), q, into, w, outfile, t);
    EndsInUpper(q, b);
    ContainsAfterBlank(Upper(q), Upper(b), "OUTFILE");
    OutfileShown(Shown(sql), Upper(b), w, Upper(Left(t)));
    UpperKeeps(Left(t));
  }

  // --- A clause of plain words ------------------------------------------------------------------------

  // The letters of FORMAT, then whitespace, then an identifier, after a text.
  predicate Clause(u: string, before: string, w: string, name: string) {
    && u == before + "FORMAT" + w + name
    && w != [] && Blank(w) && name != [] && IsIdentifier(name)
  }

  lemma ClauseChars(u: string, before: string, w: string, name: string, i: nat)
    requires Clause(u, before, w, name) && |before| <= i < |u|
    ensures i < |before| + 6 ==> u[i] == "FORMAT"[i - |before|]
    ensures |before| + 6 <= i < |before| + 6 + |w| ==> u[i] == w[i - |before| - 6] && IsSpace(u[i])
    ensures |before| + 6 + |w| <= i ==> IsIdentChar(u[i])
  {
    if |before| + 6 + |w| <= i {
      assert u[i] == name[i - |before| - 6 - |w|];
    }
  }

  lemma OutfileChars(u: string, j: int)
    requires At(u, j, "INTO OUTFILE")
    ensures u[j] == 'I' && u[j + 4] == ' ' && u[j + 9] == 'I'
    ensures u[j + 1] == 'N' && u[j + 2] == 'T' && u[j + 3] == 'O' && u[j + 5] == 'O' && u[j + 6] == 'U'
    ensures u[j + 7] == 'T' && u[j + 10] == 'L' && u[j + 11] == 'E'
  {
    var o := u[j..j + 12];
    assert o == "INTO OUTFILE";
    assert forall k :: 0 <= k < 12 ==> o[k] == u[j + k];
  }

  lemma NoOutfileAcross(u: string, before: string, w: string, name: string, j: nat)
    requires Clause(u, before, w, name) && j < |before| < j + 12
    ensures !At(u, j, "INTO OUTFILE")
  {
    var k := |before| - j;
    ClauseChars(u, before, w, name, j + k);
    ClauseChars(u, before, w, name, j + k + 1);
    assert u[j + k] == 'F' && u[j + k + 1] == 'O';
    assert 1 <= k <= 11;
    if At(u, j, "INTO OUTFILE") { OutfileChars(u, j); }
  }

  lemma OutfileBeforeClause(u: string, before: string, w: string, name: string, j: nat)
    requires Clause(u, before, w, name) && At(u, j, "INTO OUTFILE")
    ensures j + 12 <= |before|
  {
    if j >= |before| {
      OutfileChars(u, j);
      ClauseChars(u, before, w, name, j);
      ClauseChars(u, before, w, name, j + 4);
    } else if j + 12 > |before| {
      NoOutfileAcross(u, before, w, name, j);
    }
  }

  // Only what comes before the clause can name an outfile.
  lemma OutfileIff(u: string, before: string, w: string, name: string)
    requires Clause(u, before, w, name)
    ensures NamesOutfile(u) <==> Contains(before, "INTO OUTFILE ")
  {
    assert before <= u && u == before + u[|before|..] && u[|before|] == 'F';
    forall j: int ensures At(u, j, "INTO OUTFILE ") <==> At(before, j, "INTO OUTFILE ") {
      if j + 13 <= |before| {
        AtAppend(before, u[|before|..], j, "INTO OUTFILE ");
      } else if At(u, j, "INTO OUTFILE ") {
        OutfileSpace(u, j);
        OutfileBeforeClause(u, before, w, name, j);
      }
    }
    if HasSuffix(u, "INTO OUTFILE") { OutfileBeforeClause(u, before, w, name, |u| - 12); }
  }

  lemma AtBehind(s: string, t: string, i: nat, sub: string)
    requires EndsIn(s, t) && At(t, i, sub)
    ensures At(s, |s| - |t| + i, sub)
  {
    var n := |s| - |t|;
    assert t[i..i + |sub|] == s[n + i..n + i + |sub|];
  }

  // Whitespace in front changes nothing about what a text contains.
  lemma ContainsAfterBlank(s: string, t: string, sub: string)
    requires EndsIn(s, t) && sub != [] && !IsSpace(sub[0])
    ensures Contains(s, sub) <==> Contains(t, sub)
  {
    var n := |s| - |t|;
    if Contains(t, sub) { AtBehind(s, t, Index(t, sub), sub); }
    if Contains(s, sub) {
      var i := Index(s, sub);
      assert s[i] == s[i..i + |sub|][0];
      assert forall k :: 0 <= k < n ==> s[k] == s[..n][k];
      AtInside(s, 0, n, i, sub);
    }
  }

  /** The whole clause: the word in any case, whitespace, the format's name, and any run of
      semicolons and spaces. */
  predicate IsFormatClause(fmt: string, w: string, name: string, tail: string) {
    && Upper(fmt) == "FORMAT" && w != [] && Blank(w) && name != [] && IsIdentifier(name)
    && AllTerminators(tail)
  }

  lemma ClauseHasNoComment(fmt: string, w: string, name: string, tail: string)
    requires IsFormatClause(fmt, w, name, tail)
    ensures var x := " " + fmt + w + name + tail; !Contains(x, "--") && x[0] == ' '
  {
    var x := " " + fmt + w + name + tail;
    UpperIsFormat(fmt);
    forall i | 0 <= i < |x| ensures x[i] != '-' {
      var n := 7 + |w|;
      if 7 <= i < n {
        assert x[i] == w[i - 7];
      } else if n <= i < n + |name| {
        assert x[i] == name[i - n];
      } else if n + |name| <= i {
        assert x[i] == tail[i - n - |name|];
      }
    }
    forall i ensures !At(x, i, "--") {
      AtPair(x, i, '-', '-');
    }
  }

  lemma {:induction false} IdleFiller(s: string)
    requires Idle(s)
    ensures Filler(s)
  {
    if s == "" {
    } else {
      IdleFiller(s[1..]);
    }
  }

  lemma NothingLeft(tail: string)
    requires AllTerminators(tail)
    ensures Left(tail) == ""
  {
    var r := TrimRight(tail);
    TrimRightCuts(tail);
    assert [] + r == r;
    assert forall i :: 0 <= i < |r| ==> r[i] == tail[i];
    TrimTerminatorsIsParts([], r);
  }

  lemma EndsInUpper(s: string, t: string)
    requires EndsIn(s, t)
    ensures EndsIn(Upper(s), Upper(t))
  {
    var n := |s| - |t|;
    assert Upper(s)[..n] == Upper(s[..n]);
    UpperKeeps(s[..n]);
  }

  lemma Regrouped(a: string, b: string, c: string, d: string, e: string)
    requires e == ""
    ensures a + (b + c + d) + e == a + b + c + d
  {
  }

  lemma OutfileOfClause(sql: string, q: string, fmt: string, w: string, name: string, tail: string)
    requires IsFormatClause(fmt, w, name, tail) && StripLineComments(sql) == q + (fmt + w + name) + tail
    ensures NamesOutfile(Shown(sql)) <==> Contains(Upper(q), "INTO OUTFILE ")
  {
    var b := ShownParts(StripLineComments(sql), q, fmt, w, name, tail);
    NothingLeft(tail);
    UpperKeeps(w);
    UpperKeeps(name);
    Regrouped(Upper(b), "FORMAT", w, Upper(name), Upper(Left(tail)));
    OutfileIff(Shown(sql), Upper(b), w, Upper(name));
    EndsInUpper(q, b);
    ContainsAfterBlank(Upper(q), Upper(b), "INTO OUTFILE ");
  }

  lemma JudgedAsItStands(sql: string, p: string, fmt: string, w: string, name: string, tail: string)
    requires IsFormatClause(fmt, w, name, tail) && StripLineComments(sql) == p + (fmt + w + name) + tail
    requires p != "" && p[|p| - 1] == ' '
    ensures HasUnsupportedOutputClause(sql) <==> w[0] == ' ' || Contains(Upper(p), "INTO OUTFILE ")
  {
    IdleFiller(w);
    IdleFiller(tail);
    NothingLeft(tail);
    FormatVerdict(sql, p, fmt, w, name, tail);
    OutfileOfClause(sql, p, fmt, w, name, tail);
  }

  lemma SpaceBefore(s: string, fmt: string, w: string, name: string, tail: string)
    ensures s + (" " + fmt + w + name + tail) == (s + " ") + (fmt + w + name) + tail
  {
  }

  // Without dashes on the last line the clause is judged as it stands.
  lemma PlainVerdict(q: string, fmt: string, w: string, name: string, tail: string)
    requires IsFormatClause(fmt, w, name, tail) && !Contains(LastLine(q), "--")
    ensures HasUnsupportedOutputClause(q + (" " + fmt + w + name + tail)) <==>
              w[0] == ' ' || Contains(Upper(StripLineComments(q) + " "), "INTO OUTFILE ")
  {
    var x := " " + fmt + w + name + tail;
    ClauseHasNoComment(fmt, w, name, tail);
    StripAppend(q, x, q + x);
    SpaceBefore(StripLineComments(q), fmt, w, name, tail);
    JudgedAsItStands(q + x, StripLineComments(q) + " ", fmt, w, name, tail);
  }

  lemma ClauseOnOneLine(fmt: string, w: string, name: string, tail: string)
    requires IsFormatClause(fmt, w, name, tail) && '\n' !in w
    ensures '\n' !in " " + fmt + w + name + tail
  {
    UpperIsFormat(fmt);
    assert '\n' !in fmt;
    assert forall i :: 0 <= i < |name| ==> IsIdentChar(name[i]);
    assert forall i :: 0 <= i < |tail| ==> IsTerminator(tail[i]);
  }

  lemma ClauseSplits(q: string, head: string, w: string, n: nat, name: string, tail: string)
    requires n <= |w|
    ensures q + (head + w + name + tail) == q + (head + w[..n]) + (w[n..] + name + tail)
  {
    assert w == w[..n] + w[n..];
  }

  lemma WordOnOneLine(fmt: string, head: string)
    requires Upper(fmt) == "FORMAT" && head == " " + fmt
    ensures '\n' !in head
  {
    UpperIsFormat(fmt);
    assert forall i :: 1 <= i < |head| ==> head[i] == fmt[i - 1];
  }

  // With dashes on the last line all of the clause up to its first newline goes.
  lemma HiddenVerdict(q: string, head: string, w: string, name: string, tail: string, n: nat)
    requires '\n' !in head && Contains(LastLine(q), "--")
    requires n < |w| && w[n] == '\n' && '\n' !in w[..n]
    ensures HasUnsupportedOutputClause(q + (head + w + name + tail)) <==>
              HasUnsupportedOutputClause(q + (w[n..] + name + tail))
  {
    ClauseSplits(q, head, w, n, name, tail);
    DashesHide(q, head + w[..n], w[n..] + name + tail);
  }

  /** The same for a clause of plain words after a query, comments included. With two dashes on the
      query's last line, comment or not, the clause goes unseen up to its first newline. Otherwise it
      is refused exactly when a space follows the word, unless an outfile is named before it anyway:
      a newline or a tab after the word lets it through. */
  lemma FormatRejectedIff(q: string, fmt: string, w: string, name: string, tail: string)
    requires IsFormatClause(fmt, w, name, tail)
    ensures Contains(LastLine(q), "--") && '\n' !in w ==>
              (HasUnsupportedOutputClause(q + (" " + fmt + w + name + tail)) <==> HasUnsupportedOutputClause(q))
    ensures Contains(LastLine(q), "--") && '\n' in w ==>
              Index(w, "\n") >= 0 &&
              (HasUnsupportedOutputClause(q + (" " + fmt + w + name + tail)) <==>
                 HasUnsupportedOutputClause(q + (w[Index(w, "\n")..] + name + tail)))
    ensures !Contains(LastLine(q), "--") ==>
              (HasUnsupportedOutputClause(q + (" " + fmt + w + name + tail)) <==>
                 w[0] == ' ' || Contains(Upper(StripLineComments(q) + " "), "INTO OUTFILE "))
  {
    var x := " " + fmt + w + name + tail;
    IndexChar(w, '\n');
    if !Contains(LastLine(q), "--") {
      PlainVerdict(q, fmt, w, name, tail);
    } else if '\n' in w {
      WordOnOneLine(fmt, " " + fmt);
      HiddenVerdict(q, " " + fmt, w, name, tail, Index(w, "\n"));
    } else {
      ClauseOnOneLine(fmt, w, name, tail);
      DashesHide(q, x, []);
      assert q + x + [] == q + x && q + [] == q;
    }
  }

  /** Without two dashes on the last line a final FORMAT clause is always refused when a space
      follows the word. */
  lemma FormatRejected(q: string, fmt: string, w: string, name: string, tail: string)
    requires IsFormatClause(fmt, w, name, tail) && w[0] == ' '
    requires !Contains(LastLine(q), "--")
    ensures HasUnsupportedOutputClause(q + (" " + fmt + w + name + tail))
  {
    FormatRejectedIff(q, fmt, w, name, tail);
  }
}
