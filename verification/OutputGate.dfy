/** Exactly what the output-clause gate of internal/query/result.go rejects: over the text it looks
    at, and for a final FORMAT clause however it is spaced. */
module OutputGate {
  import opened Text
  import opened OutputClause

  // --- Exactly what is rejected -------------------------------------------------------------------

  /** The words with one space between them, and a space or nothing behind. */
  predicate OutfileIn(u: string, before: string, after: string) {
    u == before + "INTO OUTFILE" + after && (after == "" || after[0] == ' ')
  }

  /** The word with a space behind and no identifier in front, and then one identifier and
      whitespace to the end; the identifier does not end in the word and a space itself. */
  predicate FormatIn(u: string, before: string, w: string, name: string, trail: string) {
    && u == before + ("FORMAT " + w + name + trail)
    && Blank(w) && Blank(trail) && name != "" && IsIdentifier(name)
    && (before == "" || !IsIdentChar(before[|before| - 1]))
    && !(trail != "" && trail[0] == ' ' && HasSuffix(name, "FORMAT"))
  }

  lemma OutfileSpace(u: string, j: int)
    ensures At(u, j, "INTO OUTFILE ") ==> At(u, j, "INTO OUTFILE") && u[j + 12] == ' '
  {
    if At(u, j, "INTO OUTFILE ") {
      assert u[j..j + 12] == u[j..j + 13][..12];
      assert u[j + 12] == u[j..j + 13][12];
    }
  }

  lemma OutfileAt(u: string, j: int)
    requires At(u, j, "INTO OUTFILE") && (j + 12 == |u| || u[j + 12] == ' ')
    ensures NamesOutfile(u) && OutfileIn(u, u[..j], u[j + 12..])
  {
    assert u == u[..j] + u[j..j + 12] + u[j + 12..];
    if j + 12 < |u| {
      assert u[j..j + 13] == u[j..j + 12] + [u[j + 12]];
      assert At(u, j, "INTO OUTFILE ");
    }
  }

  lemma OutfileInSeen(u: string, before: string, after: string)
    requires OutfileIn(u, before, after)
    ensures NamesOutfile(u)
  {
    var j := |before|;
    assert u[j..j + 12] == "INTO OUTFILE";
    assert after != "" ==> u[j + 12] == after[0];
    OutfileAt(u, j);
  }

  lemma OutfileFound(u: string) returns (j: nat)
    requires NamesOutfile(u)
    ensures At(u, j, "INTO OUTFILE") && (j + 12 == |u| || u[j + 12] == ' ')
  {
    j := if HasSuffix(u, "INTO OUTFILE") then |u| - 12 else Index(u, "INTO OUTFILE ");
    OutfileSpace(u, j);
  }

  /** The outfile half, exactly. */
  lemma NamesOutfileIff(u: string)
    ensures NamesOutfile(u) <==> exists before, after :: OutfileIn(u, before, after)
  {
    if NamesOutfile(u) {
      var j := OutfileFound(u);
      OutfileAt(u, j);
    }
    forall before, after | OutfileIn(u, before, after) ensures NamesOutfile(u) {
      OutfileInSeen(u, before, after);
    }
  }

  // Where else the word of a clause may not stand: it holds no I but before LE.
  lemma OutfileLetters(u: string, j: int)
    requires At(u, j, "OUTFILE")
    ensures u[j] == 'O' && u[j + 1] == 'U' && u[j + 2] == 'T' && u[j + 3] == 'F' && u[j + 4] == 'I'
    ensures u[j + 5] == 'L' && u[j + 6] == 'E'
  {
    var o := u[j..j + 7];
    assert forall k :: 0 <= k < 7 ==> o[k] == u[j + k];
  }

  // The words with whitespace between them, the first at i, the second at f.
  predicate Words(u: string, i: nat, f: nat) {
    && i + 4 < f && f + 7 <= |u| && At(u, f, "OUTFILE")
    && u[i] == 'I' && u[i + 1] == 'N' && u[i + 2] == 'T' && u[i + 3] == 'O'
    && forall k :: i + 4 <= k < f ==> IsSpace(u[k])
  }

  // A second place for the word lies wholly before the two or wholly behind them.
  lemma OtherOutfile(u: string, i: nat, f: nat, j: nat)
    requires Words(u, i, f) && At(u, j, "OUTFILE") && j != f
    ensures j + 7 <= i || f + 7 <= j
  {
    OutfileLetters(u, f);
    OutfileLetters(u, j);
    assert IsSpace(u[i + 4]) && IsSpace(u[f - 1]);
  }

  lemma OnlyOutfile(u: string, i: nat, f: nat, j: nat)
    requires Words(u, i, f) && At(u, j, "OUTFILE")
    requires !Contains(u[..i], "OUTFILE") && !Contains(u[f + 7..], "OUTFILE")
    ensures j == f
  {
    if j != f { OtherOutfile(u, i, f, j); }
    AtInside(u, i, f + 7, j, "OUTFILE");
  }

  lemma AtInside(u: string, i: nat, k: nat, j: nat, sub: string)
    requires i <= k <= |u| && At(u, j, sub)
    ensures j + |sub| <= i ==> At(u[..i], j, sub)
    ensures k <= j ==> At(u[k..], j - k, sub)
  {
    if j + |sub| <= i { assert u[..i][j..j + |sub|] == u[j..j + |sub|]; }
    if k <= j { assert u[k..][j - k..j - k + |sub|] == u[j..j + |sub|]; }
  }

  lemma BothWords(u: string, j: int)
    requires At(u, j, "INTO OUTFILE")
    ensures At(u, j + 5, "OUTFILE") && u[j + 3] == 'O' && u[j + 4] == ' '
  {
    var o := u[j..j + 12];
    assert o == "INTO OUTFILE";
    assert u[j + 5..j + 12] == o[5..];
    assert u[j + 3] == o[3] && u[j + 4] == o[4];
  }

  lemma WordsSeen(u: string, i: nat, f: nat)
    requires Words(u, i, f) && f == i + 5 && u[i + 4] == ' '
    ensures At(u, i, "INTO OUTFILE")
  {
    OutfileLetters(u, f);
    var o := u[i..i + 12];
    assert forall k :: 0 <= k < 12 ==> o[k] == u[i + k];
    assert forall k :: 0 <= k < 12 ==> o[k] == "INTO OUTFILE"[k];
  }

  /** Which INTO OUTFILE is seen, where there is but one: with exactly one space between the words and
      a space or nothing behind. */
  lemma WordsIff(u: string, i: nat, f: nat)
    requires Words(u, i, f) && !Contains(u[..i], "OUTFILE") && !Contains(u[f + 7..], "OUTFILE")
    ensures NamesOutfile(u) <==> f == i + 5 && u[i + 4] == ' ' && (f + 7 == |u| || u[f + 7] == ' ')
  {
    if NamesOutfile(u) {
      var j := OutfileFound(u);
      BothWords(u, j);
      OnlyOutfile(u, i, f, j + 5);
      assert f == j + 5;
      assert !IsSpace(u[j + 3]);
    }
    if f == i + 5 && u[i + 4] == ' ' && (f + 7 == |u| || u[f + 7] == ' ') {
      WordsSeen(u, i, f);
      OutfileAt(u, i);
    }
  }

  // The same by positions: the word at f, the identifier from a to e.
  predicate Core(u: string, f: nat, a: nat, e: nat) {
    && f + 7 <= a < e <= |u| && At(u, f, "FORMAT ")
    && (forall i :: f + 7 <= i < a ==> IsSpace(u[i]))
    && (forall i :: a <= i < e ==> IsIdentChar(u[i]))
    && (forall i :: e <= i < |u| ==> IsSpace(u[i]))
  }

  predicate Again(u: string, a: nat, e: nat)
    requires a <= e <= |u|
  {
    e < |u| && u[e] == ' ' && a + 6 <= e && At(u, e - 6, "FORMAT")
  }

  predicate Shape(u: string, f: nat, a: nat, e: nat) {
    Core(u, f, a, e) && (f == 0 || !IsIdentChar(u[f - 1])) && !Again(u, a, e)
  }

  lemma WordChars(u: string, j: int)
    requires At(u, j, "FORMAT ")
    ensures forall i :: j <= i < j + 6 ==> IsIdentChar(u[i]) && !IsSpace(u[i])
    ensures u[j] == 'F' && u[j + 6] == ' ' && At(u, j, "FORMAT")
  {
    var o := u[j..j + 7];
    assert o == "FORMAT ";
    assert u[j..j + 6] == o[..6];
    assert forall k :: 0 <= k < 7 ==> o[k] == u[j + k];
    assert IsIdentChar(o[0]) && IsIdentChar(o[1]) && IsIdentChar(o[2]) && IsIdentChar(o[3]) && IsIdentChar(o[4]);
    assert forall i :: j <= i < j + 6 ==> u[i] == o[i - j];
  }

  // A later place for the word is the end of the identifier and the space behind it.
  lemma LaterWord(u: string, f: nat, a: nat, e: nat, j: int)
    requires Core(u, f, a, e) && f < j && At(u, j, "FORMAT ")
    ensures Again(u, a, e)
  {
    WordChars(u, f);
    WordChars(u, j);
    assert IsSpace(u[f + 6]);
    assert j >= f + 7;
    assert a <= j < e;
    assert !IsSpace(u[j + 5]) && u[j + 6] == ' ';
    assert j + 6 == e;
  }

  lemma LastWord(u: string, f: nat, a: nat, e: nat)
    requires Shape(u, f, a, e)
    ensures LastIndex(u, "FORMAT ") == f
  {
    forall j: int | f < j ensures !At(u, j, "FORMAT ") {
      if At(u, j, "FORMAT ") { LaterWord(u, f, a, e, j); }
    }
  }

  lemma ShapeTail(u: string, f: nat, a: nat, e: nat)
    requires Core(u, f, a, e)
    ensures TrimSpace(u[f + 7..]) == u[a..e] && IsIdentifier(u[a..e])
  {
    var w, name, trail := u[f + 7..a], u[a..e], u[e..];
    assert name[0] == u[a] && name[|name| - 1] == u[e - 1];
    assert u[f + 7..] == w + name + trail;
    TrimSpaceIsParts(w, name, trail);
  }

  lemma ShapeDetected(u: string, f: nat, a: nat, e: nat)
    requires Shape(u, f, a, e)
    ensures EndsInFormat(u)
  {
    LastWord(u, f, a, e);
    ShapeTail(u, f, a, e);
    assert u[a..e] != "";
    Detects(u, f, u[a..e]);
  }

  lemma Detects(u: string, f: nat, name: string)
    requires LastIndex(u, "FORMAT ") == f && f + 7 <= |u| && (f == 0 || !IsIdentChar(u[f - 1]))
    requires name == TrimSpace(u[f + 7..]) && name != "" && IsIdentifier(name)
    ensures EndsInFormat(u)
  {
  }

  lemma TailCore(u: string, f: nat, lead: string, name: string, trail: string, a: nat, e: nat)
    requires At(u, f, "FORMAT ") && u[f + 7..] == lead + name + trail
    requires Blank(lead) && Blank(trail) && name != "" && IsIdentifier(name)
    requires a == f + 7 + |lead| && e == a + |name|
    ensures Core(u, f, a, e) && |u| == e + |trail|
  {
    var s := u[f + 7..];
    assert forall i :: f + 7 <= i < |u| ==> u[i] == s[i - f - 7];
    assert forall k :: 0 <= k < |lead| ==> s[k] == lead[k];
    assert forall k :: |lead| <= k < |lead| + |name| ==> s[k] == name[k - |lead|];
    assert forall k :: |lead| + |name| <= k < |s| ==> s[k] == trail[k - |lead| - |name|];
  }

  lemma NotAgain(u: string, f: nat, a: nat, e: nat)
    requires Core(u, f, a, e) && LastIndex(u, "FORMAT ") == f
    ensures !Again(u, a, e)
  {
    if Again(u, a, e) {
      assert u[e - 6..e + 1] == u[e - 6..e] + [u[e]];
      assert At(u, e - 6, "FORMAT ");
    }
  }

  lemma DetectedShape(u: string) returns (f: nat, a: nat, e: nat)
    requires EndsInFormat(u)
    ensures Shape(u, f, a, e)
  {
    var name;
    f, name := FoundParts(u);
    a, e := FoundShape(u, f, name);
  }

  lemma FoundParts(u: string) returns (f: nat, name: string)
    requires EndsInFormat(u)
    ensures LastIndex(u, "FORMAT ") == f && f + 7 <= |u| && (f == 0 || !IsIdentChar(u[f - 1]))
    ensures name == TrimSpace(u[f + 7..]) && name != "" && IsIdentifier(name)
  {
    f := LastIndex(u, "FORMAT ");
    name := TrimSpace(u[f + 7..]);
  }

  lemma FoundShape(u: string, f: nat, name: string) returns (a: nat, e: nat)
    requires LastIndex(u, "FORMAT ") == f && f + 7 <= |u| && (f == 0 || !IsIdentChar(u[f - 1]))
    requires name == TrimSpace(u[f + 7..]) && name != "" && IsIdentifier(name)
    ensures Shape(u, f, a, e)
  {
    var lead, trail := TrimSpaceParts(u[f + 7..]);
    a, e := f + 7 + |lead|, f + 7 + |lead| + |name|;
    TailCore(u, f, lead, name, trail, a, e);
    NotAgain(u, f, a, e);
  }

  lemma AgainInName(u: string, a: nat, e: nat, name: string)
    requires a <= e <= |u| && name == u[a..e]
    ensures a + 6 <= e && At(u, e - 6, "FORMAT") <==> HasSuffix(name, "FORMAT")
  {
    if |name| >= 6 { assert name[|name| - 6..] == u[e - 6..e]; }
  }

  lemma Cut(u: string, before: string, w: string, name: string, trail: string, f: nat, a: nat, e: nat)
    requires u == before + ("FORMAT " + w + name + trail) && f == |before| && a == f + 7 + |w| && e == a + |name|
    ensures e + |trail| == |u| && u[f..f + 7] == "FORMAT "
    ensures u[..f] == before && u[f + 7..a] == w && u[a..e] == name && u[e..] == trail
  {
  }

  lemma EdgeOf(u: string, before: string, f: nat)
    requires f <= |u| && u[..f] == before && (before == "" || !IsIdentChar(before[|before| - 1]))
    ensures f == 0 || !IsIdentChar(u[f - 1])
  {
    assert f > 0 ==> u[f - 1] == u[..f][f - 1];
  }

  lemma NoSecondWord(u: string, name: string, trail: string, a: nat, e: nat)
    requires a <= e <= |u| && u[a..e] == name && u[e..] == trail
    requires !(trail != "" && trail[0] == ' ' && HasSuffix(name, "FORMAT"))
    ensures !Again(u, a, e)
  {
    AgainInName(u, a, e, name);
    assert e < |u| ==> u[e] == u[e..][0];
  }

  lemma ShapeOfSlices(u: string, before: string, w: string, name: string, trail: string, f: nat, a: nat, e: nat)
    requires f + 7 <= a < e <= |u| && u[f..f + 7] == "FORMAT "
    requires u[..f] == before && u[f + 7..a] == w && u[a..e] == name && u[e..] == trail
    requires Blank(w) && Blank(trail) && IsIdentifier(name)
    requires before == "" || !IsIdentChar(before[|before| - 1])
    requires !(trail != "" && trail[0] == ' ' && HasSuffix(name, "FORMAT"))
    ensures Shape(u, f, a, e)
  {
    assert u[f + 7..] == u[f + 7..a] + u[a..e] + u[e..];
    TailCore(u, f, w, name, trail, a, e);
    EdgeOf(u, before, f);
    NoSecondWord(u, name, trail, a, e);
  }

  lemma PartsOfShape(u: string, f: nat, a: nat, e: nat)
    requires Shape(u, f, a, e)
    ensures FormatIn(u, u[..f], u[f + 7..a], u[a..e], u[e..])
  {
    assert u == u[..f] + (u[f..f + 7] + u[f + 7..a] + u[a..e] + u[e..]);
    assert u[f..f + 7] == "FORMAT ";
    AgainInName(u, a, e, u[a..e]);
  }

  lemma FormatInDetected(u: string, before: string, w: string, name: string, trail: string)
    requires FormatIn(u, before, w, name, trail)
    ensures EndsInFormat(u)
  {
    var f, a, e := |before|, |before| + 7 + |w|, |before| + 7 + |w| + |name|;
    Cut(u, before, w, name, trail, f, a, e);
    ShapeOfSlices(u, before, w, name, trail, f, a, e);
    ShapeDetected(u, f, a, e);
  }

  lemma DetectedParts(u: string) returns (before: string, w: string, name: string, trail: string)
    requires EndsInFormat(u)
    ensures FormatIn(u, before, w, name, trail)
  {
    var f, a, e := DetectedShape(u);
    PartsOfShape(u, f, a, e);
    before, w, name, trail := u[..f], u[f + 7..a], u[a..e], u[e..];
  }

  /** The FORMAT half, exactly. */
  lemma EndsInFormatIff(u: string)
    ensures EndsInFormat(u) <==> exists before, w, name, trail :: FormatIn(u, before, w, name, trail)
  {
    if EndsInFormat(u) {
      var before, w, name, trail := DetectedParts(u);
    }
    forall before, w, name, trail | FormatIn(u, before, w, name, trail) ensures EndsInFormat(u) {
      FormatInDetected(u, before, w, name, trail);
    }
  }

  /** The gate, exactly, on every text: what it looks at names an outfile, or ends in the word, a
      space and one identifier. What role these play in the query it does not ask. */
  lemma GateIff(sql: string)
    ensures HasUnsupportedOutputClause(sql) <==>
              || (exists before, after :: OutfileIn(Shown(sql), before, after))
              || (exists before, w, name, trail :: FormatIn(Shown(sql), before, w, name, trail))
  {
    NamesOutfileIff(Shown(sql));
    EndsInFormatIff(Shown(sql));
  }

  // --- A final FORMAT clause ------------------------------------------------------------------------

  /** Whitespace, or text that ends, whitespace aside, in a slash or a semicolon. */
  predicate Gap(s: string) {
    Blank(s) || exists p :: 0 <= p < |s| && GapEnd(s, p)
  }

  predicate GapEnd(s: string, p: nat)
    requires p < |s|
  {
    (s[p] == '/' || s[p] == ';') && forall i :: p < i < |s| ==> IsSpace(s[i])
  }

  // The word at f, the identifier from n to t, gaps between them and behind.
  predicate Final(u: string, f: nat, n: nat, t: nat) {
    && f + 6 < n < t <= |u| && At(u, f, "FORMAT")
    && Gap(u[f + 6..n]) && Gap(u[t..])
    && (forall i :: n <= i < t ==> IsIdentChar(u[i]))
  }

  // A character that is neither space nor letter lies before the word that the gate finds.
  lemma OddBefore(u: string, f: nat, a: nat, e: nat, p: nat)
    requires Core(u, f, a, e) && p < |u| && !IsSpace(u[p]) && !IsIdentChar(u[p])
    ensures p < f
  {
    WordChars(u, f);
  }

  lemma GapEndIn(u: string, lo: nat, hi: nat) returns (p: nat)
    requires lo <= hi <= |u| && Gap(u[lo..hi]) && !Blank(u[lo..hi])
    ensures lo <= p < hi && !IsSpace(u[p]) && !IsIdentChar(u[p]) && forall i :: p < i < hi ==> IsSpace(u[i])
  {
    var s := u[lo..hi];
    var k :| 0 <= k < |s| && GapEnd(s, k);
    p := lo + k;
    assert forall i :: lo <= i < hi ==> u[i] == s[i - lo];
  }

  lemma TrailIsBlank(u: string, f: nat, n: nat, t: nat, f': nat, a: nat, e: nat)
    requires Final(u, f, n, t) && Core(u, f', a, e)
    ensures forall i :: t <= i < |u| ==> IsSpace(u[i])
  {
    if Blank(u[t..]) {
      assert forall i :: t <= i < |u| ==> u[i] == u[t..][i - t];
    } else {
      assert u[t..|u|] == u[t..] && IsIdentChar(u[a]);
      var p := GapEndIn(u, t, |u|);
      OddBefore(u, f', a, e, p);
    }
  }

  // The gate's word is not inside the identifier.
  lemma NotInName(u: string, n: nat, t: nat, f': nat, a: nat, e: nat)
    requires n < t <= |u| && Core(u, f', a, e)
    requires forall i :: n <= i < t ==> IsIdentChar(u[i])
    requires forall i :: t <= i < |u| ==> IsSpace(u[i])
    ensures f' < n
  {
    WordChars(u, f');
    assert IsIdentChar(u[a]);
  }

  lemma GapIsBlank(u: string, f: nat, n: nat, t: nat, f': nat, a: nat, e: nat)
    requires Final(u, f, n, t) && Core(u, f', a, e)
    ensures forall i :: f + 6 <= i < n ==> IsSpace(u[i])
  {
    if Blank(u[f + 6..n]) {
      assert forall i :: f + 6 <= i < n ==> u[i] == u[f + 6..n][i - f - 6];
    } else {
      var p := GapEndIn(u, f + 6, n);
      OddBefore(u, f', a, e, p);
      TrailIsBlank(u, f, n, t, f', a, e);
      NotInName(u, n, t, f', a, e);
      WordChars(u, f');
    }
  }

  lemma LettersAt(u: string, f: nat)
    requires At(u, f, "FORMAT")
    ensures forall i :: f <= i < f + 6 ==> IsIdentChar(u[i]) && !IsSpace(u[i])
  {
    var o := u[f..f + 6];
    assert o == "FORMAT";
    assert IsIdentChar(o[0]) && IsIdentChar(o[1]) && IsIdentChar(o[2]) && IsIdentChar(o[3]) && IsIdentChar(o[4]);
    assert forall i :: f <= i < f + 6 ==> u[i] == o[i - f];
  }

  lemma SameWord(u: string, f: nat, n: nat, t: nat, f': nat, a: nat, e: nat)
    requires Final(u, f, n, t) && Core(u, f', a, e)
    requires forall i :: f + 6 <= i < n ==> IsSpace(u[i])
    requires forall i :: t <= i < |u| ==> IsSpace(u[i])
    ensures f' == f && a == n && e == t
  {
    NotInName(u, n, t, f', a, e);
    WordChars(u, f');
    LettersAt(u, f);
    assert IsIdentChar(u[n]) && IsIdentChar(u[f + 5]) && IsSpace(u[f + 6]);
    assert IsIdentChar(u[a]) && IsIdentChar(u[e - 1]) && IsIdentChar(u[t - 1]);
    assert f' <= f;
    assert f' == f;
  }

  predicate Seen(u: string, f: nat, n: nat, t: nat)
    requires f + 6 < n <= t <= |u|
  {
    && u[f + 6] == ' ' && (forall i :: f + 6 <= i < n ==> IsSpace(u[i])) && (forall i :: t <= i < |u| ==> IsSpace(u[i]))
    && (f == 0 || !IsIdentChar(u[f - 1])) && !Again(u, n, t)
  }

  lemma FinalIff(u: string, f: nat, n: nat, t: nat)
    requires Final(u, f, n, t)
    ensures EndsInFormat(u) <==> Seen(u, f, n, t)
  {
    if EndsInFormat(u) {
      var f', a, e := DetectedShape(u);
      TrailIsBlank(u, f, n, t, f', a, e);
      GapIsBlank(u, f, n, t, f', a, e);
      SameWord(u, f, n, t, f', a, e);
      WordChars(u, f);
    }
    if Seen(u, f, n, t) {
      assert u[f..f + 7] == u[f..f + 6] + [u[f + 6]];
      ShapeDetected(u, f, n, t);
    }
  }
}
