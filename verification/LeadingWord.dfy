/** The first word of a text, read off its characters: which word the keyword reader finds, and so
    which texts it takes for row-returning or boundable. */
module LeadingWord {
  import opened Text
  import opened Keyword

  /** What ends a word. */
  predicate Ends(c: char) {
    c == ' ' || c == '\t' || c == '\n' || c == '\r' || c == '('
  }

  /** A word, and nothing or whatever a word can end at. The word opens no comment. It may hold other
      white space than what ends a word, but not at its edges: not in front, and not behind unless more
      text follows. */
  predicate IsWord(word: string, tail: string) {
    && word != "" && !IsSpace(word[0]) && !HasPrefix(word, "--") && !HasPrefix(word, "/*")
    && (forall i :: 0 <= i < |word| ==> !Ends(word[i]))
    && (Blank(tail) || Ends(tail[0]))
    && (Blank(tail) ==> !IsSpace(word[|word| - 1]))
  }

  /** Trivia, then a word, then the rest. */
  predicate Begins(sql: string, ts: seq<Trivia>, word: string, tail: string) {
    AllWellFormed(ts) && sql == Render(ts) + (word + tail) && IsWord(word, tail)
  }

  // A comment opener lies in the word or not at all.
  lemma NoOpener(word: string, tail: string, c: char, d: char)
    requires word != "" && !Ends(d) && !IsSpace(d) && (Blank(tail) || Ends(tail[0]))
    ensures HasPrefix(word + tail, [c, d]) ==> HasPrefix(word, [c, d])
  {
    var s := word + tail;
    assert |word| == 1 && tail != "" ==> s[1] == tail[0];
    assert |word| >= 2 ==> s[0] == word[0] && s[1] == word[1];
    if HasPrefix(s, [c, d]) { assert s[0] == c && s[1] == d; }
  }

  lemma WordStarts(word: string, tail: string)
    requires IsWord(word, tail)
    ensures StartsKeyword(word + tail)
  {
    NoOpener(word, tail, '-', '-');
    NoOpener(word, tail, '/', '*');
    assert (word + tail)[0] == word[0] && !Ends(word[0]);
  }

  lemma TrimBehindWord(word: string, tail: string)
    requires IsWord(word, tail)
    ensures word <= TrimRight(word + tail)
    ensures |word| == |TrimRight(word + tail)| || Ends(TrimRight(word + tail)[|word|])
  {
    if Blank(tail) {
      assert word[0..] == word;
      TrimRightIsParts(word, tail);
    } else {
      TrimRightAppend(word, tail);
      SolidHead(tail);
      assert (word + TrimRight(tail))[|word|] == tail[0];
    }
  }

  lemma SolidHead(s: string)
    requires !Blank(s)
    ensures TrimRight(s) != "" && TrimRight(s)[0] == s[0]
  {
    SpaceBehind(s);
    TrimRightCuts(s);
  }

  /** The keyword is the first word, in upper case. */
  lemma WordRead(sql: string, ts: seq<Trivia>, word: string, tail: string)
    requires Begins(sql, ts, word, tail)
    ensures LeadingKeyword(sql) == Upper(word) && !IsBlank(sql)
  {
    PrependWhole(ts, word + tail, sql);
    WordIsKeyword(word, tail);
  }

  lemma WordIsKeyword(word: string, tail: string)
    requires IsWord(word, tail)
    ensures LeadingKeyword(word + tail) == Upper(word)
  {
    var t := TrimRight(word + tail);
    WordStarts(word, tail);
    TrimBehindWord(word, tail);
    KeywordIsToken(word + tail);
    assert forall i :: 0 <= i < |word| ==> t[i] == word[i] && !EndsToken(t[i]);
    TokenEndIs(t, |word|);
    assert t[..|word|] == word;
  }

  lemma OpensNoMore(s: string, n: nat, open: string)
    requires n <= |s|
    ensures HasPrefix(s[..n], open) ==> HasPrefix(s, open)
  {
  }

  // What follows the token: white space alone, or what ended it and more.
  lemma TailOf(s: string, t: string, n: nat)
    requires t == TrimRight(s) && t != "" && !IsSpace(t[|t| - 1]) && n <= |t| && (n == |t| || Ends(t[n]))
    ensures n <= |s| && (Blank(s[n..]) || Ends(s[n..][0])) && (Blank(s[n..]) ==> n == |t|)
  {
    SpaceBehind(s);
    TrimRightCuts(s);
    var tail := s[n..];
    if n < |t| {
      assert tail[0] == t[n] && tail[|t| - 1 - n] == t[|t| - 1];
    } else {
      assert forall i :: 0 <= i < |tail| ==> tail[i] == s[n + i];
    }
  }

  lemma WordOf(s: string, t: string, n: nat)
    requires StartsKeyword(s) && t == TrimRight(s) && n == TokenEnd(t) && 0 < n
    requires t <= s && t != "" && !IsSpace(t[|t| - 1])
    ensures IsWord(s[..n], s[n..])
  {
    assert forall i :: 0 <= i < |t| ==> t[i] == s[i];
    OpensNoMore(s, n, "--");
    OpensNoMore(s, n, "/*");
    TailOf(s, t, n);
  }

  lemma FirstWord(s: string) returns (word: string, tail: string)
    requires StartsKeyword(s)
    ensures s == word + tail && IsWord(word, tail)
  {
    var t := TrimRight(s);
    KeywordStops(s);
    TrimRightCuts(s);
    SolidHead(s);
    var n := TokenEnd(t);
    WordOf(s, t, n);
    word, tail := s[..n], s[n..];
  }

  /** Every text that is not blank begins with a word. */
  lemma WordFound(sql: string) returns (ts: seq<Trivia>, word: string, tail: string)
    requires !IsBlank(sql)
    ensures Begins(sql, ts, word, tail)
  {
    KeywordOfRest(sql);
    RestSettled(sql);
    if !StartsKeyword(Rest(sql)) { SettledBlank(Rest(sql)); }
    ts := Lead(sql);
    word, tail := FirstWord(Rest(sql));
  }

  /** Exactly which texts are not blank, by their first word. */
  lemma NotBlankIff(sql: string)
    ensures !IsBlank(sql) <==> exists ts, word, tail :: Begins(sql, ts, word, tail)
  {
    if !IsBlank(sql) { var ts, word, tail := WordFound(sql); }
    forall ts, word, tail | Begins(sql, ts, word, tail) ensures !IsBlank(sql) { WordRead(sql, ts, word, tail); }
  }

  /** Exactly which texts return rows. */
  lemma RowReturningIff(sql: string)
    ensures IsRowReturning(sql) <==>
              exists ts, word, tail ::
                && Begins(sql, ts, word, tail)
                && Upper(word) in {"SELECT", "WITH", "SHOW", "DESCRIBE", "DESC", "EXPLAIN", "EXISTS"}
  {
    if IsRowReturning(sql) {
      var ts, word, tail := WordFound(sql);
      WordRead(sql, ts, word, tail);
    }
    forall ts, word, tail | Begins(sql, ts, word, tail)
      ensures IsRowReturning(sql) <==>
                Upper(word) in {"SELECT", "WITH", "SHOW", "DESCRIBE", "DESC", "EXPLAIN", "EXISTS"}
    {
      WordRead(sql, ts, word, tail);
    }
  }

  /** Exactly which texts can be wrapped. */
  lemma CanBoundIff(sql: string)
    ensures CanBound(sql) <==>
              exists ts, word, tail :: Begins(sql, ts, word, tail) && Upper(word) in {"SELECT", "WITH"}
  {
    if CanBound(sql) {
      var ts, word, tail := WordFound(sql);
      WordRead(sql, ts, word, tail);
    }
    forall ts, word, tail | Begins(sql, ts, word, tail)
      ensures CanBound(sql) <==> Upper(word) in {"SELECT", "WITH"}
    {
      WordRead(sql, ts, word, tail);
    }
  }
}
