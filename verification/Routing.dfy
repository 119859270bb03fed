/** Which tool takes which text, by the text's first word. */
module Routing {
  import opened Options
  import opened Text
  import opened Lexer
  import opened Keyword
  import opened LeadingWord
  import opened OutputClause
  import opened Tools

  /** What both tools answer to a text with a first word: several statements are refused first; then
      the word decides, and at run_query the output clause after it. */
  lemma RoutedByWord(sql: string, ts: seq<Trivia>, word: string, tail: string)
    requires Begins(sql, ts, word, tail)
    ensures var returnsRows :=
              Upper(word) in {"SELECT", "WITH", "SHOW", "DESCRIBE", "DESC", "EXPLAIN", "EXISTS"};
            && QueryGate(sql) == (if Multiple(sql) then Some(SeveralStatements)
                                  else if !returnsRows then Some(NotRowReturning)
                                  else if HasUnsupportedOutputClause(sql) then Some(OutputRedirected)
                                  else None)
            && StatementGate(sql) == (if Multiple(sql) then Some(SeveralStatements)
                                      else if returnsRows then Some(ReturnsRows)
                                      else None)
  {
    WordRead(sql, ts, word, tail);
  }

  /** Both refuse every text without one, whatever else is in it. */
  lemma RoutedBlank(sql: string)
    requires !exists ts, word, tail :: Begins(sql, ts, word, tail)
    ensures QueryGate(sql) == Some(NothingToRun) && StatementGate(sql) == Some(NothingToRun)
  {
    NotBlankIff(sql);
  }

  lemma PlainWord(word: string, tail: string)
    requires word != "" && (forall i :: 0 <= i < |word| ==> 'A' <= word[i] <= 'Z') && (tail == "" || Ends(tail[0]))
    ensures Begins(word + tail, [], word, tail)
  {
    assert tail == "" || tail[0] != '-';
    assert Render([]) + (word + tail) == word + tail;
    assert tail != "" && Blank(tail) ==> IsSpace(tail[0]);
  }

  /** A write never goes down the query path, whatever it writes. */
  lemma WritesAreNotQueried(tail: string)
    requires tail != "" && tail[0] == ' '
    ensures QueryGate("INSERT" + tail).Some? && QueryGate("CREATE" + tail).Some? && QueryGate("DROP" + tail).Some?
  {
    PlainWord("INSERT", tail);
    PlainWord("CREATE", tail);
    PlainWord("DROP", tail);
    UpperOfUpper("INSERT");
    UpperOfUpper("CREATE");
    UpperOfUpper("DROP");
    RoutedByWord("INSERT" + tail, [], "INSERT", tail);
    RoutedByWord("CREATE" + tail, [], "CREATE", tail);
    RoutedByWord("DROP" + tail, [], "DROP", tail);
  }

  lemma UpperOfUpper(word: string)
    requires forall i :: 0 <= i < |word| ==> 'A' <= word[i] <= 'Z'
    ensures Upper(word) == word
  {
  }
}
