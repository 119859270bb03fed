/** The two execution tools, internal/tools/run_query.go and run_statement.go: gates, then the
    connection. A connection is the answers it gives and a log of the texts it was sent. */
module Tools {
  import opened Options
  import opened Lexer
  import opened Keyword
  import opened Bounding
  import opened OutputClause
  import opened Serialize
  import opened Paging

  const DEFAULT_ROW_LIMIT := 100

  datatype Refusal = NothingToRun | SeveralStatements | NotRowReturning | OutputRedirected | ReturnsRows

  datatype Failure = Refused(why: Refusal) | QueryFailed | ScanFailed | ReadFailed | StatementFailed

  datatype Outcome<T> = Ok(value: T) | Err(error: Failure)

  // --- The connection ------------------------------------------------------------------------------

  /** One row as the driver scans it, or the scan's failure. */
  datatype Scanned = Row(values: seq<Value>) | Unreadable

  /** What the server answers to a query: an error, or rows of as many values as columns and
      perhaps an error after them. */
  datatype Answer =
    | Rejected
    | Answered(columns: seq<string>, types: seq<string>, rows: seq<Scanned>, broken: bool)

  predicate ValidAnswer(a: Answer) {
    a.Answered? ==> forall i :: 0 <= i < |a.rows| && a.rows[i].Row? ==> |a.rows[i].values| == |a.types|
  }

  class Rows {
    const columns: seq<string>
    const types: seq<string>
    const broken: bool
    var pending: seq<Scanned>
    var current: Scanned

    predicate Valid()
      reads this
    {
      && (forall i :: 0 <= i < |pending| && pending[i].Row? ==> |pending[i].values| == |types|)
      && (current.Row? ==> |current.values| == |types|)
    }

    constructor (a: Answer)
      requires a.Answered? && ValidAnswer(a)
      ensures Valid() && pending == a.rows && columns == a.columns && types == a.types && broken == a.broken
    {
      columns, types, broken, pending, current := a.columns, a.types, a.broken, a.rows, Unreadable;
    }

    method Next() returns (more: bool)
      requires Valid()
      modifies this
      ensures Valid()
      ensures more <==> old(pending) != []
      ensures more ==> current == old(pending)[0] && pending == old(pending)[1..]
      ensures !more ==> pending == old(pending)
    {
      more := pending != [];
      if more {
        current, pending := pending[0], pending[1..];
      }
    }
  }

  class Connection {
    const answers: string -> Answer
    const writes: string -> Outcome<nat>
    var queried: seq<string>
    var executed: seq<string>

    constructor (answers: string -> Answer, writes: string -> Outcome<nat>)
      ensures this.answers == answers && this.writes == writes && queried == [] && executed == []
    {
      this.answers, this.writes, queried, executed := answers, writes, [], [];
    }

    method Query(sql: string) returns (rows: Option<Rows>)
      requires ValidAnswer(answers(sql))
      modifies this`queried
      ensures queried == old(queried) + [sql]
      ensures rows.None? <==> answers(sql).Rejected?
      ensures rows.Some? ==>
                && fresh(rows.value) && rows.value.Valid() && rows.value.pending == answers(sql).rows
                && rows.value.columns == answers(sql).columns && rows.value.types == answers(sql).types
                && rows.value.broken == answers(sql).broken
    {
      queried := queried + [sql];
      match answers(sql) {
        case Rejected => rows := None;
        case Answered(_, _, _, _) =>
          var r := new Rows(answers(sql));
          rows := Some(r);
      }
    }

    method Exec(sql: string) returns (wrote: Outcome<nat>)
      modifies this`executed
      ensures executed == old(executed) + [sql] && wrote == writes(sql)
    {
      executed := executed + [sql];
      wrote := writes(sql);
    }
  }

  // --- Scanning --------------------------------------------------------------------------------------

  /** One row, every value under its own column's type. */
  function Rendered(values: seq<Value>, types: seq<string>): (row: seq<Out>)
    requires |values| == |types|
    ensures |row| == |types| && forall i :: 0 <= i < |types| ==> row[i] == ToJson(values[i], types[i])
  {
    seq(|types|, i requires 0 <= i < |types| => ToJson(values[i], types[i]))
  }

  /** All rows, or nothing: the first failure in the stream is the outcome. */
  function Materialized(rows: seq<Scanned>, types: seq<string>, broken: bool): Outcome<seq<seq<Out>>>
    requires forall i :: 0 <= i < |rows| && rows[i].Row? ==> |rows[i].values| == |types|
  {
    if rows == [] then (if broken then Err(ReadFailed) else Ok([]))
    else if rows[0].Unreadable? then Err(ScanFailed)
    else
      match Materialized(rows[1..], types, broken)
      case Err(e) => Err(e)
      case Ok(rest) => Ok([Rendered(rows[0].values, types)] + rest)
  }

  // The rows still to come, put after those fetched.
  function After(fetched: seq<seq<Out>>, rest: Outcome<seq<seq<Out>>>): Outcome<seq<seq<Out>>> {
    match rest
    case Err(e) => Err(e)
    case Ok(rows) => Ok(fetched + rows)
  }

  lemma AfterNothing(rest: Outcome<seq<seq<Out>>>)
    ensures After([], rest) == rest
  {
    if rest.Ok? { assert [] + rest.value == rest.value; }
  }

  lemma AfterRow(fetched: seq<seq<Out>>, row: seq<Out>, rest: Outcome<seq<seq<Out>>>)
    requires rest.Ok?
    ensures After(fetched, Ok([row] + rest.value)) == After(fetched + [row], rest)
  {
    assert fetched + ([row] + rest.value) == fetched + [row] + rest.value;
  }

  method ScanRows(rows: Rows) returns (out: Outcome<seq<seq<Out>>>)
    requires rows.Valid()
    modifies rows
    ensures out == Materialized(old(rows.pending), rows.types, rows.broken)
  {
    var types := rows.types;
    var fetched: seq<seq<Out>> := [];
    AfterNothing(Materialized(rows.pending, types, rows.broken));
    while true
      invariant rows.Valid()
      invariant Materialized(old(rows.pending), types, rows.broken)
             == After(fetched, Materialized(rows.pending, types, rows.broken))
      decreases |rows.pending|
    {
      var more := rows.Next();
      if !more {
        break;
      }
      if rows.current.Unreadable? {
        return Err(ScanFailed);
      }
      var values := rows.current.values;
      var row := RenderRow(values, types);
      ghost var rest := Materialized(rows.pending, types, rows.broken);
      if rest.Ok? { AfterRow(fetched, row, rest); }
      fetched := fetched + [row];
    }
    if rows.broken {
      return Err(ReadFailed);
    }
    assert fetched + [] == fetched;
    return Ok(fetched);
  }

  /** Every value of every row under its own column's type. */
  predicate RowsShown(rows: seq<Scanned>, types: seq<string>, shown: seq<seq<Out>>) {
    && |shown| == |rows|
    && forall i :: 0 <= i < |rows| ==> RowShown(rows[i], types, shown[i])
  }

  predicate RowShown(row: Scanned, types: seq<string>, shown: seq<Out>) {
    && row.Row? && |row.values| == |shown| == |types|
    && forall j :: 0 <= j < |types| ==> shown[j] == ToJson(row.values[j], types[j])
  }

  predicate AllReadable(rows: seq<Scanned>) {
    forall i :: 0 <= i < |rows| ==> rows[i].Row?
  }

  /** What scanning comes to: all the rows exactly when every one can be read and the stream does not
      break after them, the scan's failure when one cannot, and the stream's otherwise. */
  lemma {:induction false} ScanOutcome(rows: seq<Scanned>, types: seq<string>, broken: bool)
    requires forall i :: 0 <= i < |rows| && rows[i].Row? ==> |rows[i].values| == |types|
    ensures var out := Materialized(rows, types, broken);
            && (out.Ok? <==> AllReadable(rows) && !broken)
            && (out.Ok? ==> RowsShown(rows, types, out.value))
            && (out == Err(ScanFailed) <==> !AllReadable(rows))
            && (out == Err(ReadFailed) <==> AllReadable(rows) && broken)
    decreases |rows|
  {
    if rows == [] {
    } else if rows[0].Row? {
      ScanOutcome(rows[1..], types, broken);
      assert AllReadable(rows) <==> AllReadable(rows[1..]) by {
        assert forall i :: 1 <= i < |rows| ==> rows[i] == rows[1..][i - 1];
      }
      var rest := Materialized(rows[1..], types, broken);
      if rest.Ok? { RowsShownCons(rows, types, Rendered(rows[0].values, types), rest.value); }
    }
  }

  lemma RowsShownCons(rows: seq<Scanned>, types: seq<string>, row: seq<Out>, rest: seq<seq<Out>>)
    requires rows != [] && RowShown(rows[0], types, row) && RowsShown(rows[1..], types, rest)
    ensures RowsShown(rows, types, [row] + rest)
  {
    forall i | 0 <= i < |rows| ensures RowShown(rows[i], types, ([row] + rest)[i]) {
      if i > 0 { assert rows[i] == rows[1..][i - 1]; }
    }
  }

  method RenderRow(values: seq<Value>, types: seq<string>) returns (row: seq<Out>)
    requires |values| == |types|
    ensures row == Rendered(values, types)
  {
    row := [];
    for i := 0 to |types|
      invariant |row| == i && forall k :: 0 <= k < i ==> row[k] == ToJson(values[k], types[k])
    {
      var o := ToJSONValue(values[i], types[i]);
      row := row + [o];
    }
  }

  // --- Running a query ---------------------------------------------------------------------------------

  /** What a server's answer to the bounded text of sql comes to. */
  function Executed(a: Answer, sql: string, displayLimit: nat): Outcome<Result<seq<Out>>>
    requires ValidAnswer(a)
  {
    match a
    case Rejected => Err(QueryFailed)
    case Answered(columns, types, rows, broken) =>
      match Materialized(rows, types, broken)
      case Err(e) => Err(e)
      case Ok(fetched) => Ok(Shaped(columns, types, fetched, displayLimit, HasTopLevelOrderBy(sql)))
  }

  /** What a query comes to: the query's failure when the server rejects it, the scan's or the stream's
      as above, and otherwise the first rows of all, each value under its own column's type, under the
      answer's own columns and types, with the limit and whether there was more. */
  lemma ExecutedOutcome(a: Answer, sql: string, n: nat)
    requires ValidAnswer(a)
    ensures var r := Executed(a, sql, n);
            && (a.Rejected? <==> r == Err(QueryFailed))
            && (r.Ok? <==> a.Answered? && AllReadable(a.rows) && !a.broken)
            && (r == Err(ScanFailed) <==> a.Answered? && !AllReadable(a.rows))
            && (r == Err(ReadFailed) <==> a.Answered? && AllReadable(a.rows) && a.broken)
    ensures var r := Executed(a, sql, n);
            r.Ok? ==>
              && r.value.columns == a.columns && r.value.columnTypes == a.types && r.value.limit == n
              && r.value.count == |r.value.rows| && (r.value.truncated <==> |a.rows| > n)
              && |r.value.rows| == (if |a.rows| <= n then |a.rows| else n)
              && RowsShown(a.rows[..|r.value.rows|], a.types, r.value.rows)
              && (r.value.truncated ==> r.value.note == if HasTopLevelOrderBy(sql) then FIRST_ROWS else ARBITRARY)
  {
    if a.Answered? {
      ScanOutcome(a.rows, a.types, a.broken);
      var out := Materialized(a.rows, a.types, a.broken);
      if out.Ok? { RowsShownPrefix(a.rows, a.types, out.value, n); }
    }
  }

  lemma RowsShownPrefix(rows: seq<Scanned>, types: seq<string>, shown: seq<seq<Out>>, n: nat)
    requires RowsShown(rows, types, shown)
    ensures var k := if |rows| <= n then |rows| else n;
            RowsShown(rows[..k], types, Take(shown, n))
  {
    if |rows| <= n { assert rows[..|rows|] == rows; }
  }

  method ExecBounded(conn: Connection, sql: string, displayLimit: int) returns (r: Outcome<Result<seq<Out>>>)
    requires 0 < displayLimit && forall text :: ValidAnswer(conn.answers(text))
    modifies conn`queried
    ensures var bounded := Bound(sql, WrapInt(displayLimit + 1));
            conn.queried == old(conn.queried) + [bounded] && r == Executed(conn.answers(bounded), sql, displayLimit)
  {
    var bounded := Bound(sql, WrapInt(displayLimit + 1));
    var rows := conn.Query(bounded);
    if rows.None? {
      return Err(QueryFailed);
    }
    var fetched := ScanRows(rows.value);
    match fetched {
      case Err(e) => r := Err(e);
      case Ok(all) =>
        var shaped := Shape(rows.value.columns, rows.value.types, all, displayLimit, HasTopLevelOrderBy(sql));
        r := Ok(shaped);
    }
  }

  /** The gates of run_query, in their order. */
  function QueryGate(sql: string): Option<Refusal> {
    if IsBlank(sql) then Some(NothingToRun)
    else if Multiple(sql) then Some(SeveralStatements)
    else if !IsRowReturning(sql) then Some(NotRowReturning)
    else if HasUnsupportedOutputClause(sql) then Some(OutputRedirected)
    else None
  }

  function StatementGate(sql: string): Option<Refusal> {
    if IsBlank(sql) then Some(NothingToRun)
    else if Multiple(sql) then Some(SeveralStatements)
    else if IsRowReturning(sql) then Some(ReturnsRows)
    else None
  }

  method RunQuery(conn: Connection, sql: string, argLimit: int) returns (r: Outcome<Result<seq<Out>>>)
    requires forall text :: ValidAnswer(conn.answers(text))
    modifies conn`queried
    ensures QueryGate(sql).Some? ==> r == Err(Refused(QueryGate(sql).value)) && conn.queried == old(conn.queried)
    ensures QueryGate(sql).None? ==>
              var limit := if argLimit <= 0 then 100 else argLimit;
              var bounded := Bound(sql, WrapInt(limit + 1));
              && conn.queried == old(conn.queried) + [bounded] && !Multiple(bounded)
              && r == Executed(conn.answers(bounded), sql, limit)
  {
    var keyword := ReadLeadingKeyword(sql);
    if keyword == "" {
      return Err(Refused(NothingToRun));
    }
    var several := ContainsMultipleStatements(sql);
    if several {
      return Err(Refused(SeveralStatements));
    }
    if !IsRowReturning(sql) {
      return Err(Refused(NotRowReturning));
    }
    if HasUnsupportedOutputClause(sql) {
      return Err(Refused(OutputRedirected));
    }
    var limit := argLimit;
    if limit <= 0 {
      limit := DEFAULT_ROW_LIMIT;
    }
    BoundKeepsSingle(sql, WrapInt(limit + 1));
    r := ExecBounded(conn, sql, limit);
  }

  method RunStatement(conn: Connection, sql: string) returns (r: Outcome<nat>)
    modifies conn`executed
    ensures StatementGate(sql).Some? ==>
              r == Err(Refused(StatementGate(sql).value)) && conn.executed == old(conn.executed)
    ensures StatementGate(sql).None? ==>
              && conn.executed == old(conn.executed) + [sql]
              && r == (if conn.writes(sql).Ok? then conn.writes(sql) else Err(StatementFailed))
  {
    var keyword := ReadLeadingKeyword(sql);
    if keyword == "" {
      return Err(Refused(NothingToRun));
    }
    var several := ContainsMultipleStatements(sql);
    if several {
      return Err(Refused(SeveralStatements));
    }
    if IsRowReturning(sql) {
      return Err(Refused(ReturnsRows));
    }
    var wrote := conn.Exec(sql);
    r := if wrote.Ok? then wrote else Err(StatementFailed);
  }

  /** The two tools split the texts between them: none is let through by both, and what either
      lets through is one statement that is not blank. */
  lemma ToolsPartition(sql: string)
    ensures !(QueryGate(sql).None? && StatementGate(sql).None?)
    ensures QueryGate(sql) == Some(NotRowReturning) <==> StatementGate(sql).None?
    ensures StatementGate(sql) == Some(ReturnsRows) <==>
              QueryGate(sql).None? || QueryGate(sql) == Some(OutputRedirected)
    ensures QueryGate(sql).None? || StatementGate(sql).None? ==> !IsBlank(sql) && !Multiple(sql)
  {
  }

  lemma {:induction false} MaterializedTake(rows: seq<Scanned>, types: seq<string>, n: nat)
    requires forall i :: 0 <= i < |rows| ==> rows[i].Row? && |rows[i].values| == |types|
    ensures Materialized(rows, types, false).Ok?
    ensures |Materialized(rows, types, false).value| == |rows|
    ensures Materialized(Take(rows, n), types, false) == Ok(Take(Materialized(rows, types, false).value, n))
    decreases |rows|
  {
    if rows == [] {
    } else {
      MaterializedTake(rows[1..], types, if n > 0 then n - 1 else 0);
      var all := Materialized(rows, types, false).value;
      if n == 0 {
        assert Take(rows, 0) == [];
      } else if n < |rows| {
        assert rows[..n][1..] == rows[1..][..n - 1];
        assert all[..n] == [all[0]] + all[1..][..n - 1];
      }
    }
  }

  /** A server that delivers its rows: every one of them can be read, and none fails after them. */
  predicate Readable(rows: seq<Scanned>, types: seq<string>) {
    forall i :: 0 <= i < |rows| ==> rows[i].Row? && |rows[i].values| == |types|
  }

  function Delivered(columns: seq<string>, types: seq<string>, rows: seq<Scanned>): (a: Answer)
    requires Readable(rows, types)
    ensures ValidAnswer(a)
  {
    Answered(columns, types, rows, false)
  }

  lemma ExecutedTake(rows: seq<Scanned>, columns: seq<string>, types: seq<string>, sql: string, n: nat)
    requires Readable(rows, types)
    ensures Readable(Take(rows, n + 1), types)
    ensures Executed(Delivered(columns, types, Take(rows, n + 1)), sql, n)
         == Executed(Delivered(columns, types, rows), sql, n)
    ensures var r := Executed(Delivered(columns, types, rows), sql, n);
            r.Ok? && |r.value.rows| == if |rows| <= n then |rows| else n
  {
    MaterializedTake(rows, types, n + 1);
    MoreIsEnough(columns, types, Materialized(rows, types, false).value, n, n + 1, HasTopLevelOrderBy(sql));
  }

  /** End to end: against a server that honours LIMIT and delivers the rows of the statement as
      written, it delivers those of the text it is sent, and the outcome of the query is what reading
      every row of the statement and shaping it would be. */
  lemma QueryShowsTheStatement(run: string -> seq<Scanned>, plain: string -> bool,
                               columns: seq<string>, types: seq<string>, sql: string, n: nat)
    requires HonoursLimit(run, plain) && n < MAX_INT
    requires QueryGate(sql).None? && (CanBound(sql) ==> WellClosed(sql) && plain(sql))
    requires Readable(run(sql), types)
    ensures Readable(run(Bound(sql, WrapInt(n + 1))), types)
    ensures Executed(Delivered(columns, types, run(Bound(sql, WrapInt(n + 1)))), sql, n)
         == Executed(Delivered(columns, types, run(sql)), sql, n)
    ensures var r := Executed(Delivered(columns, types, run(sql)), sql, n);
            r.Ok? && |r.value.rows| == if |run(sql)| <= n then |run(sql)| else n
  {
    ExecutedTake(run(sql), columns, types, sql, n);
    if CanBound(sql) {
      BoundedText(run, plain, sql, n);
    }
  }
}
