# A verified model of clickhouse-mcp

clickhouse-mcp lets a language model run SQL against ClickHouse. This project models, in Dafny, the
three parts of it whose correctness is not visible from any one function, and proves what they
promise:

- **The SQL text layer** (`internal/query/result.go`, driven by `internal/tools/run_query.go` and
  `run_statement.go`). Three independently written views of comments and literals, the rewriting of
  a query into `SELECT * FROM (inner newline) LIMIT n+1`, the output-clause gate, and the two
  execution tools over a connection.
- **The result serializer** (`internal/query/serialize.go`). A parser of ClickHouse type text, and a
  recursion over scanned values that re-parses that text at every level.
- **The OAuth broker's signed state** (`internal/auth/broker_proxy.go`). A proxy without sessions
  that sends each client's redirect and state through the upstream in a signed blob.

## How the model is built

| files | content |
|---|---|
| `Text`, `Options`, `Characters` | the parts of Go's `strings`, `unicode` and `strconv` in use: trimming, searching, decimal numerals; the character classes, character by character |
| `Lexer`, `Tokens` | the statement scanner as the program's loop with look-ahead and index skips, proved against an automaton with neither; a lossless tokenizer that gives the same verdict; literals |
| `Keyword`, `LeadingWord` | the leading-keyword reader, how it and the scanner agree, and the keyword as the first word of a text |
| `Bounding`, `WrappedText`, `Paging`, `LimitServer` | the rewriting, in full and by its laws, what the scanner makes of its output, truncation by one row too many, and a server that meets what is assumed of one |
| `OutputClause`, `OutputGate`, `FinalFormat`, `GateExamples` | the line-based comment stripper (in place, on an array), exactly what the FORMAT / INTO OUTFILE gate rejects, its verdict on a clause however that is spaced, and queries on which it is wrong |
| `TypeNames`, `TypeAst`, `TypeTexts` | the type-text parser, type trees with a printer, the round trips, and what the parser reads from the text of each kind of type |
| `Serialize`, `JsonSafety`, `JsonContent`, `JsonNumbers` | the serializer, what every output satisfies, what stands where in it, and which numbers survive a reader of doubles |
| `Expectation`, `Dateless`, `Threading`, `ThreadingLimits`, `ThreadingExamples` | the serializer's specification on type trees, types without dates, the theorem that the two agree, exactly for which types they do, and two columns for which they do not |
| `Tools`, `Routing` | cursor, connection and the two tools as classes and methods; which tool takes which text |
| `Redirects`, `StateCodec`, `CodecLaws`, `Broker` | the redirect guard, the bytes of the signed state and independent readers of them, the protocol as a step system |

Loops of the source are methods with loops, each proved equal to a function or predicate; the
theorems are lemmas about those. Text is a sequence of Unicode scalar values: every byte that the
program compares against is ASCII, so scanning bytes and scanning characters agree.

Parameters stand for what lies outside: the answers of the server, URL parsing, the JSON reader, the
keyed hash and the clock. The hash is symbolic: no two texts share one, and a maker of callbacks
shows a right signature only after some record was signed with it. `Broker.AssumptionsCanBeMet`
shows that the assumptions about the reader and the hash can hold together.

## What was found

- **The two comment skippers part on `/*/`.** The keyword reader searches for `*/` from the start of
  the comment (`internal/query/result.go:177`), so it takes the opener's own star for a closer; the
  scanner does not. `/*/SELECT` has the keyword SELECT for one and is comment text for the other.
  `Keyword.SkippersAgreeIff` gives the exact condition.
- **Blank is wider than documented.** `IsBlank` is described as whitespace and comments; open parens
  and one comment that never ends count too (`Keyword.BlankIff`; `Keyword.ParenIsBlank` at a lone
  paren).
- **The output-clause gate is wrong both ways.** `OutputGate.GateIff` says exactly what it rejects, on
  every text: what is left of the query after stripping and trimming names an outfile between single
  spaces, or ends in the word FORMAT, a space and one identifier. So a clause gets through when
  something else stands where that space should be, or behind the name, or when the stripper takes the
  clause away: it cuts a line at the first `--`, inside a literal too (`internal/query/result.go:142`).
  `FinalFormat.FormatVerdict` decides every final FORMAT clause with whitespace, semicolons and block
  comments between its words and behind, `FinalFormat.OutfileVerdict` every single INTO OUTFILE with
  whitespace between its words. Witnesses, all in `GateExamples`: `LiteralHidesFormat` and
  `DashesHideTwoLines` (dashes in a literal), `NewlineHidesFormat` and `NewlineHidesOutfile` (a
  newline behind the word), `CommentHidesFormat` (`SELECT 1 FORMAT JSON /* c */`). The other way,
  `SELECT format FROM t ORDER BY format DESC` has no output clause and is refused
  (`ColumnTakenForClause`).
- **A quoted field name with a space hides its type.** A leading quoted identifier is meant to be taken
  for a name (`internal/query/serialize.go:169-171`); the text is cut at the first space whether quoted
  or not, so a date scanned under ``Tuple(`a b` Date)`` prints as a timestamp, in a slice and in a map
  (`ThreadingExamples.QuotedNameLosesDate`). The exact conditions differ: a paren in the name hides the
  type in a slice too (`TypeAst.FieldTypeIff`), but not in a map (`TypeTexts.FieldTypesIff`).
- **Dates are lost under a transparent wrapper over a Map or a Tuple.** The Map and Tuple arms look
  at the outer constructor alone, and the type text lags one level behind from there on: under
  `SimpleAggregateFunction(any, Map(String, Date))` a calendar date prints as a timestamp
  (`ThreadingExamples.AggregateLosesDate`).
  `ThreadingLimits.ThreadingIff` says exactly which types are threaded faithfully, of all types;
  `WrappedMapIff` and `WrappedNamedTupleIff` are its cases for values scanned as maps, with no
  condition on their keys.
- **The largest limit wraps.** With the largest int as its limit a query is wrapped with a negative
  LIMIT (`Paging.FetchLimitIff`).
- **Wide signed integers stay numbers.** The result's documentation
  (`internal/query/result.go:223`) speaks of large integers as strings; a signed 64-bit integer is
  passed through as it is (`internal/query/serialize.go:241-244`), and the model follows the code.
  `JsonNumbers.LargeIntegerStaysNumber` is the witness; `JsonNumbers.ExactIff` says exactly which values
  come out without an integer that a double would round.

## Model

| member | source | states |
|---|---|---|
| Lexer.ContainsMultipleStatements | internal/query/result.go:62-125 | the six-state loop with look-ahead and index skips answers exactly whether some semicolon that an automaton without look-ahead sees outside literals and comments has more than whitespace after it |
| Tokens.Lossless | internal/query/result.go:52-125 | cutting a text into literals, comments, separators and other characters loses nothing |
| Tokens.VerdictFromTokens | internal/query/result.go:62-125 | for every text the scanner's verdict is that some separator lexeme has a non-whitespace character after it |
| Lexer.LiteralVerdict | internal/query/result.go:95-112 | around a literal that encloses its body the verdict depends on the text before and after alone, and the scanner is back to normal |
| Lexer.LiteralSwap | internal/query/result.go:59-61 | swapping the string that a literal stands for, backslash-escaped or quote-doubled, in any of the three quotes, never changes the verdict |
| Lexer.MultipleBlankTail | internal/query/result.go:89-93 | trailing whitespace changes no verdict, from any scanner state |
| Characters.SpacesAre | internal/query/result.go:91 | the characters that count as white space, one by one |
| Characters.UpperLetters | internal/query/result.go:35 | upper case, letter by letter |
| Characters.UpperOthers | internal/query/result.go:35 | no other character changes but the two whose upper case is an ASCII letter |
| Characters.TerminatorTrimIs | internal/query/result.go:35 | what the trim of semicolons and spaces leaves is the text without its longest tail of these two, and nothing else is |
| Keyword.ReadLeadingKeyword | internal/query/result.go:166-195 | the loop that rewrites its text reads the same keyword as the recursive specification |
| Keyword.PrependTrivia | internal/query/result.go:162-195 | prepending any list of whitespace, line comments, block comments and open parens changes neither the keyword nor where it is found |
| Keyword.BlankIff | internal/query/result.go:8-14 | exactly which texts have nothing to run: trivia, and perhaps one comment that never ends |
| Keyword.ParenIsBlank | internal/query/result.go:182-184 | the witness: a lone opening paren has nothing to run |
| Keyword.BlockEndsAgree | internal/query/result.go:176-179 | reader and scanner agree on the end of a block comment exactly when its text does not begin with a slash |
| Keyword.SkippersAgreeIff | internal/query/result.go:162-195 | the scanner is in its normal state after every piece of trivia that the reader skips exactly when no block comment begins with a slash |
| Keyword.KeywordInOpenText | internal/query/result.go:162-195 | where the reader stops to read a keyword the scanner is outside every literal and comment, as long as no comment before it begins with a slash |
| Keyword.SkippersDisagree | internal/query/result.go:176-179 | the witness: the reader sees a SELECT that the scanner takes for comment text |
| LeadingWord.WordRead | internal/query/result.go:162-195 | the keyword is the first word after any trivia, in upper case; a space, tab, newline, carriage return or opening paren ends it |
| LeadingWord.NotBlankIff | internal/query/result.go:8-14 | a text is not blank exactly when it begins with a word |
| LeadingWord.RowReturningIff | internal/query/result.go:16-29 | exactly which texts return rows: those whose first word, in any case, is one of SELECT, WITH, SHOW, DESCRIBE, DESC, EXPLAIN and EXISTS |
| Bounding.BoundVerdict | internal/query/result.go:203-209 | the scanner's verdict on the wrapped text is exactly whether the inner query still holds a terminator, closed or not |
| Bounding.BoundKeepsSingle | internal/query/result.go:197-209 | bounding keeps a single statement single, for every text and every limit, with no assumption that literals or comments are closed |
| Bounding.WrapperNotSwallowed | internal/query/result.go:200-209 | the scanner is outside every literal and comment at every character of the appended limit exactly when the original text ends outside them, a running line comment aside |
| Bounding.WrapperMatches | internal/query/result.go:203-209 | the injected parens match each other exactly when the original text ends open and its own parens balance |
| WrappedText.BoundIs | internal/query/result.go:127-137 | exactly which texts are wrapped, those whose first word is SELECT or WITH, and into what: the inner query between the two literals, with the limit behind; every other text stays |
| WrappedText.TrimUnique | internal/query/result.go:203-209 | the inner query is the only text that the three trims can leave |
| OutputClause.Strip | internal/query/result.go:139-147 | the loop over the array of lines gives the text without its line comments, line by line |
| OutputClause.CheckIdentifier | internal/query/result.go:149-160 | true exactly when every character may stand in an identifier |
| Characters.IdentCharsAre | internal/query/result.go:158-160 | the characters of an identifier, one by one |
| OutputClause.StripRefinesScanner | internal/query/result.go:139-147 | without quotes and block comments the stripper deletes exactly the characters the scanner takes for line comments |
| OutputClause.StripIdempotent | internal/query/result.go:139-147 | stripping twice is stripping once |
| FinalFormat.FormatRejected | internal/query/result.go:30-50 | a final FORMAT clause, in any case and followed by any semicolons and spaces, is rejected after any query whose last line has no two dashes, in a comment or anywhere else, when a space follows the word |
| OutputGate.GateIff | internal/query/result.go:34-50 | for every text: a query is rejected exactly when what the stripper and the trims leave of it holds the outfile words with one space between them and a space or nothing behind, or ends in the word FORMAT, a space and one identifier, with no identifier in front and the identifier not such a word itself |
| OutputGate.NamesOutfileIff | internal/query/result.go:36-38 | the outfile half on every text, as a split into parts |
| OutputGate.EndsInFormatIff | internal/query/result.go:39-49 | the FORMAT half on every text, as a split into parts: searching the last occurrence and trimming finds a clause exactly when there is one |
| FinalFormat.FormatVerdict | internal/query/result.go:34-50 | the exact verdict on a final FORMAT clause in any case, after any text, with any whitespace, semicolons and block comments between its words and behind, as the stripper leaves them: rejected exactly when an outfile is named too, or the word stands by itself with a space behind, only whitespace lies before the name, and the trims leave only whitespace behind it |
| FinalFormat.OutfileVerdict | internal/query/result.go:34-38 | the exact verdict on an INTO OUTFILE clause where the word stands nowhere else: seen exactly when one space is between the words and behind them a space or nothing |
| FinalFormat.FormatRejectedIff | internal/query/result.go:34-50 | for a clause of plain words written after any query, comments and all: with two dashes on the query's last line the verdict is that on the query without the clause up to the clause's first newline, which is all of it where it has none; otherwise it is rejected exactly when a space, and no other whitespace, follows the word, or an outfile is named before it |
| OutputClause.DashesHide | internal/query/result.go:139-147 | two dashes on the last line hide everything up to the next newline from the gate |
| GateExamples.LiteralHidesFormat | internal/query/result.go:142 | the witness: `SELECT '--' FORMAT JSON` passes the gate |
| GateExamples.DashesHideTwoLines | internal/query/result.go:142 | the witness: so it does with the name on the next line, though a space follows the word |
| GateExamples.NewlineHidesFormat | internal/query/result.go:41 | the witness: a FORMAT clause with its name on the next line passes the gate |
| GateExamples.CommentHidesFormat | internal/query/result.go:48-49 | the witness: `SELECT 1 FORMAT JSON /* c */` passes the gate |
| GateExamples.NewlineHidesOutfile | internal/query/result.go:36 | the witness: INTO OUTFILE with the file's name on the next line passes the gate |
| GateExamples.ColumnTakenForClause | internal/query/result.go:41-49 | the witness the other way: `SELECT format FROM t ORDER BY format DESC` is rejected |
| Paging.Shape | internal/query/result.go:229-252 | the rows shown are the first ones fetched, at most the display limit and all of them when they fit; columns, types and limit are those given; truncation is reported exactly when there was more, and the note, in full, tells ordered from arbitrary |
| Paging.OrderedIff | internal/query/result.go:254-258 | a query counts as ordered exactly when it holds the two words with one space between them, in any case and anywhere |
| Paging.WrapIntWraps | internal/tools/run_query.go:64 | the sum of limit and one wraps at 64 bits |
| Paging.FetchLimitIff | internal/tools/run_query.go:64 | the injected limit is a numeral that reads back as n + 1 exactly below the largest int |
| Paging.OneMoreIsLeast | docs/adr/0004-result-bounding-via-limit-n-plus-1.md:9-12 | fetching k rows shows what fetching all would, for every result, exactly when k exceeds the display limit |
| Bounding.InnerCanBound | internal/query/result.go:127-137 | the inner query of a wrapped statement still reads as SELECT or WITH, so the wrap is asked only of statements that accept one |
| Paging.BoundedRefinesUnbounded | internal/tools/run_query.go:58-79 | against a server that honours a LIMIT up to the largest int around closed single SELECT and WITH queries without an output clause, shaping what the bounded statement fetches equals shaping every row of the statement as written; a statement of any other kind may be anything |
| LimitServer.SomeServerHonoursLimit | internal/tools/run_query.go:58-62 | for any rows some server with those rows meets what is assumed of one, even with every text taken for a query without output clause |
| Tools.ScanRows | internal/tools/run_query.go:83-109 | the cursor loop yields every row rendered under its column types, or the first failure in the stream and no rows |
| Tools.ScanOutcome | internal/tools/run_query.go:83-109 | without reference to the loop: all the rows, each value under its own column's type, exactly when every one can be read and the stream does not break after them; the scan's failure when one cannot; the stream's otherwise |
| Tools.ExecutedOutcome | internal/tools/run_query.go:63-79 | the same for a whole query, with the rejection, and with columns, types, limit, count, truncation and note each in their own field |
| Tools.ExecBounded | internal/tools/run_query.go:63-79 | sends exactly the bounded text, once, and answers with the shaped rows or the failure |
| Tools.RunQuery | internal/tools/run_query.go:35-56 | a refused query sends nothing and names the first gate it fails; any other sends one bounded text that is still a single statement, for the limit given or 100 without one |
| Tools.RunStatement | internal/tools/run_statement.go:35-52 | a refused statement executes nothing; any other is executed once, as written |
| Tools.ToolsPartition | internal/tools/run_statement.go:36-46 | no text passes both tools, each tool's routing refusal is the other's acceptance (output clauses aside), and what passes is one statement that is not blank |
| Routing.RoutedByWord | internal/tools/run_query.go:36-47 | what both tools answer to every text with a first word, the seven words named: several statements are refused first, then the word decides, and at run_query the output clause after it |
| Routing.RoutedBlank | internal/tools/run_statement.go:36-38 | both tools refuse every text without a first word as nothing to run, whatever else is in it |
| Routing.WritesAreNotQueried | internal/query/result.go:19-20 | the witness: no INSERT, CREATE or DROP goes down the query path |
| Tools.QueryShowsTheStatement | internal/tools/run_query.go:58-109 | end to end, for each query that passes the gates, against such a server that delivers the rows of that statement: it delivers those of the bounded text, and the outcome is that of reading and shaping every row of the statement as written |
| TypeNames.ElemType | internal/query/serialize.go:143-167 | unwrapping returns its argument or something strictly shorter and trimmed, on every text |
| TypeNames.Split | internal/query/serialize.go:121-141 | the depth-counting loop cuts at exactly the top-level commas, trims the pieces and drops an empty last one |
| TypeNames.CheckDateOnly | internal/query/serialize.go:92-104 | the loop ends on every text, malformed ones included, and decides whether a calendar date lies behind the wrappers |
| TypeAst.RenderSolid | internal/query/serialize.go:118-120 | a printed type is one argument: its parens nest and its commas all lie inside them |
| TypeAst.SplitJoin | internal/query/serialize.go:118-141 | splitting a joined argument list gives back exactly the arguments |
| TypeAst.TypeNameOfApp | internal/query/serialize.go:106-116 | the name and the argument text of a printed application come back |
| TypeAst.ElemTypeOfApp | internal/query/serialize.go:143-167 | which argument unwrapping finds in any printed application |
| TypeAst.ParensAloneStay | internal/query/serialize.go:151-154 | parens with no constructor in front wrap nothing |
| TypeAst.SpaceAroundIsIdle | internal/query/serialize.go:92-116 | white space around a type text changes neither its name and arguments nor the date test |
| TypeAst.ElemTypeOfRender | internal/query/serialize.go:143-167 | one unwrapping step on text is one step down the type tree |
| TypeAst.IsDateOnlyIff | internal/query/serialize.go:88-104 | on printed types the date test holds exactly when the leaf behind the wrappers is Date or Date32 |
| TypeAst.FieldTypeIff | internal/query/serialize.go:169-184 | a name and a space in front of a type are taken off exactly when the name, quoted or bare, holds neither a space nor an opening paren |
| TypeTexts.FieldTypesIff | internal/query/serialize.go:224-230 | the table of field types for a tuple scanned to a map gains a field under its name, whatever fields come before, exactly when the name holds no space; a paren in it does no harm there |
| TypeTexts.MembersOfApp | internal/query/serialize.go:212-230 | key, value and field types come from a printed Map of two arguments and a printed Tuple, and from nothing else |
| TypeAst.FieldTypeOfRender | internal/query/serialize.go:169-184 | the type of a printed field, named or not, is recovered exactly under that condition on its name |
| Serialize.ToJSONValue | internal/query/serialize.go:31-86 | the case split, with the loop of its byte-array arm, computes the recursive specification |
| Serialize.ReflectSlice | internal/query/serialize.go:194-211 | the loop renders every element, in order and in full, under the type text of its position |
| Serialize.ReflectMap | internal/query/serialize.go:212-240 | the loop builds the object entry by entry under key, value and field types |
| Expectation.TimeFreeRenders | internal/query/serialize.go:31-86 | a value without times renders alike under every type text |
| Expectation.UntypedRenders | internal/query/serialize.go:72-82 | without a type, or under a text that says nothing, every time at every depth prints as a timestamp |
| Dateless.DatelessRenders | internal/query/serialize.go:186-246 | under the text of any type without dates no time prints as a date, in any value whose keys hold no paren, be it of that type or not |
| Threading.SpineThreads | internal/query/serialize.go:186-211 | down a chain of wrappers the type text may lag behind the value and still gives the same rendering |
| Threading.ThreadingIsFaithful | internal/query/serialize.go:31-86 | for every value that threads through its type the string-driven serializer equals the specification on type trees: a time at any depth, in array, nullable, map key or value, named or unnamed tuple, prints as a calendar date exactly when its position is Date or Date32. Any value does where transparent wrappers sit only over wrapped leaves; where they hide no date, one whose keys hold no paren |
| ThreadingLimits.ThreadingIff | internal/query/serialize.go:186-240 | exactly which types are threaded faithfully, for all their values whose keys hold no paren: those in which each transparent wrapper over something with a date wraps just a date |
| ThreadingLimits.WrappedMapIff | internal/query/serialize.go:212-223 | transparent wrappers over a Map are threaded faithfully for all values exactly when the Map holds no date as key or in its values |
| ThreadingLimits.WrappedNamedTupleIff | internal/query/serialize.go:212-230 | transparent wrappers over a named tuple, scanned as a map, are threaded faithfully for all values exactly when no field has a date in it |
| ThreadingExamples.AggregateLosesDate | internal/query/serialize.go:212-223 | the witness: a date value under `SimpleAggregateFunction(any, Map(String, Date))` prints as a timestamp |
| ThreadingExamples.QuotedNameLosesDate | internal/query/serialize.go:169-184 | the witness: a date under a field named by a quoted identifier with a space prints as a timestamp, in a slice and, whatever its key, in a map |
| Dateless.NoDateIsOpaque | internal/query/serialize.go:21-25 | a type without dates asks for nothing that having no type would not give |
| JsonSafety.RendersSafe | internal/query/serialize.go:21-30 | no rendering, at any depth and under any type text, holds an infinity, a NaN, or a 64-bit unsigned, big integer, decimal, time or address in raw form; signed integers are raw whatever their size |
| JsonContent.ReadsBack | internal/query/serialize.go:31-86 | every part of every value comes out at its own place with its own content, at every depth: strings, booleans and narrow integers as they are, wide integers as their decimal text, decimals as their digits, finite floats as they are and other floats and everything nil as null, identifiers, addresses and times as text, bytes as a list of numbers, keys as text that reads back; for every value whose keys render apart under the type text in force there |
| JsonNumbers.ExactIff | internal/query/result.go:223 | a result holds no integer that a double would round exactly when no signed integer of the value, at any depth, exceeds 2 to the power of 53, for every value whose keys, at every depth, render apart under the type text in force there |
| JsonNumbers.SmallIntsAreExact | internal/query/serialize.go:241-244 | the sufficient half of it, for every value |
| JsonContent.PlainKeysApart | internal/query/serialize.go:248-259 | string or integer keys of one kind, each once, render apart under every key type |
| JsonNumbers.LargeIntegerStaysNumber | internal/query/serialize.go:241-244 | the witness: the largest signed 64-bit integer stays a number |
| JsonSafety.NoEntryLostIff | internal/query/serialize.go:231-239 | a map keeps all its entries exactly when no two keys render alike |
| JsonSafety.LastEntryStays | internal/query/serialize.go:231-239 | where keys render alike, the entry visited last is kept, in full |
| JsonSafety.PlainMapLosesNothing | internal/query/serialize.go:248-259 | a map with string or integer keys loses no entry and shows each value under its own key |
| JsonSafety.OrderDoesNotMatter | internal/query/serialize.go:231-240 | with distinct rendered keys the object does not depend on the order in which entries are visited |
| Redirects.ValidateClientRedirect | internal/auth/broker_proxy.go:43-71 | the search loop over the allow-list decides the guard's verdict |
| Redirects.SuffixMatchIff | internal/auth/broker_proxy.go:65-68 | for all strings an entry matches a host exactly when its dot-separated label list is a suffix of the host's |
| Redirects.AcceptedIff | internal/auth/broker_proxy.go:40-75 | exactly which redirects pass: no fragment, and over either scheme the hosts localhost, 127.0.0.1 and ::1 or, over https, a host whose labels end in an allowed entry's |
| Redirects.OnlyLoopbackByDefault | internal/auth/broker_proxy.go:31-34 | with an empty allow-list the three loopback hosts pass and no other, however it begins |
| Redirects.LookalikeRefused | internal/auth/broker_proxy.go:73-75 | the witness: a host that only begins with localhost is refused |
| Redirects.RefusalIs | internal/auth/broker_proxy.go:43-71 | which reason a refused redirect gets |
| Redirects.OrderOfAllowListIsIdle | internal/auth/broker_proxy.go:65-70 | order and repetition in the allow-list change no verdict |
| StateCodec.EscapedInjective | internal/auth/broker_proxy.go:144-149 | an escaped string (section 7 of RFC 8259) up to its closing quote determines the string and what follows |
| StateCodec.MarshalInjective | internal/auth/broker_proxy.go:136-142 | the JSON text determines all five fields, whatever quotes, braces or commas they hold |
| CodecLaws.MarshalShown | internal/auth/broker_proxy.go:136-142 | the JSON text of a record whose strings need no escapes, in full |
| CodecLaws.Utf8Reads | internal/auth/broker_proxy.go:96-100 | a reader of UTF-8 (section 3 of RFC 3629) gets the text's characters from its bytes |
| StateCodec.DecodeOfEncode | internal/auth/broker_proxy.go:101-112 | decoding undoes unpadded base64url (section 5 of RFC 4648) on every byte string |
| CodecLaws.GroupIs | internal/auth/broker_proxy.go:101 | each three bytes give four base64url digits, the same number in base 256 and in base 64; one or two last bytes give two or three digits and no padding |
| CodecLaws.AlphabetIs | internal/auth/broker_proxy.go:101 | the digits, one by one |
| CodecLaws.DecodesIff | internal/auth/broker_proxy.go:108-112 | exactly which texts decode: line breaks aside, those over the alphabet without a lone last character |
| StateCodec.BlobInjective | internal/auth/broker_proxy.go:86-101 | different records travel as different blobs |
| StateCodec.CanonicalUnambiguous | internal/auth/broker_proxy.go:144-156 | the signed bytes determine redirect, state, nonce and timestamp |
| Broker.SignState | internal/auth/broker_proxy.go:81-102 | the blob decodes to the bytes of a record with the given redirect, state and nonce, the current second, and as signature the hash of its cleared form |
| Broker.SignVerify | internal/auth/broker_proxy.go:108-134 | a signed blob verifies to its own redirect and state exactly from one minute before its second to ten minutes after, and is otherwise expired |
| Broker.HandleAuthorize | internal/auth/broker_proxy.go:161-203 | exactly when the browser is sent on: a GET, a redirect that passes the guard, an S256 challenge that is not empty and at most 4096 bytes long, a nonce and a parsable upstream; and then to the upstream, with our parameters, the client's challenge and the signed blob, and no other parameter changed |
| Broker.ScopesComeBack | internal/auth/broker_proxy.go:196-198 | the scopes come back when the joined text is cut at its spaces |
| Broker.HandleCallback | internal/auth/broker_proxy.go:208-248 | exactly when the browser is sent back: a GET without error, a code that is not empty and at most 4096 bytes long, and a state that reads as a fresh record with a right signature and a redirect that passes the guard; and then to that redirect, with the code, the record's non-empty state, and no other parameter changed |
| Broker.StepKeepsSound | internal/auth/broker_proxy.go:205-248 | every step keeps the invariant that each redirect sent answers a record signed earlier for an accepted redirect, within its window |
| Broker.EveryRunIsSound | internal/auth/broker_proxy.go:81-129 | the invariant holds after every interleaving of logins, clock ticks and made-up callbacks |
| Broker.HonestFlowsComplete | internal/auth/broker_proxy.go:205-248 | after any run, a callback that brings a signed record's blob back in time is never refused and goes to that record's redirect with its state |
| Broker.LoginCompletes | internal/auth/broker_proxy.go:158-248 | from login to callback, whatever happens before and between: the state sent upstream, brought back within ten minutes, leads to that login's own redirect with the callback's code and that login's state |
| Broker.FlowsNeverCross | internal/auth/broker_proxy.go:77-80 | blobs of logins that differ in redirect, state, nonce or second differ |
| Broker.AssumptionsCanBeMet | internal/auth/broker_proxy.go:144-156 | some JSON reader and some hash meet the assumptions made of them, together |

## Left out

- KeywordInOpenText: goes one way about the last stop, because after a comment that begins with a slash a later piece of trivia may close the scanner's comment by chance; the two-way statement, about every stop, is SkippersAgreeIff.
- ThreadingIff: says nothing of values with a paren in a key. An unnamed tuple field such as `AggregateFunction(sum, Map(Date, String))` is cut at its first space, and a key that equals the piece before it would meet the rest as its type; ThreadingIsFaithful covers such values for types whose transparent wrappers sit only over wrapped leaves.
- ThreadingIsFaithful: value typing is generous (a time may stand at any position, Nil anywhere), which makes the theorem stronger and its necessity, in ThreadingIff, use tuples whose other positions are Nil.
- BoundedRefinesUnbounded: says nothing of wrapped queries whose parens do not balance, whose literals do not end, or that hold a second statement; what the server makes of those is outside the model. Which texts the server takes for a query without an output clause is a parameter, since an output clause that slips past the gate is one the wrapped text no longer honours. For statements without ORDER BY it takes the server to give the same rows each time.
- QueryShowsTheStatement: takes the server to deliver the rows of the statement as written without error, all of the columns' width; failures are covered by ScanRows and ExecBounded.
- SplitJoin: arguments must nest their parens and keep commas inside them, because the splitter ignores quotes: a leaf's parameters may be any nested text, commas in an enum's literals included, but not a literal with a lone paren.
- IsDateOnlyIff: a leaf's lone parameter must not read as a type, since any single argument is unwrapped.
- FieldTypeOfRender: a name that ends in whitespace is not covered. Well-formed types name their fields by single words; what becomes of other names is FieldTypeIff.
- OutfileVerdict: supposes that the word OUTFILE stands nowhere else; with any number of them the exact statement is NamesOutfileIff.
- FormatVerdict: line comments are taken away before it looks, block comments are not; where a line comment hides a part of the clause, DashesHide says what is left to judge.
- ReadsBack: a time reads as either of its two renderings; which one is ThreadingIff and its kin. Of a map with keys that render alike it says nothing; LastEntryStays does.
- ExactIff: a map with keys that render alike loses entries, and a large integer may be lost with one; for such values only SmallIntsAreExact holds.
- RendersSafe: dates inside Variant, Dynamic and JSON are inside this theorem and outside the date-threading one, since their type is lost by design (internal/query/serialize.go:73-76). Go types defined over uint64 or float64 that would reach the default arm are not modelled.
- EveryRunIsSound: allows replay within the window, as the program does, so it claims no at-most-once.
- FlowsNeverCross: nonces are parameters; that two random nonces differ is not claimed.
- MarshalInjective: fields are valid Unicode; on invalid UTF-8 the program's JSON writer substitutes a replacement character.
- LiteralSwap: literals are sequences of characters; a backslash before a multi-byte character skips one character here and one byte in the program, which ends in the same state.
- Upper-casing beyond what a comparison with ASCII can see; keywords with other letters differ from every keyword either way.
- Map keys that are neither times, strings nor integers: their text is a parameter, so two of them may or may not collide.
- Time formatting, UUID, address, decimal and float printing, and the JSON encoder itself: texts are fields or parameters.
- URL parsing and printing, the HMAC, the JSON reader, randomness and the clock: parameters; a URL is its scheme, host, fragment, query and an untouched rest.
- The 64-bit range of timestamps and the saturation of Go's durations: the clock counts nanoseconds without bound.
- The driver, the network, HTTP, MCP registration and the context settings of a query: a query gives a finite sequence of rows or a failure.
- The token endpoint, dynamic client registration, metadata, token verification and configuration: straight-line copying and required-field checks.
- The list tools: the same bound of one row too many with easier statements.
- SQL grammar and the meaning of queries: only the repository's own lexical states are used.
