/** Truncation by one row too many: internal/query/result.go shapes what LIMIT n+1 fetched, and
    the result is that of shaping everything. */
module Paging {
  import opened Text
  import opened Lexer
  import opened Keyword
  import opened Bounding

  datatype Result<Row> = Result(
    columns: seq<string>,
    columnTypes: seq<string>,
    rows: seq<Row>,
    count: nat,
    truncated: bool,
    limit: int,
    note: string)

  const ARBITRARY :=
    "showing an arbitrary subset; more rows exist. Add ORDER BY + LIMIT or a WHERE filter for a defined result."
  const FIRST_ROWS := "showing the first rows; more exist. Add LIMIT to control the count."

  function Take<T>(s: seq<T>, n: nat): seq<T> {
    if |s| <= n then s else s[..n]
  }

  /** What shaping the rows of a result comes to. */
  function Shaped<Row>(columns: seq<string>, types: seq<string>, fetched: seq<Row>, displayLimit: nat, ordered: bool)
    : Result<Row>
  {
    var truncated := |fetched| > displayLimit;
    var rows := Take(fetched, displayLimit);
    Result(columns, types, rows, |rows|, truncated, displayLimit,
           if !truncated then "" else if ordered then FIRST_ROWS else ARBITRARY)
  }

  // The note, in full.
  function NoteText(truncated: bool, ordered: bool): string {
    if !truncated then ""
    else if ordered then "showing the first rows; more exist. Add LIMIT to control the count."
    else
      "showing an arbitrary subset; more rows exist. Add ORDER BY + LIMIT or a WHERE filter for a defined result."
  }

  method Shape<Row>(columns: seq<string>, columnTypes: seq<string>, fetched: seq<Row>, displayLimit: int, ordered: bool)
    returns (r: Result<Row>)
    requires 0 <= displayLimit
    ensures r == Shaped(columns, columnTypes, fetched, displayLimit, ordered)
    ensures r.columns == columns && r.columnTypes == columnTypes && r.limit == displayLimit
    ensures r.rows <= fetched && |r.rows| <= displayLimit && r.count == |r.rows|
    ensures r.truncated <==> |fetched| > displayLimit
    ensures !r.truncated ==> r.rows == fetched && r.note == ""
    ensures r.truncated ==> r.count == displayLimit
    ensures r.note == NoteText(r.truncated, ordered)
  {
    var truncated := |fetched| > displayLimit;
    var rows := fetched;
    if truncated {
      rows := fetched[..displayLimit];
    }
    r := Result(columns, columnTypes, rows, |rows|, truncated, displayLimit, "");
    if truncated && !ordered {
      r := r.(note := ARBITRARY);
    } else if truncated {
      r := r.(note := FIRST_ROWS);
    }
  }

  predicate HasTopLevelOrderBy(sql: string) {
    Contains(Upper(sql), "ORDER BY")
  }

  /** Which texts count as ordered: those that hold the two words with one space between them, in any
      case and anywhere, be it in a comment or a literal. */
  lemma OrderedIff(sql: string)
    ensures HasTopLevelOrderBy(sql) <==> exists a, w, b :: sql == a + w + b && Upper(w) == "ORDER BY"
  {
    if HasTopLevelOrderBy(sql) {
      var i := Index(Upper(sql), "ORDER BY");
      var a, w, b := sql[..i], sql[i..i + 8], sql[i + 8..];
      assert Upper(w) == Upper(sql)[i..i + 8];
      assert sql == a + w + b;
    }
    forall a, w, b | sql == a + w + b && Upper(w) == "ORDER BY" ensures HasTopLevelOrderBy(sql) {
      UpperAppend(a + w, b);
      UpperAppend(a, w);
      assert Upper(sql)[|a|..|a| + 8] == Upper(w);
      assert At(Upper(sql), |a|, "ORDER BY");
    }
  }

  // --- The fetch limit ----------------------------------------------------------------------------

  const MAX_INT := 0x7FFF_FFFF_FFFF_FFFF

  /** Go's int: 64 bits, wrapping. */
  function WrapInt(n: int): int {
    (n + MAX_INT + 1) % (2 * (MAX_INT + 1)) - MAX_INT - 1
  }

  /** The wrap, by 64 bits: the one number in range that differs by a multiple of 2 to the power of 64. */
  lemma WrapIntWraps(n: int)
    ensures -0x8000_0000_0000_0000 <= WrapInt(n) < 0x8000_0000_0000_0000
    ensures (WrapInt(n) - n) % 0x1_0000_0000_0000_0000 == 0
  {
  }

  lemma WrapIntIs(n: nat)
    requires n <= MAX_INT
    ensures WrapInt(n + 1) == if n < MAX_INT then n + 1 else -MAX_INT - 1
  {
  }

  lemma NumeralIff(m: int)
    ensures Digits(Itoa(m)) <==> m >= 0
    ensures m >= 0 ==> ParseNat(Itoa(m)) == m
  {
    if m < 0 {
      assert Itoa(m)[0] == '-';
    } else {
      NatTextParses(m);
    }
  }

  /** The limit injected for a display limit n is a numeral, and that of n + 1, exactly below the
      largest int; there it wraps to a negative number. */
  lemma FetchLimitIff(n: nat)
    requires n <= MAX_INT
    ensures n < MAX_INT <==> Digits(Itoa(WrapInt(n + 1)))
    ensures n < MAX_INT ==> ParseNat(Itoa(WrapInt(n + 1))) == n + 1
  {
    WrapIntIs(n);
    NumeralIff(WrapInt(n + 1));
  }

  lemma MoreIsEnough<Row>(columns: seq<string>, types: seq<string>, all: seq<Row>, n: nat, k: nat, ordered: bool)
    requires k > n
    ensures Shaped(columns, types, Take(all, k), n, ordered) == Shaped(columns, types, all, n, ordered)
  {
    assert Take(Take(all, k), n) == Take(all, n);
  }

  /** Fetching k rows shows what fetching all of them would, for every result, exactly when k is
      more than the display limit: one row too many is the least that will do. */
  lemma OneMoreIsLeast<Row(!new)>(columns: seq<string>, types: seq<string>, n: nat, k: nat, ordered: bool, row: Row)
    ensures (forall all: seq<Row> ::
               Shaped(columns, types, Take(all, k), n, ordered) == Shaped(columns, types, all, n, ordered))
            <==> k > n
  {
    if k <= n {
      var all := seq(n + 1, _ => row);
      assert !Shaped(columns, types, Take(all, k), n, ordered).truncated;
      assert Shaped(columns, types, all, n, ordered).truncated;
    } else {
      forall all: seq<Row>
        ensures Shaped(columns, types, Take(all, k), n, ordered) == Shaped(columns, types, all, n, ordered)
      {
        MoreIsEnough(columns, types, all, n, k, ordered);
      }
    }
  }

  // --- Against a server that honours LIMIT -------------------------------------------------------------

  function Limited(inner: string, digits: string): string {
    OPENING + "(" + inner + CLOSING + digits
  }

  lemma LimitedIs(inner: string, digits: string)
    ensures Limited(inner, digits) == "SELECT * FROM (" + inner + "\n) LIMIT " + digits
  {
    assert OPENING + "(" == "SELECT * FROM (";
  }

  /** Text whose parens balance and whose literals and comments end: where the wrapper's own parens
      match each other. */
  predicate WellClosed(sql: string) {
    EndsOpen(sql) && Balanced(sql)
  }

  /** A text that run_query may wrap: one well-closed SELECT or WITH. */
  predicate Boundable(sql: string) {
    CanBound(sql) && WellClosed(sql) && !Multiple(sql)
  }

  /** A server, as the rows it gives for a text, and the texts it takes for plain queries, without
      an output clause. Around a boundable plain query it reads the injected limit as a number, if
      that is no larger than an int, and what is trimmed off such a query means nothing to it. */
  ghost predicate HonoursLimit<Row(!new)>(run: string -> seq<Row>, plain: string -> bool) {
    && (forall inner, digits :: Boundable(inner) && plain(inner) && digits != "" && Digits(digits) ==>
          ParseNat(digits) <= MAX_INT ==>
            run("SELECT * FROM (" + inner + "\n) LIMIT " + digits) == Take(run(inner), ParseNat(digits)))
    && (forall sql :: Boundable(sql) && plain(sql) ==> plain(Inner(sql)) && run(Inner(sql)) == run(sql))
  }

  lemma InnerWellClosed(sql: string)
    ensures WellClosed(Inner(sql)) <==> WellClosed(sql)
  {
    var lead, rest := Cut(sql);
    EndsOpenCut(sql, lead, Inner(sql), rest);
    BalancedCut(sql, lead, Inner(sql), rest);
  }

  lemma InnerBoundable(sql: string)
    requires Boundable(sql)
    ensures Boundable(Inner(sql))
  {
    InnerCanBound(sql);
    InnerWellClosed(sql);
    if TerminatedIn(Normal, Inner(sql)) { InnerTerminated(sql); }
    MultipleIsTerminated(Normal, Inner(sql));
  }

  /** What the bounded text fetches. */
  lemma BoundedText<Row(!new)>(run: string -> seq<Row>, plain: string -> bool, sql: string, n: nat)
    requires HonoursLimit(run, plain) && n < MAX_INT && Boundable(sql) && plain(sql)
    ensures run(Bound(sql, WrapInt(n + 1))) == Take(run(sql), n + 1)
  {
    FetchLimitIff(n);
    InnerBoundable(sql);
    var digits := Itoa(WrapInt(n + 1));
    assert ParseNat(digits) == n + 1 <= MAX_INT;
    assert Bound(sql, WrapInt(n + 1)) == Limited(Inner(sql), digits);
    assert plain(Inner(sql)) && run(Inner(sql)) == run(sql);
    LimitedIs(Inner(sql), digits);
    assert run(Limited(Inner(sql), digits)) == Take(run(Inner(sql)), ParseNat(digits));
  }

  /** The bounded path refines the unbounded one: below the largest int, shaping what the bounded
      statement fetches equals shaping all the rows of the statement as it stands. A statement that
      is not wrapped may be anything. */
  lemma BoundedRefinesUnbounded<Row(!new)>(run: string -> seq<Row>, plain: string -> bool, sql: string, n: nat,
                                           columns: seq<string>, types: seq<string>, ordered: bool)
    requires HonoursLimit(run, plain) && n < MAX_INT
    requires CanBound(sql) ==> Boundable(sql) && plain(sql)
    ensures Shaped(columns, types, run(Bound(sql, WrapInt(n + 1))), n, ordered)
         == Shaped(columns, types, run(sql), n, ordered)
    ensures var r := Shaped(columns, types, run(Bound(sql, WrapInt(n + 1))), n, ordered);
            && r.rows == Take(run(sql), n) && r.count == |r.rows|
            && (r.truncated <==> |run(sql)| > n)
  {
    if CanBound(sql) {
      BoundedText(run, plain, sql, n);
      MoreIsEnough(columns, types, run(sql), n, n + 1, ordered);
    }
  }
}
