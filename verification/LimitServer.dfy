/** A server that meets the assumption Paging makes of one: it reads nested injected limits as
    numbers, and has any rows it likes. */
module LimitServer {
  import opened Text
  import opened Lexer
  import opened Bounding
  import opened Paging

  function AfterLastLive(s: string, i: nat): (n: nat)
    requires i <= |s|
    ensures n <= i && (n == 0 || !(IsSpace(s[n - 1]) || s[n - 1] == ';'))
    ensures forall j :: n <= j < i ==> IsSpace(s[j]) || s[j] == ';'
  {
    if i == 0 || !(IsSpace(s[i - 1]) || s[i - 1] == ';') then i else AfterLastLive(s, i - 1)
  }

  /** A text without the whitespace in front and the whitespace and semicolons behind. */
  function Kernel(sql: string): string {
    DropInert(TrimLeft(sql))
  }

  function DropInert(s: string): string {
    s[..AfterLastLive(s, |s|)]
  }

  lemma DropInertCuts(s: string)
    ensures var k := DropInert(s);
            && |k| <= |s| && s == k + s[|k|..] && Inert(s[|k|..])
            && (k == [] || (k[0] == s[0] && !IsSpace(k[|k| - 1]) && k[|k| - 1] != ';'))
  {
  }

  lemma InTwo(sql: string, lead: string, s: string, k: string, rest: string)
    requires sql == lead + s && s == k + rest
    ensures sql == lead + k + rest
  {
  }

  lemma KernelParts(sql: string) returns (lead: string, rest: string)
    ensures sql == lead + Kernel(sql) + rest && Blank(lead) && Inert(rest)
    ensures Live(Kernel(sql))
  {
    var s := TrimLeft(sql);
    TrimLeftCuts(sql);
    rest := InertTail(s);
    lead := sql[..|sql| - |s|];
    InTwo(sql, lead, s, DropInert(s), rest);
  }

  lemma InertTail(s: string) returns (rest: string)
    requires s == [] || !IsSpace(s[0])
    ensures s == DropInert(s) + rest && Inert(rest) && Live(DropInert(s))
  {
    DropInertCuts(s);
    rest := s[|DropInert(s)|..];
  }

  // No edge to trim.
  predicate Live(k: string) {
    k == [] || (!IsSpace(k[0]) && !IsSpace(k[|k| - 1]) && k[|k| - 1] != ';')
  }

  lemma LastLiveIs(k: string, rest: string)
    requires Inert(rest) && Live(k)
    ensures DropInert(k + rest) == k
  {
    var s := k + rest;
    var n := AfterLastLive(s, |s|);
    assert forall i :: |k| <= i < |s| ==> s[i] == rest[i - |k|];
    assert k != [] ==> s[|k| - 1] == k[|k| - 1];
    assert n == |k|;
  }

  lemma AllInert(s: string)
    requires Inert(s)
    ensures Kernel(s) == []
  {
    var t := TrimLeft(s);
    assert [] + t == t;
    LastLiveIs([], t);
  }

  lemma KernelIs(lead: string, k: string, rest: string, sql: string)
    requires Blank(lead) && Inert(rest) && Live(k) && sql == lead + k + rest
    ensures Kernel(sql) == k
  {
    if k == [] {
      AllInert(sql);
    } else {
      assert sql == lead + (k + rest);
      TrimLeftIsParts(lead, k + rest);
      LastLiveIs(k, rest);
    }
  }

  lemma KernelOfCut(sql: string, lead: string, inner: string, rest: string)
    requires Blank(lead) && Inert(rest) && sql == lead + inner + rest
    ensures Kernel(inner) == Kernel(sql)
  {
    var before, after := KernelParts(inner);
    KernelRegroups(lead, before, Kernel(inner), after, rest, inner, sql);
  }

  lemma KernelRegroups(lead: string, before: string, k: string, after: string, rest: string, inner: string, sql: string)
    requires Blank(lead) && Blank(before) && Inert(after) && Inert(rest) && Live(k)
    requires inner == before + k + after && sql == lead + inner + rest
    ensures Kernel(sql) == k
  {
    BlankAppend(lead, before);
    InertAppend(after, rest);
    assert sql == (lead + before) + k + (after + rest);
    KernelIs(lead + before, k, after + rest, sql);
  }

  lemma KernelOfInner(sql: string)
    ensures Kernel(Inner(sql)) == Kernel(sql)
  {
    var lead, rest := Cut(sql);
    KernelOfCut(sql, lead, Inner(sql), rest);
  }

  predicate IsLimited(sql: string, inner: string, digits: string) {
    sql == Limited(inner, digits) && digits != "" && Digits(digits)
  }

  lemma LimitedOnce(inner: string, digits: string, inner': string, digits': string)
    requires Limited(inner, digits) == Limited(inner', digits')
    requires Digits(digits) && Digits(digits') && |digits| <= |digits'|
    ensures inner == inner' && digits == digits'
  {
    var s := Limited(inner, digits);
    var head, head' := OPENING + "(" + inner + CLOSING, OPENING + "(" + inner' + CLOSING;
    assert s == head + digits == head' + digits';
    var n := |s| - |digits| - 1;
    assert s[n] == head[|head| - 1] == CLOSING[|CLOSING| - 1] == ' ';
    assert forall i :: |head'| <= i < |s| ==> s[i] == digits'[i - |head'|] && IsDigit(s[i]);
    assert |digits| == |digits'|;
    assert digits == s[|head|..] == digits';
    assert head == s[..|head|] == head';
    assert inner == head[|OPENING| + 1..|head| - |CLOSING|] == inner';
  }

  /** A server with those rows for every text it does not see limited. */
  ghost function Serve<Row>(rows: seq<Row>, sql: string): seq<Row>
    decreases |sql|
  {
    var k := Kernel(sql);
    if exists inner, digits :: IsLimited(k, inner, digits) then
      var inner, digits :| IsLimited(k, inner, digits);
      Take(Serve(rows, inner), ParseNat(digits))
    else rows
  }

  lemma LimitedIsKernel(inner: string, digits: string)
    requires digits != "" && Digits(digits)
    ensures Kernel(Limited(inner, digits)) == Limited(inner, digits)
  {
    var s := Limited(inner, digits);
    assert s[0] == 'S' && s[|s| - 1] == digits[|digits| - 1] && IsDigit(digits[|digits| - 1]);
    assert [] + s + [] == s;
    KernelIs([], s, [], s);
  }

  lemma ServeLimited<Row>(rows: seq<Row>, inner: string, digits: string)
    requires digits != "" && Digits(digits)
    ensures Serve(rows, Limited(inner, digits)) == Take(Serve(rows, inner), ParseNat(digits))
  {
    var s := Limited(inner, digits);
    LimitedIsKernel(inner, digits);
    assert IsLimited(s, inner, digits);
    forall inner', digits' | IsLimited(s, inner', digits') ensures inner' == inner && digits' == digits {
      if |digits| <= |digits'| {
        LimitedOnce(inner, digits, inner', digits');
      } else {
        LimitedOnce(inner', digits', inner, digits);
      }
    }
  }

  lemma ServeShort<Row>(rows: seq<Row>, sql: string)
    requires |sql| < |OPENING|
    ensures Serve(rows, sql) == rows
  {
    assert |Kernel(sql)| <= |sql|;
  }

  /** The assumption about the server can be met with any rows, every text taken for a query. */
  lemma SomeServerHonoursLimit<Row(!new)>(rows: seq<Row>)
    ensures exists run: string -> seq<Row> :: HonoursLimit(run, _ => true) && run("SELECT 1") == rows
  {
    var run: string -> seq<Row> := sql => Serve(rows, sql);
    var plain: string -> bool := _ => true;
    forall inner, digits | Boundable(inner) && plain(inner) && digits != "" && Digits(digits)
      ensures run("SELECT * FROM (" + inner + "\n) LIMIT " + digits) == Take(run(inner), ParseNat(digits))
    {
      LimitedIs(inner, digits);
      ServeLimited(rows, inner, digits);
    }
    forall sql | Boundable(sql) && plain(sql) ensures plain(Inner(sql)) && run(Inner(sql)) == run(sql) {
      KernelOfInner(sql);
    }
    ServeShort(rows, "SELECT 1");
    assert HonoursLimit(run, plain) && run("SELECT 1") == rows;
  }
}
