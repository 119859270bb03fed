/** ClickHouse types as trees, their text, and the theorem that the string functions of
    TypeNames undo the printing. */
module TypeAst {
  import opened Text
  import opened TypeNames

  datatype Field = Field(name: string, ty: Ty)

  /** A leaf may carry parameter text, printed as it is between parens. `Opaque` stands for "no type known",
      which the program writes as the empty text. */
  datatype Ty =
    | Opaque
    | Leaf(head: string, params: string)
    | Array(elem: Ty)
    | Nullable(elem: Ty)
    | LowCardinality(elem: Ty)
    | SimpleAgg(fn: string, elem: Ty)
    | MapOf(key: Ty, val: Ty)
    | Tuple(fields: seq<Field>)
    | Variant(alts: seq<Ty>)

  function Join(args: seq<string>): string {
    if args == [] then "" else if |args| == 1 then args[0] else args[0] + ", " + Join(args[1..])
  }

  function InParens(name: string, body: string): string {
    name + "(" + body + ")"
  }

  function App(name: string, args: seq<string>): string {
    InParens(name, Join(args))
  }

  function Render(t: Ty): string {
    match t
    case Opaque => ""
    case Leaf(head, params) => if params == "" then head else InParens(head, params)
    case Array(e) => App("Array", [Render(e)])
    case Nullable(e) => App("Nullable", [Render(e)])
    case LowCardinality(e) => App("LowCardinality", [Render(e)])
    case SimpleAgg(fn, e) => App("SimpleAggregateFunction", [fn, Render(e)])
    case MapOf(k, v) => App("Map", [Render(k), Render(v)])
    case Tuple(fields) => App("Tuple", RenderFields(fields))
    case Variant(alts) => App("Variant", RenderAll(alts))
  }

  function RenderField(f: Field): string {
    if f.name == "" then Render(f.ty) else f.name + " " + Render(f.ty)
  }

  function RenderFields(fields: seq<Field>): (r: seq<string>)
    ensures |r| == |fields|
    ensures forall i :: 0 <= i < |fields| ==> r[i] == RenderField(fields[i])
  {
    if fields == [] then [] else [RenderField(fields[0])] + RenderFields(fields[1..])
  }

  function RenderAll(ts: seq<Ty>): (r: seq<string>)
    ensures |r| == |ts|
    ensures forall i :: 0 <= i < |ts| ==> r[i] == Render(ts[i])
  {
    if ts == [] then [] else [Render(ts[0])] + RenderAll(ts[1..])
  }

  // --- Well-formed text -----------------------------------------------------------------------

  function DepthAt(s: string, i: nat): int
    requires i <= |s|
  {
    if i == 0 then 0 else DepthAt(s, i - 1) + Shift(s[i - 1])
  }

  predicate Nested(s: string) {
    DepthAt(s, |s|) == 0 && forall i :: 0 <= i <= |s| ==> DepthAt(s, i) >= 0
  }

  /** One argument: its parens nest, and its commas are all inside them. */
  predicate Solid(s: string) {
    && s != "" && Trimmed(s) && Nested(s)
    && forall i :: 0 <= i < |s| && s[i] == ',' ==> DepthAt(s, i) > 0
  }

  /** A type constructor or a field name. */
  predicate Word(s: string) {
    s != "" && forall i :: 0 <= i < |s| ==> s[i] != '(' && s[i] != ')' && s[i] != ',' && !IsSpace(s[i])
  }

  const CONSTRUCTORS := {"Array", "Nullable", "LowCardinality", "SimpleAggregateFunction", "Map", "Tuple", "Variant"}

  /** A leaf is no constructor, and its parameters are any text with nested parens, commas and all,
      as long as a lone one cannot be taken for a type behind a wrapper. */
  predicate LeafOk(head: string, params: string) {
    && Word(head) && head !in CONSTRUCTORS && Nested(params)
    && (|SplitTopLevel(params)| == 1 ==> Literal(SplitTopLevel(params)[0]))
  }

  predicate Literal(text: string) {
    text != "Date" && text != "Date32" && (text == "" || text[|text| - 1] != ')')
  }

  predicate DistinctNames(fields: seq<Field>) {
    forall i, j :: 0 <= i < j < |fields| && fields[i].name != "" ==> fields[i].name != fields[j].name
  }

  predicate WellFormed(t: Ty) {
    match t
    case Opaque => false
    case Leaf(head, params) => LeafOk(head, params)
    case Array(e) => WellFormed(e)
    case Nullable(e) => WellFormed(e)
    case LowCardinality(e) => WellFormed(e)
    case SimpleAgg(fn, e) => Solid(fn) && WellFormed(e)
    case MapOf(k, v) => WellFormed(k) && WellFormed(v)
    case Tuple(fields) =>
      && DistinctNames(fields)
      && forall i :: 0 <= i < |fields| ==> (fields[i].name == "" || Word(fields[i].name)) && WellFormed(fields[i].ty)
    case Variant(alts) => forall i :: 0 <= i < |alts| ==> WellFormed(alts[i])
  }

  // --- Depth ------------------------------------------------------------------------------------

  lemma {:induction false} DepthAppend(a: string, b: string, i: nat)
    requires i <= |a + b|
    ensures DepthAt(a + b, i) == if i <= |a| then DepthAt(a, i) else DepthAt(a, |a|) + DepthAt(b, i - |a|)
  {
    if i == 0 {
    } else {
      DepthAppend(a, b, i - 1);
    }
  }

  lemma {:induction false} FlatDepth(s: string, i: nat)
    requires i <= |s| && forall k :: 0 <= k < |s| ==> s[k] != '(' && s[k] != ')'
    ensures DepthAt(s, i) == 0
  {
    if i == 0 {
    } else {
      FlatDepth(s, i - 1);
    }
  }

  lemma WordSolid(s: string)
    requires Word(s)
    ensures Solid(s)
  {
    forall i | 0 <= i <= |s| ensures DepthAt(s, i) == 0 {
      FlatDepth(s, i);
    }
  }

  lemma NestedAppend(a: string, b: string)
    requires Nested(a) && Nested(b)
    ensures Nested(a + b)
  {
    forall i | 0 <= i <= |a + b| ensures DepthAt(a + b, i) >= 0 {
      DepthAppend(a, b, i);
    }
    DepthAppend(a, b, |a + b|);
  }

  lemma FlatNested(s: string)
    requires forall k :: 0 <= k < |s| ==> s[k] != '(' && s[k] != ')'
    ensures Nested(s)
  {
    forall i | 0 <= i <= |s| ensures DepthAt(s, i) == 0 {
      FlatDepth(s, i);
    }
  }

  lemma {:induction false} JoinNested(args: seq<string>)
    requires forall i :: 0 <= i < |args| ==> Solid(args[i])
    ensures Nested(Join(args))
  {
    if |args| > 1 {
      JoinNested(args[1..]);
      FlatNested(", ");
      NestedAppend(args[0], ", ");
      NestedAppend(args[0] + ", ", Join(args[1..]));
    } else if args == [] {
      FlatNested("");
    }
  }

  // A nested text in parens: its depth is at least 1 until the closer.
  lemma DepthInParens(body: string, i: nat)
    requires Nested(body) && i <= |body| + 2
    ensures DepthAt("(" + body + ")", i) == if i == 0 || i == |body| + 2 then 0 else 1 + DepthAt(body, i - 1)
  {
    var o, s := "(", "(" + body + ")";
    assert DepthAt(o, 1) == 1 + DepthAt(o, 0);
    if i <= |body| + 1 {
      assert s == (o + body) + ")";
      DepthAppend(o + body, ")", i);
      DepthAppend(o, body, i);
      if i == 0 { assert DepthAt(o, 0) == 0; }
      if i == 1 { assert DepthAt(body, 0) == 0; }
    } else {
      DepthInParens(body, |body| + 1);
      assert s[|body| + 1] == ')';
    }
  }

  lemma InParensSolid(name: string, body: string)
    requires Word(name) && Nested(body)
    ensures Solid(InParens(name, body))
  {
    var s, tail := InParens(name, body), "(" + body + ")";
    assert s == name + tail;
    WordSolid(name);
    forall i | 0 <= i <= |s|
      ensures DepthAt(s, i) >= 0
      ensures i < |s| && s[i] == ',' ==> DepthAt(s, i) > 0
      ensures i == |s| ==> DepthAt(s, i) == 0
    {
      DepthAppend(name, tail, i);
      if i > |name| { DepthInParens(body, i - |name|); }
      if i == |name| { assert s[i] == '('; }
    }
    assert s[0] == name[0] && s[|s| - 1] == ')';
  }

  lemma AppSolid(name: string, args: seq<string>)
    requires Word(name) && forall i :: 0 <= i < |args| ==> Solid(args[i])
    ensures Solid(App(name, args))
  {
    JoinNested(args);
    InParensSolid(name, Join(args));
  }

  lemma ConstructorIsWord(name: string)
    requires name in CONSTRUCTORS
    ensures Word(name)
  {
    assert forall i :: 0 <= i < |name| ==> 'A' <= name[i] <= 'z';
    assert forall c: char :: 'A' <= c <= 'z' ==> !IsSpace(c) && c != '(' && c != ')' && c != ',';
  }

  lemma WrapSolid(name: string, args: seq<string>)
    requires name in CONSTRUCTORS && forall i :: 0 <= i < |args| ==> Solid(args[i])
    ensures Solid(App(name, args))
  {
    ConstructorIsWord(name);
    AppSolid(name, args);
  }

  lemma {:induction false} RenderSolid(t: Ty)
    requires WellFormed(t)
    ensures Solid(Render(t))
  {
    match t
    case Leaf(head, params) =>
      if params == "" { WordSolid(head); } else { InParensSolid(head, params); }
    case Array(e) =>
      RenderSolid(e);
      WrapSolid("Array", [Render(e)]);
    case Nullable(e) =>
      RenderSolid(e);
      WrapSolid("Nullable", [Render(e)]);
    case LowCardinality(e) =>
      RenderSolid(e);
      WrapSolid("LowCardinality", [Render(e)]);
    case SimpleAgg(fn, e) =>
      RenderSolid(e);
      WrapSolid("SimpleAggregateFunction", [fn, Render(e)]);
    case MapOf(k, v) =>
      RenderSolid(k);
      RenderSolid(v);
      WrapSolid("Map", [Render(k), Render(v)]);
    case Tuple(fields) =>
      FieldsSolid(fields);
      WrapSolid("Tuple", RenderFields(fields));
    case Variant(alts) =>
      forall i | 0 <= i < |alts| ensures Solid(RenderAll(alts)[i]) {
        RenderSolid(alts[i]);
      }
      WrapSolid("Variant", RenderAll(alts));
  }

  lemma {:induction false} FieldsSolid(fields: seq<Field>)
    requires forall i :: 0 <= i < |fields| ==>
               (fields[i].name == "" || Word(fields[i].name)) && WellFormed(fields[i].ty)
    ensures forall i :: 0 <= i < |fields| ==> Solid(RenderFields(fields)[i])
  {
    forall i | 0 <= i < |fields| ensures Solid(RenderFields(fields)[i]) {
      RenderSolid(fields[i].ty);
      FieldSolid(fields[i]);
    }
  }

  // Text without parens and commas in front of an argument.
  predicate Flat(a: string) {
    forall k :: 0 <= k < |a| ==> a[k] != '(' && a[k] != ')' && a[k] != ','
  }

  lemma DepthAfterFlat(a: string, b: string, i: nat)
    requires Flat(a) && i <= |a + b|
    ensures DepthAt(a + b, i) == if i <= |a| then 0 else DepthAt(b, i - |a|)
  {
    DepthAppend(a, b, i);
    if i <= |a| { FlatDepth(a, i); } else { FlatDepth(a, |a|); }
  }

  lemma FlatThenSolid(a: string, b: string, s: string)
    requires Flat(a) && Solid(b) && s == a + b
    ensures Nested(s) && CommaFree(s)
  {
    assert DepthAt(b, 0) == 0;
    forall i | 0 <= i <= |s|
      ensures DepthAt(s, i) >= 0 && (i == |s| ==> DepthAt(s, i) == 0)
      ensures i < |s| && s[i] == ',' ==> DepthAt(s, i) > 0
    {
      DepthAfterFlat(a, b, i);
      if i >= |a| && i < |s| { assert s[i] == b[i - |a|]; }
    }
  }

  lemma WordFlat(name: string)
    requires Word(name)
    ensures Flat(name + " ")
  {
    assert forall k :: 0 <= k < |name| ==> (name + " ")[k] == name[k];
  }

  lemma NamedSolid(name: string, lead: string, body: string, s: string)
    requires Word(name) && lead == name + " " && Solid(body) && s == lead + body
    ensures Solid(s)
  {
    WordFlat(name);
    FlatThenSolid(lead, body, s);
    assert s[0] == name[0] && s[|s| - 1] == body[|body| - 1];
  }

  lemma FieldSolid(f: Field)
    requires (f.name == "" || Word(f.name)) && Solid(Render(f.ty))
    ensures Solid(RenderField(f))
  {
    if f.name != "" { NamedSolid(f.name, f.name + " ", Render(f.ty), RenderField(f)); }
  }

  lemma RenderTrimmed(t: Ty)
    requires WellFormed(t)
    ensures Render(t) != "" && Trimmed(Render(t))
  {
    RenderSolid(t);
  }

  // --- The parser undoes the printer ----------------------------------------------------------

  // No comma is taken for a separator while every one is met below depth 0.
  lemma {:induction false} CommaSkips(s: string, i: nat, a: string, k: nat)
    requires i + |a| <= |s| && s[i..i + |a|] == a && k <= |a|
    requires forall j :: 0 <= j < |a| && a[j] == ',' ==> DepthAt(a, j) > 0
    ensures TopComma(s, i, 0) == TopComma(s, i + k, DepthAt(a, k))
  {
    if k == 0 {
    } else {
      CommaSkips(s, i, a, k - 1);
      assert s[i + k - 1] == a[k - 1];
    }
  }

  lemma CommaAfter(s: string, i: nat, a: string)
    requires i + |a| <= |s| && s[i..i + |a|] == a && CommaFree(a)
    requires i + |a| < |s| ==> s[i + |a|] == ','
    ensures TopComma(s, i, 0) == i + |a|
  {
    var n := CommaAtEnd(s, i, a);
    CommaHere(s, n);
  }

  lemma CommaAtEnd(s: string, i: nat, a: string) returns (n: nat)
    requires i + |a| <= |s| && s[i..i + |a|] == a && CommaFree(a)
    ensures n == i + |a| && TopComma(s, i, 0) == TopComma(s, n, 0)
  {
    n := i + |a|;
    CommaSkips(s, i, a, |a|);
  }

  lemma CommaHere(s: string, i: nat)
    requires i <= |s| && (i < |s| ==> s[i] == ',')
    ensures TopComma(s, i, 0) == i
  {
  }

  predicate AllSolid(args: seq<string>) {
    forall i :: 0 <= i < |args| ==> Solid(args[i])
  }

  lemma PieceStep(s: string, i: nat, n: nat)
    requires i <= n < |s| && TopComma(s, i, 0) == n
    ensures Pieces(s, i) == [s[i..n]] + Pieces(s, n + 1)
  {
  }

  // No comma of the argument text separates.
  predicate CommaFree(x: string) {
    && DepthAt(x, |x|) == 0
    && forall j :: 0 <= j < |x| && x[j] == ',' ==> DepthAt(x, j) > 0
  }

  lemma LeadSolid(lead: string, a: string)
    requires lead == "" || lead == " "
    requires Solid(a)
    ensures CommaFree(lead + a)
  {
    FlatThenSolid(lead, a, lead + a);
  }

  predicate AllTrimmed(args: seq<string>) {
    forall i :: 0 <= i < |args| ==> args[i] != "" && Trimmed(args[i])
  }

  lemma LeadTrimmed(lead: string, a: string)
    requires (lead == "" || lead == " ") && Trimmed(a)
    ensures TrimSpace(lead + a) == a
  {
    TrimSpaceIsParts(lead, a, []);
    assert lead + a + [] == lead + a;
  }

  lemma CutAt(s: string, i: nat, x: string, y: string)
    requires i <= |s| && s[i..] == x + ("," + y)
    ensures i + |x| < |s| && s[i..i + |x|] == x && s[i + |x|] == ',' && s[i + |x| + 1..] == y
  {
    var t := x + ("," + y);
    assert t[..|x|] == x && t[|x|] == ',' && t[|x| + 1..] == y;
    assert s[i..i + |x|] == s[i..][..|x|];
    assert s[i + |x|] == s[i..][|x|];
    assert s[i + |x| + 1..] == s[i..][|x| + 1..];
  }

  // The joined arguments as they stand between the commas: all but the first after a space.
  function Spaced(lead: string, args: seq<string>): (raw: seq<string>)
    requires args != []
    ensures raw != []
    decreases |args|
  {
    [lead + args[0]] + if |args| == 1 then [] else Spaced(" ", args[1..])
  }

  lemma {:induction false} PiecesOfJoin(s: string, i: nat, lead: string, args: seq<string>)
    requires AllSolid(args) && args != [] && (lead == "" || lead == " ")
    requires i <= |s| && s[i..] == lead + Join(args)
    ensures Pieces(s, i) == Spaced(lead, args)
    decreases |args|
  {
    if |args| == 1 {
      LastPiece(s, i, lead, args[0]);
    } else {
      JoinMore(lead, args);
      LeadSolid(lead, args[0]);
      var next := FirstPiece(s, i, lead + args[0], " " + Join(args[1..]));
      PiecesOfJoin(s, next, " ", args[1..]);
    }
  }

  lemma JoinMore(lead: string, args: seq<string>)
    requires |args| > 1
    ensures lead + Join(args) == (lead + args[0]) + ("," + (" " + Join(args[1..])))
  {
  }

  lemma LastPiece(s: string, i: nat, lead: string, a: string)
    requires Solid(a) && (lead == "" || lead == " ") && i <= |s| && s[i..] == lead + a
    ensures Pieces(s, i) == [lead + a]
  {
    LeadSolid(lead, a);
    assert s[i..i + |lead + a|] == lead + a;
    CommaAfter(s, i, lead + a);
  }

  lemma CommaAfterFirst(s: string, i: nat, x: string, y: string)
    requires CommaFree(x) && i <= |s| && s[i..] == x + ("," + y)
    ensures TopComma(s, i, 0) == i + |x|
  {
    CutAt(s, i, x, y);
    CommaAfter(s, i, x);
  }

  lemma FirstPiece(s: string, i: nat, x: string, y: string) returns (next: nat)
    requires CommaFree(x) && i <= |s| && s[i..] == x + ("," + y)
    ensures i < next <= |s| && s[next..] == y && Pieces(s, i) == [x] + Pieces(s, next)
  {
    CommaAfterFirst(s, i, x, y);
    next := PieceAt(s, i, x, y);
  }

  lemma PieceAt(s: string, i: nat, x: string, y: string) returns (next: nat)
    requires i <= |s| && s[i..] == x + ("," + y) && TopComma(s, i, 0) == i + |x|
    ensures i < next <= |s| && s[next..] == y && Pieces(s, i) == [x] + Pieces(s, next)
  {
    CutAt(s, i, x, y);
    next := i + |x| + 1;
    PieceStep(s, i, next - 1);
  }

  lemma TrimPiecesCons(x: string, rest: seq<string>)
    requires TrimSpace(x) != ""
    ensures TrimPieces([x] + rest) == [TrimSpace(x)] + if rest == [] then [] else TrimPieces(rest)
  {
    assert ([x] + rest)[1..] == rest;
  }

  lemma SpacedMore(lead: string, args: seq<string>)
    requires args != []
    ensures Spaced(lead, args) == [lead + args[0]] + if |args| == 1 then [] else Spaced(" ", args[1..])
  {
  }

  // The pieces' trimmed forms, one by one.
  lemma TrimOne(lead: string, a: string, raw: seq<string>, rest: seq<string>, args: seq<string>)
    requires (lead == "" || lead == " ") && a != "" && Trimmed(a) && args == [a] + rest
    requires if raw == [] then rest == [] else TrimPieces(raw) == rest
    ensures TrimPieces([lead + a] + raw) == args
  {
    LeadTrimmed(lead, a);
    TrimPiecesCons(lead + a, raw);
  }

  lemma {:induction false} TrimSpaced(lead: string, args: seq<string>)
    requires AllTrimmed(args) && args != [] && (lead == "" || lead == " ")
    ensures TrimPieces(Spaced(lead, args)) == args
    decreases |args|
  {
    var rest := args[1..];
    var raw := if rest == [] then [] else Spaced(" ", rest);
    if rest != [] {
      TrimSpaced(" ", rest);
    }
    SpacedMore(lead, args);
    TrimOne(lead, args[0], raw, rest, args);
  }

  /** Splitting a joined argument list gives back exactly the arguments. */
  lemma SplitJoin(args: seq<string>)
    requires AllSolid(args)
    ensures SplitTopLevel(Join(args)) == args
  {
    var s := Join(args);
    if args == [] {
      assert Pieces(s, 0) == [s[0..]] && s[0..] == "";
      TrimmedIsFixed("");
    } else {
      assert s[0..] == "" + s;
      PiecesOfJoin(s, 0, "", args);
      TrimSpaced("", args);
    }
  }

  lemma FindIs(s: string, c: char, i: nat, n: nat)
    requires i <= n <= |s| && (n < |s| ==> s[n] == c)
    requires forall j :: i <= j < n ==> s[j] != c
    ensures Find(s, c, i) == n
  {
  }

  lemma TypeNameBy(name: string, body: string)
    requires Word(name)
    ensures TypeName(InParens(name, body)) == (name, body)
  {
    var s := InParens(name, body);
    assert s[0] == name[0] && s[|name|] == '(' && s[|s| - 1] == ')';
    TrimmedIsFixed(s);
    FindIs(s, '(', 0, |name|);
    assert s[..|name|] == name && s[|name| + 1..|s| - 1] == body;
  }

  /** The name and the argument text of a printed application. */
  lemma TypeNameOfApp(name: string, args: seq<string>)
    requires Word(name)
    ensures TypeName(App(name, args)) == (name, Join(args))
  {
    TypeNameBy(name, Join(args));
  }

  lemma TypeNameOfLeaf(s: string)
    requires s != "" && Trimmed(s) && ('(' !in s || s[|s| - 1] != ')')
    ensures TypeName(s) == (s, "") && ElemType(s) == s
  {
    TrimmedIsFixed(s);
    assert '(' !in s ==> Find(s, '(', 0) == |s|;
    SplitJoin([]);
  }

  lemma WordIsLeaf(s: string)
    requires Word(s)
    ensures TypeName(s) == (s, "") && ElemType(s) == s
  {
    TypeNameOfLeaf(s);
  }

  lemma ElemTypeBy(s: string, name: string, args: string, parts: seq<string>)
    requires TypeName(s) == (name, args) && SplitTopLevel(args) == parts && name != ""
    ensures ElemType(s) ==
              if name == "SimpleAggregateFunction" then (if |parts| >= 2 then parts[|parts| - 1] else s)
              else if name !in {"Map", "Tuple", "Variant"} && |parts| == 1 then parts[0]
              else s
  {
    if name in {"Map", "Tuple", "Variant"} {
      assert ElemType(s) == s;
    } else if name == "SimpleAggregateFunction" {
      assert ElemType(s) == if |parts| >= 2 then parts[|parts| - 1] else s;
    }
  }

  /** White space around a type text changes nothing. */
  lemma SpaceAroundIsIdle(a: string, t: string, b: string)
    requires Blank(a) && Blank(b) && Trimmed(t)
    ensures TypeName(a + t + b) == TypeName(t) && (IsDateOnly(a + t + b) <==> IsDateOnly(t))
  {
    TrimSpaceIsParts(a, t, b);
    TrimmedIsFixed(t);
  }

  /** Parens with nothing in front wrap nothing. */
  lemma ParensAloneStay(body: string)
    ensures ElemType("(" + body + ")") == "(" + body + ")"
  {
    var s := "(" + body + ")";
    TrimmedIsFixed(s);
    assert s[0] == '(' && s[..0] == "" && TypeName(s).0 == "";
  }

  /** The element type the program finds in a printed application. */
  lemma ElemTypeOfApp(name: string, args: seq<string>)
    requires Word(name) && AllSolid(args)
    ensures ElemType(App(name, args)) ==
              if name == "SimpleAggregateFunction" then (if |args| >= 2 then args[|args| - 1] else App(name, args))
              else if name !in {"Map", "Tuple", "Variant"} && |args| == 1 then args[0]
              else App(name, args)
  {
    TypeNameOfApp(name, args);
    SplitJoin(args);
    ElemTypeBy(App(name, args), name, Join(args), args);
  }

  /** What a wrapper wraps; other types wrap nothing. */
  predicate IsWrapper(t: Ty) {
    t.Array? || t.Nullable? || t.LowCardinality? || t.SimpleAgg?
  }

  /** What unwrapping gives for a leaf: itself, or its lone parameter. */
  function LeafElement(head: string, params: string): string {
    if |SplitTopLevel(params)| == 1 then SplitTopLevel(params)[0] else Render(Leaf(head, params))
  }

  /** One unwrapping step on text is one step down the tree; a leaf gives itself or its lone
      parameter. */
  lemma ElemTypeOfRender(t: Ty)
    requires WellFormed(t)
    ensures IsWrapper(t) ==> ElemType(Render(t)) == Render(t.elem)
    ensures t.MapOf? || t.Tuple? || t.Variant? ==> ElemType(Render(t)) == Render(t)
    ensures t.Leaf? ==> ElemType(Render(t)) == LeafElement(t.head, t.params)
  {
    match t
    case Leaf(head, params) => LeafElem(head, params);
    case Array(e) => WrapperElem("Array", e);
    case Nullable(e) => WrapperElem("Nullable", e);
    case LowCardinality(e) => WrapperElem("LowCardinality", e);
    case SimpleAgg(fn, e) => AggregateElem(fn, e);
    case _ => ManyElem(t);
  }

  lemma ManyElem(t: Ty)
    requires WellFormed(t) && (t.MapOf? || t.Tuple? || t.Variant?)
    ensures ElemType(Render(t)) == Render(t)
  {
    match t
    case MapOf(k, v) =>
      RenderSolid(k);
      RenderSolid(v);
      NoElem("Map", [Render(k), Render(v)]);
    case Tuple(fields) =>
      FieldsSolid(fields);
      NoElem("Tuple", RenderFields(fields));
    case Variant(alts) =>
      forall i | 0 <= i < |alts| ensures Solid(RenderAll(alts)[i]) { RenderSolid(alts[i]); }
      NoElem("Variant", RenderAll(alts));
  }

  lemma LeafElem(head: string, params: string)
    requires LeafOk(head, params)
    ensures ElemType(Render(Leaf(head, params))) == LeafElement(head, params)
  {
    if params == "" {
      SplitJoin([]);
      WordIsLeaf(head);
    } else {
      TypeNameBy(head, params);
      ElemTypeBy(InParens(head, params), head, params, SplitTopLevel(params));
    }
  }

  lemma LiteralIsUntyped(text: string)
    requires Literal(text) && Trimmed(text)
    ensures TypeName(text) == (text, "") && ElemType(text) == text
  {
    if text == "" {
      TrimmedIsFixed("");
    } else {
      TypeNameOfLeaf(text);
    }
  }

  lemma AggregateElem(fn: string, e: Ty)
    requires Solid(fn) && WellFormed(e)
    ensures ElemType(App("SimpleAggregateFunction", [fn, Render(e)])) == Render(e)
  {
    RenderSolid(e);
    ConstructorIsWord("SimpleAggregateFunction");
    ElemTypeOfApp("SimpleAggregateFunction", [fn, Render(e)]);
  }

  lemma NoElem(name: string, args: seq<string>)
    requires name in {"Map", "Tuple", "Variant"} && AllSolid(args)
    ensures ElemType(App(name, args)) == App(name, args)
  {
    ConstructorIsWord(name);
    ElemTypeOfApp(name, args);
  }

  lemma WrapperElem(name: string, e: Ty)
    requires name in {"Array", "Nullable", "LowCardinality"} && WellFormed(e)
    ensures ElemType(App(name, [Render(e)])) == Render(e)
  {
    RenderSolid(e);
    ConstructorIsWord(name);
    ElemTypeOfApp(name, [Render(e)]);
  }

  // --- Dates --------------------------------------------------------------------------------------

  /** The leaf reached through wrappers is a calendar date. */
  predicate DateLeaf(t: Ty) {
    match t
    case Leaf(head, params) => (head == "Date" || head == "Date32") && params == ""
    case Array(e) => DateLeaf(e)
    case Nullable(e) => DateLeaf(e)
    case LowCardinality(e) => DateLeaf(e)
    case SimpleAgg(fn, e) => DateLeaf(e)
    case _ => false
  }

  lemma ParensAreNoDate(s: string)
    requires '(' in s
    ensures !IsDate(s)
  {
  }

  lemma InParensIsNoDate(name: string, body: string)
    ensures !IsDate(InParens(name, body))
  {
    assert InParens(name, body)[|name|] == '(';
    ParensAreNoDate(InParens(name, body));
  }

  lemma ApplicationIsNoDate(t: Ty)
    requires !t.Opaque? && !t.Leaf?
    ensures !IsDate(Render(t))
  {
    match t
    case Array(e) => InParensIsNoDate("Array", Join([Render(e)]));
    case Nullable(e) => InParensIsNoDate("Nullable", Join([Render(e)]));
    case LowCardinality(e) => InParensIsNoDate("LowCardinality", Join([Render(e)]));
    case SimpleAgg(fn, e) => InParensIsNoDate("SimpleAggregateFunction", Join([fn, Render(e)]));
    case MapOf(k, v) => InParensIsNoDate("Map", Join([Render(k), Render(v)]));
    case Tuple(fields) => InParensIsNoDate("Tuple", Join(RenderFields(fields)));
    case Variant(alts) => InParensIsNoDate("Variant", Join(RenderAll(alts)));
  }

  lemma DateBehindLeaf(head: string, params: string)
    requires LeafOk(head, params) && Trimmed(Render(Leaf(head, params)))
    ensures DateBehind(Render(Leaf(head, params))) <==> DateLeaf(Leaf(head, params))
  {
    LeafElem(head, params);
    if params != "" { InParensIsNoDate(head, params); }
    if |SplitTopLevel(params)| == 1 {
      PartShort(params, 0);
      LiteralIsUntyped(SplitTopLevel(params)[0]);
    }
  }

  lemma {:induction false} DateBehindRender(t: Ty)
    requires WellFormed(t) && Trimmed(Render(t))
    ensures DateBehind(Render(t)) <==> DateLeaf(t)
  {
    if t.Leaf? {
      DateBehindLeaf(t.head, t.params);
    } else if IsWrapper(t) {
      DateBehindWrapper(t, t.elem);
    } else {
      DateBehindMany(t);
    }
  }

  lemma DateBehindMany(t: Ty)
    requires WellFormed(t) && (t.MapOf? || t.Tuple? || t.Variant?) && Trimmed(Render(t))
    ensures !DateBehind(Render(t))
  {
    ManyElem(t);
    ApplicationIsNoDate(t);
  }

  lemma DateBehindStep(s: string, e: string)
    requires Trimmed(s) && Trimmed(e) && !IsDate(s) && ElemType(s) == e && |e| < |s|
    ensures DateBehind(s) <==> DateBehind(e)
  {
  }

  lemma {:induction false} DateBehindWrapper(t: Ty, e: Ty)
    requires WellFormed(t) && IsWrapper(t) && t.elem == e && Trimmed(Render(t))
    ensures DateBehind(Render(t)) <==> DateLeaf(t)
    decreases t, 0
  {
    RenderSolid(e);
    DateBehindRender(e);
    ElemTypeOfRender(t);
    ApplicationIsNoDate(t);
    WrapperIsLonger(t);
    DateBehindStep(Render(t), Render(e));
  }

  lemma WrapperIsLonger(t: Ty)
    requires IsWrapper(t)
    ensures |Render(t.elem)| < |Render(t)|
  {
  }

  /** The program's date test, on the text of a well-formed type, decides exactly whether the
      leaf behind its wrappers is Date or Date32. */
  lemma IsDateOnlyIff(t: Ty)
    requires WellFormed(t)
    ensures IsDateOnly(Render(t)) <==> DateLeaf(t)
  {
    RenderSolid(t);
    TrimmedIsFixed(Render(t));
    DateBehindRender(t);
  }

  // --- Tuple fields ---------------------------------------------------------------------------------

  lemma {:induction false} SpaceAfterParen(t: Ty)
    requires WellFormed(t)
    ensures var s := Render(t); var sp := Find(s, ' ', 0); sp == |s| || '(' in s[..sp]
  {
    match t
    case Leaf(head, params) => if params == "" { assert ' ' !in head; } else { SpaceInParens(head, params); }
    case Array(e) => ConstructorIsWord("Array"); SpaceInParens("Array", Join([Render(e)]));
    case Nullable(e) => ConstructorIsWord("Nullable"); SpaceInParens("Nullable", Join([Render(e)]));
    case LowCardinality(e) => ConstructorIsWord("LowCardinality"); SpaceInParens("LowCardinality", Join([Render(e)]));
    case SimpleAgg(fn, e) =>
      ConstructorIsWord("SimpleAggregateFunction");
      SpaceInParens("SimpleAggregateFunction", Join([fn, Render(e)]));
    case MapOf(k, v) => ConstructorIsWord("Map"); SpaceInParens("Map", Join([Render(k), Render(v)]));
    case Tuple(fields) => ConstructorIsWord("Tuple"); SpaceInParens("Tuple", Join(RenderFields(fields)));
    case Variant(alts) => ConstructorIsWord("Variant"); SpaceInParens("Variant", Join(RenderAll(alts)));
  }

  lemma SpaceInParens(name: string, body: string)
    requires Word(name)
    ensures var s := InParens(name, body); var sp := Find(s, ' ', 0); '(' in s[..sp]
  {
    var s := InParens(name, body);
    var sp := Find(s, ' ', 0);
    assert forall j :: 0 <= j < |name| ==> s[j] == name[j];
    assert s[|name|] == '(' && sp > |name|;
    assert s[..sp][|name|] == '(';
  }

  lemma RestIsLonger(rest: string, body: string)
    requires rest != "" && !IsSpace(rest[|rest| - 1]) && body != "" && Trimmed(body)
    ensures |TrimSpace(rest + " " + body)| > |body|
  {
    var u := TrimLeft(rest);
    TrimLeftCuts(rest);
    var lead := rest[..|rest| - |u|];
    var kept := u + " " + body;
    assert u != [] && kept[0] == u[0] && kept[|kept| - 1] == body[|body| - 1];
    assert rest + " " + body == lead + kept + [];
    TrimSpaceIsParts(lead, kept, []);
  }

  lemma SpacedName(name: string, body: string, s: string)
    requires name != "" && !IsSpace(name[|name| - 1]) && body != "" && Trimmed(body) && s == name + " " + body
    requires ' ' in name
    ensures FieldType(s) != body
  {
    var sp := Find(name, ' ', 0);
    FindIs(s, ' ', 0, sp);
    assert s[sp + 1..] == name[sp + 1..] + " " + body;
    RestIsLonger(name[sp + 1..], body);
  }

  /** When a name is taken off its field, whatever the name, quoted or not: exactly when it holds
      neither a space nor an opening paren. */
  lemma FieldTypeIff(name: string, body: string)
    requires name != "" && !IsSpace(name[|name| - 1]) && body != "" && Trimmed(body)
    ensures FieldType(name + " " + body) == body <==> ' ' !in name && '(' !in name
  {
    var s := name + " " + body;
    assert s[|name|] == ' ';
    if ' ' in name {
      SpacedName(name, body, s);
    } else {
      FindIs(s, ' ', 0, |name|);
      TrimmedIsFixed(body);
      assert s[..|name|] == name && s[|name| + 1..] == body;
    }
  }

  lemma FieldTypeUnnamed(s: string)
    requires var sp := Find(s, ' ', 0); sp == |s| || '(' in s[..sp]
    ensures FieldType(s) == s
  {
  }

  /** The type of a printed field, named or not, is recovered exactly when the name, quoted or bare,
      holds neither a space nor an opening paren. */
  lemma FieldTypeOfRender(f: Field)
    requires WellFormed(f.ty) && (f.name == "" || !IsSpace(f.name[|f.name| - 1]))
    ensures FieldType(RenderField(f)) == Render(f.ty) <==> ' ' !in f.name && '(' !in f.name
  {
    RenderSolid(f.ty);
    if f.name == "" {
      SpaceAfterParen(f.ty);
      FieldTypeUnnamed(Render(f.ty));
    } else {
      FieldTypeIff(f.name, Render(f.ty));
    }
  }

  // So for every field of a well-formed type.
  lemma FieldTypeOfWord(f: Field)
    requires WellFormed(f.ty) && (f.name == "" || Word(f.name))
    ensures FieldType(RenderField(f)) == Render(f.ty)
  {
    FieldTypeOfRender(f);
  }
}
