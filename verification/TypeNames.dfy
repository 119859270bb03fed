/** The ClickHouse type-name parser of internal/query/serialize.go: string functions over type
    text as the driver reports it. */
module TypeNames {
  import opened Text

  /** The first position of c at or after i, or |s|. */
  function Find(s: string, c: char, i: nat): (n: nat)
    requires i <= |s|
    ensures i <= n <= |s| && (n < |s| ==> s[n] == c)
    ensures forall j :: i <= j < n ==> s[j] != c
    decreases |s| - i
  {
    if i == |s| || s[i] == c then i else Find(s, c, i + 1)
  }

  /** The outer constructor of a type and its argument text; a leaf has no arguments. */
  function TypeName(dbType: string): (r: (string, string))
    ensures |r.0| + |r.1| <= |dbType|
    ensures r.1 != "" ==> |r.0| + |r.1| + 2 <= |dbType|
  {
    var t := TrimSpace(dbType);
    var open := Find(t, '(', 0);
    if open == |t| || t[|t| - 1] != ')' then (t, "")
    else (t[..open], t[open + 1..|t| - 1])
  }

  function Shift(c: char): int {
    if c == '(' then 1 else if c == ')' then -1 else 0
  }

  /** The first comma at or after i that is met at depth 0, counting from depth d; or |s|. */
  function TopComma(s: string, i: nat, d: int): (n: nat)
    requires i <= |s|
    ensures i <= n <= |s|
    decreases |s| - i
  {
    if i == |s| || (s[i] == ',' && d == 0) then i else TopComma(s, i + 1, d + Shift(s[i]))
  }

  // The texts between the top-level commas, from position start on.
  function Pieces(args: string, start: nat): (raw: seq<string>)
    requires start <= |args|
    ensures raw != []
    decreases |args| - start
  {
    var n := TopComma(args, start, 0);
    if n == |args| then [args[start..]] else [args[start..n]] + Pieces(args, n + 1)
  }

  // Each piece trimmed; an empty last one is dropped.
  function TrimPieces(raw: seq<string>): seq<string>
    requires raw != []
  {
    var s := TrimSpace(raw[0]);
    if |raw| > 1 then [s] + TrimPieces(raw[1..]) else if s != "" then [s] else []
  }

  /** The arguments of an argument text: what lies between its top-level commas. */
  function SplitTopLevel(args: string): seq<string> {
    TrimPieces(Pieces(args, 0))
  }

  lemma {:induction false} PieceShort(args: string, start: nat, k: nat)
    requires start <= |args| && k < |Pieces(args, start)|
    ensures |Pieces(args, start)[k]| <= |args|
    decreases |args| - start
  {
    var n := TopComma(args, start, 0);
    if n < |args| && k > 0 {
      PieceShort(args, n + 1, k - 1);
    }
  }

  lemma {:induction false} TrimPiecesAt(raw: seq<string>, k: nat)
    requires raw != [] && k < |TrimPieces(raw)|
    ensures |TrimPieces(raw)| <= |raw| && TrimPieces(raw)[k] == TrimSpace(raw[k])
  {
    if |raw| > 1 {
      var rest := TrimPieces(raw[1..]);
      assert TrimPieces(raw) == [TrimSpace(raw[0])] + rest;
      if k > 0 {
        TrimPiecesAt(raw[1..], k - 1);
      } else if |rest| > 0 {
        TrimPiecesAt(raw[1..], 0);
      }
    }
  }

  lemma PartShort(args: string, k: nat)
    requires k < |SplitTopLevel(args)|
    ensures |SplitTopLevel(args)[k]| <= |args| && Trimmed(SplitTopLevel(args)[k])
  {
    TrimPiecesAt(Pieces(args, 0), k);
    PieceShort(args, 0, k);
  }

  // What the loop still has to cut, with the current argument begun at start, the scan at i
  // and the depth there.
  predicate Pending(args: string, start: nat, i: nat, depth: int, raw: seq<string>) {
    && start <= i <= |args|
    && raw == Pieces(args, start)
    && TopComma(args, start, 0) == TopComma(args, i, depth)
  }

  lemma PendingStep(args: string, start: nat, i: nat, depth: int, raw: seq<string>)
    requires i < |args| && Pending(args, start, i, depth, raw)
    requires args[i] != ',' || depth != 0
    ensures Pending(args, start, i + 1, depth + Shift(args[i]), raw)
  {
  }

  lemma PendingComma(args: string, start: nat, i: nat, raw: seq<string>)
    requires i < |args| && Pending(args, start, i, 0, raw) && args[i] == ','
    ensures |raw| > 1 && raw[0] == args[start..i]
    ensures Pending(args, i + 1, i + 1, 0, raw[1..])
  {
  }

  lemma PendingEnd(args: string, start: nat, depth: int, raw: seq<string>)
    requires Pending(args, start, |args|, depth, raw)
    ensures raw == [args[start..]]
  {
  }

  // The trimmed forms of the pieces cut so far.
  predicate TrimmedForms(out: seq<string>, cut: seq<string>) {
    |out| == |cut| && forall k :: 0 <= k < |cut| ==> out[k] == TrimSpace(cut[k])
  }

  lemma TrimmedFormsMore(out: seq<string>, cut: seq<string>, piece: string)
    requires TrimmedForms(out, cut)
    ensures TrimmedForms(out + [TrimSpace(piece)], cut + [piece])
  {
  }

  lemma {:induction false} TrimmedFormsEnd(out: seq<string>, cut: seq<string>, last: string)
    requires TrimmedForms(out, cut)
    ensures TrimPieces(cut + [last]) == out + (if TrimSpace(last) != "" then [TrimSpace(last)] else [])
  {
    if cut == [] {
    } else {
      assert (cut + [last])[1..] == cut[1..] + [last];
      assert forall k :: 0 <= k < |cut[1..]| ==> cut[1..][k] == cut[k + 1];
      TrimmedFormsEnd(out[1..], cut[1..], last);
    }
  }

  // The loop's state: out holds the trimmed pieces cut so far, raw the pieces still to come.
  predicate Splitting(args: string, out: seq<string>, start: nat, i: nat, depth: int,
                      cut: seq<string>, raw: seq<string>) {
    Pending(args, start, i, depth, raw) && Pieces(args, 0) == cut + raw && TrimmedForms(out, cut)
  }

  lemma SplitStep(args: string, out: seq<string>, start: nat, i: nat, depth: int, cut: seq<string>, raw: seq<string>)
    returns (cut': seq<string>, raw': seq<string>)
    requires i < |args| && Splitting(args, out, start, i, depth, cut, raw)
    ensures if args[i] == ',' && depth == 0 then
              Splitting(args, out + [TrimSpace(args[start..i])], i + 1, i + 1, 0, cut', raw')
            else
              Splitting(args, out, start, i + 1, depth + Shift(args[i]), cut', raw')
  {
    if args[i] == ',' && depth == 0 {
      PendingComma(args, start, i, raw);
      TrimmedFormsMore(out, cut, args[start..i]);
      cut', raw' := cut + [args[start..i]], raw[1..];
      assert cut + raw == cut' + raw';
    } else {
      PendingStep(args, start, i, depth, raw);
      cut', raw' := cut, raw;
    }
  }

  lemma SplitDone(args: string, out: seq<string>, start: nat, depth: int, cut: seq<string>, raw: seq<string>)
    requires Splitting(args, out, start, |args|, depth, cut, raw)
    ensures var s := TrimSpace(args[start..]);
            SplitTopLevel(args) == out + (if s != "" then [s] else [])
  {
    PendingEnd(args, start, depth, raw);
    TrimmedFormsEnd(out, cut, args[start..]);
  }

  method Split(args: string) returns (out: seq<string>)
    ensures out == SplitTopLevel(args)
  {
    out := [];
    var depth, start, i := 0, 0, 0;
    ghost var cut, raw := [], Pieces(args, 0);
    while i < |args|
      invariant Splitting(args, out, start, i, depth, cut, raw)
      decreases |args| - i
    {
      cut, raw := SplitStep(args, out, start, i, depth, cut, raw);
      match args[i] {
        case '(' => depth := depth + 1;
        case ')' => depth := depth - 1;
        case ',' =>
          if depth == 0 {
            out := out + [TrimSpace(args[start..i])];
            start := i + 1;
          }
        case _ =>
      }
      i := i + 1;
    }
    SplitDone(args, out, start, depth, cut, raw);
    var s := TrimSpace(args[start..]);
    if s != "" {
      out := out + [s];
    }
  }

  /** The element type behind one wrapper; other types come back unchanged. */
  function ElemType(dbType: string): (r: string)
    ensures r == dbType || (|r| < |dbType| && Trimmed(r))
  {
    var (name, args) := TypeName(dbType);
    if name in {"", "Map", "Tuple", "Variant"} then dbType
    else
      var parts := SplitTopLevel(args);
      if name == "SimpleAggregateFunction" then
        if |parts| >= 2 then
          assert |parts[|parts| - 1]| <= |args| && Trimmed(parts[|parts| - 1]) by {
            PartShort(args, |parts| - 1);
          }
          parts[|parts| - 1]
        else dbType
      else if |parts| == 1 then
        assert |parts[0]| <= |args| && Trimmed(parts[0]) by { PartShort(args, 0); }
        parts[0]
      else dbType
  }

  predicate IsDate(t: string) {
    t == "Date" || t == "Date32"
  }

  /** Whether a type is a calendar date behind any number of wrappers. Unwrapping either stops
      or shortens the text, so this is defined on every text, malformed ones included. */
  predicate IsDateOnly(dbType: string) {
    DateBehind(TrimSpace(dbType))
  }

  predicate DateBehind(t: string)
    requires Trimmed(t)
    decreases |t|
  {
    IsDate(t) || (ElemType(t) != t && DateBehind(ElemType(t)))
  }

  method CheckDateOnly(dbType: string) returns (date: bool)
    ensures date <==> IsDateOnly(dbType)
  {
    var t := TrimSpace(dbType);
    while true
      invariant Trimmed(t)
      invariant IsDateOnly(dbType) <==> DateBehind(t)
      decreases |t|
    {
      if t == "Date" || t == "Date32" {
        return true;
      }
      var inner := ElemType(t);
      if inner != t {
        TrimmedIsFixed(inner);
        t := TrimSpace(inner);
        continue;
      }
      return false;
    }
  }

  /** The type of a tuple field, without the field's name if it has one. */
  function FieldType(field: string): string {
    var sp := Find(field, ' ', 0);
    if 0 < sp < |field| then
      var rest := TrimSpace(field[sp + 1..]);
      if rest != "" && '(' !in field[..sp] then rest else field
    else field
  }
}
