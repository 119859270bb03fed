/** The slice of Go's `strings` and `strconv` packages that the server relies on.

    Text is a sequence of Unicode scalar values. Every byte the program compares
    against is ASCII, so scanning bytes and scanning characters agree. */
module Text {

  type Byte = n: nat | n < 256

  // --- Character classes ------------------------------------------------------

  /** Go's `unicode.IsSpace`: the White_Space property. */
  predicate IsSpace(c: char) {
    || '\t' <= c <= '\r' || c == ' ' || c == '\U{85}' || c == '\U{A0}'
    || c == '\U{1680}' || '\U{2000}' <= c <= '\U{200A}' || c == '\U{2028}' || c == '\U{2029}'
    || c == '\U{202F}' || c == '\U{205F}' || c == '\U{3000}'
  }

  predicate Blank(s: string) {
    forall i :: 0 <= i < |s| ==> IsSpace(s[i])
  }

  predicate IsDigit(c: char) {
    '0' <= c <= '9'
  }

  /** Upper-casing as far as an ASCII comparison can see it: ASCII letters, plus the two
      other characters whose upper case is ASCII (dotless i and long s). */
  function UpperChar(c: char): char {
    if 'a' <= c <= 'z' then ((c as int) - 32) as char
    else if c == '\U{131}' then 'I'
    else if c == '\U{17F}' then 'S'
    else c
  }

  function Upper(s: string): (r: string)
    ensures |r| == |s|
    ensures forall i :: 0 <= i < |s| ==> r[i] == UpperChar(s[i])
  {
    seq(|s|, i requires 0 <= i < |s| => UpperChar(s[i]))
  }

  lemma UpperAppend(a: string, b: string)
    ensures Upper(a + b) == Upper(a) + Upper(b)
  {
  }

  // --- Trimming ---------------------------------------------------------------

  function FirstSolid(s: string, i: nat): (n: nat)
    requires i <= |s|
    ensures i <= n <= |s| && (n == |s| || !IsSpace(s[n]))
    ensures forall j :: i <= j < n ==> IsSpace(s[j])
    decreases |s| - i
  {
    if i == |s| || !IsSpace(s[i]) then i else FirstSolid(s, i + 1)
  }

  function AfterLastSolid(s: string, i: nat): (n: nat)
    requires i <= |s|
    ensures n <= i && (n == 0 || !IsSpace(s[n - 1]))
    ensures forall j :: n <= j < i ==> IsSpace(s[j])
  {
    if i == 0 || !IsSpace(s[i - 1]) then i else AfterLastSolid(s, i - 1)
  }

  function TrimLeft(s: string): string {
    s[FirstSolid(s, 0)..]
  }

  function TrimRight(s: string): string {
    s[..AfterLastSolid(s, |s|)]
  }

  lemma TrimLeftCuts(s: string)
    ensures var r := TrimLeft(s);
            && |r| <= |s| && s == s[..|s| - |r|] + r && Blank(s[..|s| - |r|])
            && (r == [] || !IsSpace(r[0]))
  {
  }

  lemma TrimRightCuts(s: string)
    ensures var r := TrimRight(s);
            && |r| <= |s| && r == s[..|r|] && Blank(s[|r|..])
            && (r == [] || !IsSpace(r[|r| - 1]))
  {
  }

  predicate Trimmed(s: string) {
    s == [] || (!IsSpace(s[0]) && !IsSpace(s[|s| - 1]))
  }

  function TrimSpace(s: string): (r: string)
    ensures |r| <= |s| && Trimmed(r)
  {
    TrimRight(TrimLeft(s))
  }

  predicate IsTerminator(c: char) {
    c == ';' || c == ' '
  }

  predicate AllTerminators(s: string) {
    forall i :: 0 <= i < |s| ==> IsTerminator(s[i])
  }

  function AfterLastUntrimmed(s: string, i: nat): (n: nat)
    requires i <= |s|
    ensures n <= i && (n == 0 || !IsTerminator(s[n - 1]))
    ensures forall j :: n <= j < i ==> IsTerminator(s[j])
  {
    if i == 0 || !IsTerminator(s[i - 1]) then i else AfterLastUntrimmed(s, i - 1)
  }

  /** `strings.TrimRight(s, "; ")`. */
  function TrimTerminators(s: string): string {
    s[..AfterLastUntrimmed(s, |s|)]
  }

  lemma TrimTerminatorsCuts(s: string)
    ensures var r := TrimTerminators(s);
            && |r| <= |s| && r == s[..|r|] && AllTerminators(s[|r|..])
            && (r == [] || !IsTerminator(r[|r| - 1]))
  {
  }

  lemma TrimLeftIsParts(lead: string, u: string)
    requires Blank(lead) && (u == [] || !IsSpace(u[0]))
    ensures TrimLeft(lead + u) == u
  {
    var n := FirstSolid(lead + u, 0);
    assert u != [] ==> (lead + u)[|lead|] == u[0];
    assert n == |lead|;
  }

  lemma TrimRightIsParts(u: string, tail: string)
    requires Blank(tail) && (u == [] || !IsSpace(u[|u| - 1]))
    ensures TrimRight(u + tail) == u
  {
    var s := u + tail;
    assert forall i :: |u| <= i < |s| ==> IsSpace(s[i]);
    assert u != [] ==> s[|u| - 1] == u[|u| - 1];
    assert AfterLastSolid(s, |s|) == |u|;
  }

  lemma TrimTerminatorsIsParts(u: string, tail: string)
    requires AllTerminators(tail) && (u == [] || !IsTerminator(u[|u| - 1]))
    ensures TrimTerminators(u + tail) == u
  {
    var s := u + tail;
    assert forall i :: |u| <= i < |s| ==> IsTerminator(s[i]);
    assert u != [] ==> s[|u| - 1] == u[|u| - 1];
    assert AfterLastUntrimmed(s, |s|) == |u|;
  }

  lemma TrimSpaceParts(s: string) returns (lead: string, tail: string)
    ensures s == lead + TrimSpace(s) + tail && Blank(lead) && Blank(tail)
  {
    var m := TrimLeft(s);
    lead := s[..|s| - |m|];
    tail := m[|TrimRight(m)|..];
  }

  lemma TrimSpaceIsParts(lead: string, t: string, tail: string)
    requires Blank(lead) && Blank(tail) && Trimmed(t)
    ensures TrimSpace(lead + t + tail) == t
  {
    if t == [] {
      assert lead + t + tail == (lead + tail) + [];
      TrimLeftIsParts(lead + tail, []);
    } else {
      assert lead + t + tail == lead + (t + tail);
      TrimLeftIsParts(lead, t + tail);
      TrimRightIsParts(t, tail);
    }
  }

  lemma TrimmedIsFixed(s: string)
    requires Trimmed(s)
    ensures TrimSpace(s) == s
  {
    TrimSpaceIsParts([], s, []);
    assert [] + s + [] == s;
  }

  lemma TrimRightBlankTail(x: string, tail: string)
    requires Blank(tail)
    ensures TrimRight(x + tail) == TrimRight(x)
  {
    var r := TrimRight(x);
    assert x + tail == r + (x[|r|..] + tail);
    TrimRightIsParts(r, x[|r|..] + tail);
  }

  lemma TrimSpaceOfSolidStart(t: string)
    requires t == [] || !IsSpace(t[0])
    ensures TrimSpace(t) == TrimRight(t)
  {
    assert [] + t == t;
    TrimLeftIsParts([], t);
  }

  lemma TrimSpaceOfRight(s: string)
    ensures TrimSpace(TrimRight(s)) == TrimSpace(s)
  {
    var lead, tail := TrimSpaceParts(s);
    var t := TrimSpace(s);
    if t == [] {
      assert s == [] + (lead + tail);
      TrimRightIsParts([], lead + tail);
    } else {
      assert s == (lead + t) + tail;
      TrimRightIsParts(lead + t, tail);
      TrimSpaceIsParts(lead, t, []);
      assert lead + t + [] == lead + t;
    }
  }

  // A text with solid edges stays whole under trimming, whatever follows it.
  lemma TrimAfter(x: string, s: string)
    requires x != [] && Trimmed(x)
    ensures TrimSpace(x + s) == x + TrimRight(s)
  {
    var r := TrimRight(s);
    assert x + s == [] + (x + r) + s[|r|..];
    assert Trimmed(x + r);
    TrimSpaceIsParts([], x + r, s[|r|..]);
  }

  // --- Searching --------------------------------------------------------------

  predicate At(s: string, i: int, sub: string) {
    0 <= i && i + |sub| <= |s| && s[i..i + |sub|] == sub
  }

  predicate HasPrefix(s: string, sub: string) {
    sub <= s
  }

  predicate HasSuffix(s: string, sub: string) {
    At(s, |s| - |sub|, sub)
  }

  function IndexFrom(s: string, sub: string, i: nat): (r: int)
    requires i <= |s|
    ensures r == -1 || (i <= r && At(s, r, sub))
    ensures forall j :: i <= j && (r == -1 || j < r) ==> !At(s, j, sub)
    decreases |s| - i
  {
    if At(s, i, sub) then i
    else if i == |s| then -1
    else IndexFrom(s, sub, i + 1)
  }

  /** `strings.Index`: the first occurrence, or -1. */
  function Index(s: string, sub: string): (r: int)
    ensures -1 <= r <= |s|
    ensures r == -1 || At(s, r, sub)
    ensures forall j :: 0 <= j && (r == -1 || j < r) ==> !At(s, j, sub)
  {
    IndexFrom(s, sub, 0)
  }

  predicate Contains(s: string, sub: string): (r: bool)
    ensures r <==> exists i :: At(s, i, sub)
  {
    Index(s, sub) >= 0
  }

  function LastIndexUpTo(s: string, sub: string, i: int): (r: int)
    requires -1 <= i <= |s|
    ensures r == -1 || (0 <= r <= i && At(s, r, sub))
    ensures forall j :: r < j <= i ==> !At(s, j, sub)
    decreases i
  {
    if i == -1 then -1 else if At(s, i, sub) then i else LastIndexUpTo(s, sub, i - 1)
  }

  /** `strings.LastIndex`: the last occurrence, or -1. */
  function LastIndex(s: string, sub: string): (r: int)
    ensures r == -1 || At(s, r, sub)
    ensures forall j :: r < j ==> !At(s, j, sub)
  {
    LastIndexUpTo(s, sub, |s|)
  }

  lemma IndexIs(s: string, sub: string, i: nat)
    requires At(s, i, sub)
    requires forall j :: 0 <= j < i ==> !At(s, j, sub)
    ensures Index(s, sub) == i
  {
  }

  lemma AtAppend(x: string, y: string, i: int, sub: string)
    requires i + |sub| <= |x|
    ensures At(x + y, i, sub) == At(x, i, sub)
  {
    if 0 <= i {
      assert (x + y)[i..i + |sub|] == x[i..i + |sub|];
    }
  }

  lemma IndexAppend(x: string, y: string, sub: string)
    requires Index(x, sub) >= 0
    ensures Index(x + y, sub) == Index(x, sub)
  {
    var i := Index(x, sub);
    forall j | 0 <= j <= i ensures At(x + y, j, sub) == At(x, j, sub) {
      AtAppend(x, y, j, sub);
    }
    IndexIs(x + y, sub, i);
  }

  lemma AtChar(s: string, i: int, c: char)
    ensures At(s, i, [c]) <==> 0 <= i < |s| && s[i] == c
  {
    if 0 <= i < |s| {
      assert s[i..i + 1] == [s[i]];
    }
  }

  lemma AtPair(s: string, i: int, c: char, d: char)
    ensures At(s, i, [c, d]) <==> 0 <= i && i + 1 < |s| && s[i] == c && s[i + 1] == d
  {
    if 0 <= i && i + 1 < |s| {
      assert s[i..i + 2] == [s[i], s[i + 1]];
    }
  }

  /** Searching for one character. */
  lemma IndexChar(s: string, c: char)
    ensures var i := Index(s, [c]); i >= 0 ==> i < |s| && s[i] == c && c !in s[..i]
    ensures Index(s, [c]) < 0 <==> c !in s
  {
    var i := Index(s, [c]);
    forall j: int ensures At(s, j, [c]) <==> 0 <= j < |s| && s[j] == c { AtChar(s, j, c); }
  }

  lemma FirstNewline(line: string, rest: string)
    requires '\n' !in line
    ensures Index(line + "\n" + rest, "\n") == |line|
  {
    var t := line + "\n" + rest;
    AtChar(t, |line|, '\n');
    forall j | 0 <= j < |line| ensures !At(t, j, "\n") {
      AtChar(t, j, '\n');
      assert t[j] == line[j];
    }
    IndexIs(t, "\n", |line|);
  }

  // --- Decimal numerals -------------------------------------------------------

  predicate Digits(s: string) {
    forall i :: 0 <= i < |s| ==> IsDigit(s[i])
  }

  function NatText(n: nat): (r: string)
    ensures r != [] && Digits(r)
  {
    var d := ['0' + (n % 10) as char];
    if n < 10 then d else NatText(n / 10) + d
  }

  /** `strconv.Itoa` and every other plain decimal rendering. */
  function Itoa(n: int): (r: string)
    ensures r != [] && IsNumeral(r)
  {
    if n < 0 then "-" + NatText(-n) else NatText(n)
  }

  function ParseNat(s: string): nat
    requires Digits(s)
  {
    if s == [] then 0
    else
      var d := s[|s| - 1];
      assert IsDigit(d);
      10 * ParseNat(s[..|s| - 1]) + (d as int - '0' as int)
  }

  predicate IsNumeral(s: string) {
    if s != [] && s[0] == '-' then Digits(s[1..]) else Digits(s)
  }

  function ParseInt(s: string): int
    requires IsNumeral(s)
  {
    if s != [] && s[0] == '-' then 0 - ParseNat(s[1..]) else ParseNat(s)
  }

  lemma {:induction false} NatTextParses(n: nat)
    ensures ParseNat(NatText(n)) == n
  {
    var t := NatText(n);
    assert t[|t| - 1] as int - '0' as int == n % 10;
    if n < 10 {
      assert t[..|t| - 1] == [];
    } else {
      assert t[..|t| - 1] == NatText(n / 10);
      NatTextParses(n / 10);
    }
  }

  /** A rendered number parses back to itself, so the rendering is injective. */
  lemma ItoaParses(n: int)
    ensures ParseInt(Itoa(n)) == n
  {
    if n < 0 {
      assert Itoa(n)[1..] == NatText(-n);
      NatTextParses(-n);
    } else {
      assert IsDigit(Itoa(n)[0]);
      NatTextParses(n);
    }
  }

  lemma {:induction false} NoLeadingZero(n: nat)
    ensures NatText(n)[0] == '0' <==> n == 0
    ensures |NatText(n)| == 1 <==> n < 10
  {
    if n >= 10 { NoLeadingZero(n / 10); }
  }

  /** The decimal numeral of n: it parses to n, and has neither a plus sign nor a needless zero. */
  predicate DecimalOf(text: string, n: int) {
    && text != "" && IsNumeral(text) && ParseInt(text) == n
    && (text[0] == '0' ==> |text| == 1)
    && (text[0] == '-' ==> |text| > 1 && text[1] != '0')
  }

  lemma ItoaIsDecimal(n: int)
    ensures DecimalOf(Itoa(n), n)
  {
    ItoaParses(n);
    NoLeadingZero(if n < 0 then -n else n);
  }

  lemma ItoaInjective(m: int, n: int)
    requires Itoa(m) == Itoa(n)
    ensures m == n
  {
    ItoaParses(m);
    ItoaParses(n);
  }
}
