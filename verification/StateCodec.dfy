/** The bytes of the signed state in internal/auth/broker_proxy.go: JSON text with escaped
    strings (section 7 of RFC 8259), UTF-8, and unpadded base64url (section 5 of RFC 4648). */
module StateCodec {
  import opened Options
  import opened Text

  // --- Escaped strings ---------------------------------------------------------------------------

  function Hex(d: nat): char
    requires d < 16
  {
    if d < 10 then '0' + d as char else 'a' + (d - 10) as char
  }

  function HexValue(c: char): nat {
    if '0' <= c <= '9' then c as int - '0' as int else if 'a' <= c <= 'f' then c as int - 'a' as int + 10 else 0
  }

  /** Go's escaping: quotes, backslashes and control characters, and the characters that are
      unsafe inside HTML or JavaScript. */
  function EscapeChar(c: char): (e: string)
    ensures e != [] && e[0] != '"'
  {
    if c == '"' then ['\\', '"']
    else if c == '\\' then ['\\', '\\']
    else if c == '\U{8}' then ['\\', 'b']
    else if c == '\U{c}' then ['\\', 'f']
    else if c == '\n' then ['\\', 'n']
    else if c == '\r' then ['\\', 'r']
    else if c == '\t' then ['\\', 't']
    else if c < ' ' || c == '<' || c == '>' || c == '&' then
      ['\\', 'u', '0', '0', Hex(c as int / 16), Hex(c as int % 16)]
    else if c == '\U{2028}' then ['\\', 'u', '2', '0', '2', '8']
    else if c == '\U{2029}' then ['\\', 'u', '2', '0', '2', '9']
    else [c]
  }

  function CharOfCode(n: nat): char {
    if n < 0xD800 then n as char else 'x'
  }

  /** The first character of an escaped text, and how far it reaches. */
  function ReadChar(s: string): (char, nat)
    requires s != []
  {
    if s[0] != '\\' || |s| < 2 then (s[0], 1)
    else if s[1] == 'b' then ('\U{8}', 2)
    else if s[1] == 'f' then ('\U{c}', 2)
    else if s[1] == 'n' then ('\n', 2)
    else if s[1] == 'r' then ('\r', 2)
    else if s[1] == 't' then ('\t', 2)
    else if s[1] == 'u' && |s| >= 6 then
      (CharOfCode(((HexValue(s[2]) * 16 + HexValue(s[3])) * 16 + HexValue(s[4])) * 16 + HexValue(s[5])), 6)
    else (s[1], 2)
  }

  lemma HexReads(d: nat)
    requires d < 16
    ensures HexValue(Hex(d)) == d
  {
  }

  lemma EscapeReads(c: char, rest: string)
    ensures ReadChar(EscapeChar(c) + rest) == (c, |EscapeChar(c)|)
  {
    var e := EscapeChar(c);
    assert forall i :: 0 <= i < |e| ==> (e + rest)[i] == e[i];
    if c as int < 256 {
      HexReads(c as int / 16);
      HexReads(c as int % 16);
    }
  }

  function Escaped(s: string): string {
    if s == [] then [] else EscapeChar(s[0]) + Escaped(s[1..])
  }

  lemma EscapeSplits(c: char, d: char, u: string, v: string)
    requires EscapeChar(c) + u == EscapeChar(d) + v
    ensures c == d && u == v
  {
    EscapeReads(c, u);
    EscapeReads(d, v);
    assert (EscapeChar(c) + u)[|EscapeChar(c)|..] == u && (EscapeChar(d) + v)[|EscapeChar(d)|..] == v;
  }

  lemma QuoteIsNoEscape(c: char, u: string, x: string)
    ensures EscapeChar(c) + u != "\"" + x
  {
    assert (EscapeChar(c) + u)[0] == EscapeChar(c)[0] && ("\"" + x)[0] == '"';
  }

  // An escaped string with its closing quote and what follows.
  function Closed(s: string, x: string): string {
    Escaped(s) + ("\"" + x)
  }

  lemma ClosedCons(s: string, x: string)
    ensures Closed(s, x) == if s == [] then "\"" + x else EscapeChar(s[0]) + Closed(s[1..], x)
  {
    if s != [] { Regrouped(Escaped(s), EscapeChar(s[0]), Escaped(s[1..]), "\"" + x); }
  }

  lemma Regrouped(s: string, a: string, b: string, c: string)
    requires s == a + b
    ensures s + c == a + (b + c)
  {
  }

  /** An escaped string up to its closing quote determines the string and what follows. */
  lemma {:induction false} EscapedInjective(s: string, t: string, x: string, y: string)
    requires Closed(s, x) == Closed(t, y)
    ensures s == t && x == y
    decreases |s|
  {
    ClosedCons(s, x);
    ClosedCons(t, y);
    if s == [] && t == [] {
      assert ("\"" + x)[1..] == x && ("\"" + y)[1..] == y;
    } else if s == [] {
      QuoteIsNoEscape(t[0], Closed(t[1..], y), x);
    } else if t == [] {
      QuoteIsNoEscape(s[0], Closed(s[1..], x), y);
    } else {
      EscapeSplits(s[0], t[0], Closed(s[1..], x), Closed(t[1..], y));
      EscapedInjective(s[1..], t[1..], x, y);
    }
  }

  // --- The record -----------------------------------------------------------------------------------

  datatype StateData = StateData(redirect: string, state: string, nonce: string, timestamp: int, sig: string)

  /** A string member, with what follows it: the opening text ends with the value's quote. */
  function Member(opening: string, value: string, rest: string): string {
    opening + Closed(value, rest)
  }

  function SigMember(sig: string): string {
    if sig == "" then "}" else Member(",\"sig\":\"", sig, "}")
  }

  /** The record as JSON text, fields in order; an empty signature is left out. */
  function Marshal(d: StateData): string {
    Member("{\"redirect\":\"", d.redirect,
           Member(",\"state\":\"", d.state,
                  Member(",\"nonce\":\"", d.nonce,
                         ",\"timestamp\":" + (Itoa(d.timestamp) + SigMember(d.sig)))))
  }

  lemma AppendInjective(a: string, x: string, y: string)
    requires a + x == a + y
    ensures x == y
  {
    assert (a + x)[|a|..] == x && (a + y)[|a|..] == y;
  }

  lemma MemberInjective(opening: string, s: string, t: string, x: string, y: string)
    requires Member(opening, s, x) == Member(opening, t, y)
    ensures s == t && x == y
  {
    AppendInjective(opening, Closed(s, x), Closed(t, y));
    EscapedInjective(s, t, x, y);
  }

  predicate EndsNumber(s: string) {
    s != [] && (s[0] == ',' || s[0] == '}')
  }

  lemma NumeralChars(n: int, i: nat)
    requires i < |Itoa(n)|
    ensures IsDigit(Itoa(n)[i]) || Itoa(n)[i] == '-'
  {
    var t := Itoa(n);
    if t[0] == '-' && i > 0 { assert t[i] == t[1..][i - 1]; }
  }

  lemma NumberInjective(m: int, n: int, x: string, y: string)
    requires Itoa(m) + x == Itoa(n) + y && EndsNumber(x) && EndsNumber(y)
    ensures m == n && x == y
  {
    var a, b := Itoa(m), Itoa(n);
    if |a| < |b| {
      assert (a + x)[|a|] == x[0] && (b + y)[|a|] == b[|a|];
      NumeralChars(n, |a|);
    }
    if |b| < |a| {
      assert (b + y)[|b|] == y[0] && (a + x)[|b|] == a[|b|];
      NumeralChars(m, |b|);
    }
    assert a == (a + x)[..|a|] && b == (b + y)[..|b|];
    assert x == (a + x)[|a|..] && y == (b + y)[|b|..];
    ItoaInjective(m, n);
  }

  lemma SigMemberInjective(s: string, t: string)
    requires SigMember(s) == SigMember(t)
    ensures s == t
  {
    assert (s == "" <==> SigMember(s)[0] == '}') && (t == "" <==> SigMember(t)[0] == '}');
    if s != "" {
      MemberInjective(",\"sig\":\"", s, t, "}", "}");
    }
  }

  lemma SigMemberEndsNumber(s: string)
    ensures EndsNumber(SigMember(s))
  {
    if s != "" { assert SigMember(s)[0] == ','; }
  }

  /** The JSON text determines the record, whatever quotes, braces or commas its fields hold. */
  lemma MarshalInjective(d: StateData, e: StateData)
    requires Marshal(d) == Marshal(e)
    ensures d == e
  {
    var n1 := ",\"timestamp\":" + (Itoa(d.timestamp) + SigMember(d.sig));
    var n2 := ",\"timestamp\":" + (Itoa(e.timestamp) + SigMember(e.sig));
    var s1, s2 := Member(",\"nonce\":\"", d.nonce, n1), Member(",\"nonce\":\"", e.nonce, n2);
    var r1, r2 := Member(",\"state\":\"", d.state, s1), Member(",\"state\":\"", e.state, s2);
    MemberInjective("{\"redirect\":\"", d.redirect, e.redirect, r1, r2);
    MemberInjective(",\"state\":\"", d.state, e.state, s1, s2);
    MemberInjective(",\"nonce\":\"", d.nonce, e.nonce, n1, n2);
    AppendInjective(",\"timestamp\":", Itoa(d.timestamp) + SigMember(d.sig), Itoa(e.timestamp) + SigMember(e.sig));
    SigMemberEndsNumber(d.sig);
    SigMemberEndsNumber(e.sig);
    NumberInjective(d.timestamp, e.timestamp, SigMember(d.sig), SigMember(e.sig));
    SigMemberInjective(d.sig, e.sig);
  }

  // --- UTF-8 ------------------------------------------------------------------------------------------

  function Utf8Char(c: char): (b: seq<Byte>)
    ensures 1 <= |b| <= 4
  {
    var n := c as int;
    if n < 0x80 then [n]
    else if n < 0x800 then [0xC0 + n / 64, 0x80 + n % 64]
    else if n < 0x10000 then [0xE0 + n / 4096, 0x80 + n / 64 % 64, 0x80 + n % 64]
    else [0xF0 + n / 262144, 0x80 + n / 4096 % 64, 0x80 + n / 64 % 64, 0x80 + n % 64]
  }

  function Utf8(s: string): seq<Byte> {
    if s == [] then [] else Utf8Char(s[0]) + Utf8(s[1..])
  }

  lemma Utf8Length(c: char)
    ensures var b := Utf8Char(c);
            |b| == if b[0] < 0x80 then 1 else if b[0] < 0xE0 then 2 else if b[0] < 0xF0 then 3 else 4
  {
  }

  // A number from its base-64 digits.
  lemma Recompose(n: nat)
    ensures n == n / 64 * 64 + n % 64
    ensures n / 64 == n / 4096 * 64 + n / 64 % 64
    ensures n / 4096 == n / 262144 * 64 + n / 4096 % 64
  {
  }

  lemma Utf8CharInjective(c: char, d: char)
    requires Utf8Char(c) == Utf8Char(d)
    ensures c == d
  {
    var b, e := Utf8Char(c), Utf8Char(d);
    Utf8Length(c);
    Utf8Length(d);
    Recompose(c as int);
    Recompose(d as int);
    assert forall i :: 0 <= i < |b| ==> b[i] == e[i];
    assert c as int == d as int;
  }

  lemma {:induction false} Utf8Injective(s: string, t: string)
    requires Utf8(s) == Utf8(t)
    ensures s == t
    decreases |s|
  {
    if s != [] && t != [] {
      var a, b := Utf8Char(s[0]), Utf8Char(t[0]);
      Utf8Length(s[0]);
      Utf8Length(t[0]);
      assert Utf8(s)[0] == a[0] && Utf8(t)[0] == b[0];
      assert a == Utf8(s)[..|a|] && b == Utf8(t)[..|b|];
      Utf8CharInjective(s[0], t[0]);
      assert Utf8(s[1..]) == Utf8(s)[|a|..] && Utf8(t[1..]) == Utf8(t)[|b|..];
      Utf8Injective(s[1..], t[1..]);
    }
  }

  // --- base64url -----------------------------------------------------------------------------------------

  function Digit64(d: nat): (c: char)
    requires d < 64
    ensures c != '\r' && c != '\n'
  {
    if d < 26 then 'A' + d as char
    else if d < 52 then 'a' + (d - 26) as char
    else if d < 62 then '0' + (d - 52) as char
    else if d == 62 then '-' else '_'
  }

  /** The value of a base64url character, or -1. */
  function Value64(c: char): (v: int)
    ensures -1 <= v < 64
  {
    if 'A' <= c <= 'Z' then c as int - 'A' as int
    else if 'a' <= c <= 'z' then c as int - 'a' as int + 26
    else if '0' <= c <= '9' then c as int - '0' as int + 52
    else if c == '-' then 62 else if c == '_' then 63 else -1
  }

  lemma Value64OfDigit(d: nat)
    requires d < 64
    ensures Value64(Digit64(d)) == d
  {
  }

  function Encode64(b: seq<Byte>): string {
    if |b| == 0 then ""
    else if |b| == 1 then [Digit64(b[0] / 4), Digit64(b[0] % 4 * 16)]
    else if |b| == 2 then [Digit64(b[0] / 4), Digit64(b[0] % 4 * 16 + b[1] / 16), Digit64(b[1] % 16 * 4)]
    else [Digit64(b[0] / 4), Digit64(b[0] % 4 * 16 + b[1] / 16), Digit64(b[1] % 16 * 4 + b[2] / 64), Digit64(b[2] % 64)]
         + Encode64(b[3..])
  }

  /** Line breaks are skipped; anything else outside the alphabet is an error, and so is a lone
      last character. */
  function Decode64(s: string): Option<seq<Byte>> {
    DecodeQuads(WithoutBreaks(s))
  }

  function WithoutBreaks(s: string): string {
    if s == [] then []
    else if s[0] == '\r' || s[0] == '\n' then WithoutBreaks(s[1..])
    else [s[0]] + WithoutBreaks(s[1..])
  }

  function DecodeQuads(s: string): Option<seq<Byte>> {
    if s == [] then Some([])
    else if |s| == 1 || Value64(s[0]) < 0 || Value64(s[1]) < 0 then None
    else
      var first := Value64(s[0]) * 4 + Value64(s[1]) / 16;
      if |s| == 2 then Some([first])
      else if Value64(s[2]) < 0 then None
      else
        var second := Value64(s[1]) % 16 * 16 + Value64(s[2]) / 4;
        if |s| == 3 then Some([first, second])
        else if Value64(s[3]) < 0 then None
        else
          var third := Value64(s[2]) % 4 * 64 + Value64(s[3]);
          match DecodeQuads(s[4..])
          case None => None
          case Some(rest) => Some([first, second, third] + rest)
  }

  lemma {:induction false} NoBreaks(s: string)
    requires forall i :: 0 <= i < |s| ==> s[i] != '\r' && s[i] != '\n'
    ensures WithoutBreaks(s) == s
  {
    if s == [] {
    } else {
      NoBreaks(s[1..]);
    }
  }

  lemma {:induction false} EncodeHasNoBreaks(b: seq<Byte>)
    ensures forall i :: 0 <= i < |Encode64(b)| ==> Encode64(b)[i] != '\r' && Encode64(b)[i] != '\n'
  {
    if |b| >= 3 {
      EncodeHasNoBreaks(b[3..]);
    }
  }

  // One group of three bytes comes back from its four digits.
  lemma Group(x: Byte, y: Byte, z: Byte)
    ensures Value64(Digit64(x / 4)) >= 0 && Value64(Digit64(x % 4 * 16 + y / 16)) >= 0
    ensures Value64(Digit64(y % 16 * 4 + z / 64)) >= 0 && Value64(Digit64(z % 64)) >= 0
    ensures Value64(Digit64(x / 4)) * 4 + Value64(Digit64(x % 4 * 16 + y / 16)) / 16 == x
    ensures Value64(Digit64(x % 4 * 16 + y / 16)) % 16 * 16 + Value64(Digit64(y % 16 * 4 + z / 64)) / 4 == y
    ensures Value64(Digit64(y % 16 * 4 + z / 64)) % 4 * 64 + Value64(Digit64(z % 64)) == z
  {
    Value64OfDigit(x / 4);
    Value64OfDigit(x % 4 * 16 + y / 16);
    Value64OfDigit(y % 16 * 4 + z / 64);
    Value64OfDigit(z % 64);
  }

  lemma {:induction false} QuadsOfEncode(b: seq<Byte>)
    ensures DecodeQuads(Encode64(b)) == Some(b)
    decreases |b|, 1
  {
    if |b| == 1 {
      Group(b[0], 0, 0);
      assert b == [b[0]];
      assert Encode64(b) == [Digit64(b[0] / 4), Digit64(b[0] % 4 * 16 + 0 / 16)];
    } else if |b| == 2 {
      Group(b[0], b[1], 0);
      assert b == [b[0], b[1]];
      assert Encode64(b) == [Digit64(b[0] / 4), Digit64(b[0] % 4 * 16 + b[1] / 16), Digit64(b[1] % 16 * 4 + 0 / 64)];
    } else if |b| >= 3 {
      Quad(b, Encode64(b));
    }
  }

  lemma {:induction false} Quad(b: seq<Byte>, s: string)
    requires |b| >= 3 && s == Encode64(b)
    ensures DecodeQuads(s) == Some(b)
    decreases |b|, 0
  {
    Group(b[0], b[1], b[2]);
    QuadsOfEncode(b[3..]);
    assert s[4..] == Encode64(b[3..]);
    DecodeGroup(s, b[0], b[1], b[2], b[3..]);
    assert b == [b[0], b[1], b[2]] + b[3..];
  }

  lemma DecodeGroup(s: string, x: Byte, y: Byte, z: Byte, rest: seq<Byte>)
    requires |s| >= 4 && forall i :: 0 <= i < 4 ==> Value64(s[i]) >= 0
    requires Value64(s[0]) * 4 + Value64(s[1]) / 16 == x
    requires Value64(s[1]) % 16 * 16 + Value64(s[2]) / 4 == y
    requires Value64(s[2]) % 4 * 64 + Value64(s[3]) == z
    requires DecodeQuads(s[4..]) == Some(rest)
    ensures DecodeQuads(s) == Some([x, y, z] + rest)
  {
  }

  /** Decoding undoes encoding. */
  lemma DecodeOfEncode(b: seq<Byte>)
    ensures Decode64(Encode64(b)) == Some(b)
  {
    EncodeHasNoBreaks(b);
    NoBreaks(Encode64(b));
    QuadsOfEncode(b);
  }

  // --- The blob -----------------------------------------------------------------------------------------

  /** The state parameter that carries a record. */
  function Blob(d: StateData): string {
    Encode64(Utf8(Marshal(d)))
  }

  /** Different records travel as different blobs. */
  lemma BlobInjective(d: StateData, e: StateData)
    requires Blob(d) == Blob(e)
    ensures d == e
  {
    DecodeOfEncode(Utf8(Marshal(d)));
    DecodeOfEncode(Utf8(Marshal(e)));
    Utf8Injective(Marshal(d), Marshal(e));
    MarshalInjective(d, e);
  }

  /** The bytes that are signed: the record with its signature cleared. */
  function Canonical(d: StateData): seq<Byte> {
    Utf8(Marshal(d.(sig := "")))
  }

  /** The signed bytes determine all four fields. */
  lemma CanonicalUnambiguous(d: StateData, e: StateData)
    requires Canonical(d) == Canonical(e)
    ensures d.redirect == e.redirect && d.state == e.state && d.nonce == e.nonce && d.timestamp == e.timestamp
  {
    Utf8Injective(Marshal(d.(sig := "")), Marshal(e.(sig := "")));
    MarshalInjective(d.(sig := ""), e.(sig := ""));
  }
}
