/** The bytes of the signed state, read by independent readers: the JSON text by its members, UTF-8 by
    its lead bytes (section 3 of RFC 3629), base64url by its alphabet and bit groups (RFC 4648). */
module CodecLaws {
  import opened Text
  import opened StateCodec

  // --- JSON ---------------------------------------------------------------------------------------

  /** Characters that JSON text shows as they are. */
  predicate Shown(s: string) {
    forall i :: 0 <= i < |s| ==>
      ' ' <= s[i] && s[i] !in {'"', '\\', '<', '>', '&', '\U{2028}', '\U{2029}'}
  }

  lemma CharStays(c: char)
    requires ' ' <= c && c !in {'"', '\\', '<', '>', '&', '\U{2028}', '\U{2029}'}
    ensures EscapeChar(c) == [c]
  {
  }

  lemma {:induction false} ShownStays(s: string)
    requires Shown(s)
    ensures Escaped(s) == s
  {
    if s != "" {
      CharStays(s[0]);
      ShownStays(s[1..]);
      assert [s[0]] + s[1..] == s;
    }
  }

  lemma ShownMember(opening: string, value: string, rest: string)
    requires Shown(value)
    ensures Member(opening, value, rest) == opening + value + "\"" + rest
  {
    ShownStays(value);
  }

  /** The text of a record whose strings need no escapes, in full. */
  lemma MarshalShown(d: StateData)
    requires Shown(d.redirect) && Shown(d.state) && Shown(d.nonce) && Shown(d.sig)
    ensures Marshal(d) ==
              "{\"redirect\":\"" + d.redirect + "\"" + (",\"state\":\"" + d.state + "\""
              + (",\"nonce\":\"" + d.nonce + "\"" + (",\"timestamp\":" + (Itoa(d.timestamp)
              + if d.sig == "" then "}" else ",\"sig\":\"" + d.sig + "\"" + "}"))))
  {
    var end := ",\"timestamp\":" + (Itoa(d.timestamp) + SigMember(d.sig));
    var nonce := Member(",\"nonce\":\"", d.nonce, end);
    var state := Member(",\"state\":\"", d.state, nonce);
    ShownMember("{\"redirect\":\"", d.redirect, state);
    ShownMember(",\"state\":\"", d.state, nonce);
    ShownMember(",\"nonce\":\"", d.nonce, end);
    ShownMember(",\"sig\":\"", d.sig, "}");
  }

  // --- UTF-8 ------------------------------------------------------------------------------------------

  /** The first code point of a byte string and the bytes it takes, by its lead byte. */
  function FirstCode(b: seq<Byte>): (r: (int, nat))
    requires b != []
    ensures r.1 > 0
  {
    var at := (i: int) => if 0 <= i < |b| then b[i] as int else 0;
    if at(0) < 0x80 then (at(0), 1)
    else if 0xC0 <= at(0) < 0xE0 then ((at(0) - 0xC0) * 0x40 + (at(1) - 0x80), 2)
    else if 0xE0 <= at(0) < 0xF0 then ((at(0) - 0xE0) * 0x1000 + (at(1) - 0x80) * 0x40 + (at(2) - 0x80), 3)
    else ((at(0) - 0xF0) * 0x4_0000 + (at(1) - 0x80) * 0x1000 + (at(2) - 0x80) * 0x40 + (at(3) - 0x80), 4)
  }

  function Codes(b: seq<Byte>): seq<int>
    decreases |b|
  {
    if b == [] then []
    else
      var (code, n) := FirstCode(b);
      if n <= |b| then [code] + Codes(b[n..]) else [code]
  }

  lemma CharReads(c: char, rest: seq<Byte>)
    ensures FirstCode(Utf8Char(c) + rest) == (c as int, |Utf8Char(c)|)
  {
    var b := Utf8Char(c);
    Recompose(c as int);
    assert forall i :: 0 <= i < |b| ==> (b + rest)[i] == b[i];
  }

  /** A reader of UTF-8 gets the characters of the text, each by its code. */
  lemma {:induction false} Utf8Reads(s: string)
    ensures Codes(Utf8(s)) == seq(|s|, i requires 0 <= i < |s| => s[i] as int)
  {
    if s != "" {
      var a, rest := Utf8Char(s[0]), Utf8(s[1..]);
      CharReads(s[0], rest);
      assert (a + rest)[|a|..] == rest;
      Utf8Reads(s[1..]);
    }
  }

  // --- base64url -----------------------------------------------------------------------------------------

  /** The alphabet; its last two characters mean nothing in a URL. */
  lemma AlphabetIs(d: nat)
    requires d < 64
    ensures d < 26 ==> Digit64(d) == "ABCDEFGHIJKLMNOPQRSTUVWXYZ"[d]
    ensures 26 <= d < 52 ==> Digit64(d) == "abcdefghijklmnopqrstuvwxyz"[d - 26]
    ensures 52 <= d < 62 ==> Digit64(d) == "0123456789"[d - 52]
    ensures Digit64(62) == '-' && Digit64(63) == '_'
  {
  }

  /** Each three bytes give four digits, the same number in base 256 and in base 64; one or two last
      bytes give as few digits as hold them, the missing bits zero, with no padding. */
  lemma GroupIs(b: seq<Byte>) returns (v: seq<nat>)
    requires b != []
    ensures |v| == (if |b| >= 3 then 4 else |b| + 1) <= |Encode64(b)|
    ensures forall i :: 0 <= i < |v| ==> v[i] < 64 && Encode64(b)[i] == Digit64(v[i])
    ensures |b| >= 3 ==>
              && ((v[0] * 64 + v[1]) * 64 + v[2]) * 64 + v[3] == b[0] as int * 65536 + b[1] as int * 256 + b[2] as int
              && Encode64(b)[4..] == Encode64(b[3..])
    ensures |b| == 2 ==>
              (v[0] * 64 + v[1]) * 64 + v[2] == (b[0] as int * 256 + b[1] as int) * 4 && |Encode64(b)| == 3
    ensures |b| == 1 ==> v[0] * 64 + v[1] == b[0] as int * 16 && |Encode64(b)| == 2
  {
    if |b| >= 3 {
      v := [b[0] / 4, b[0] % 4 * 16 + b[1] / 16, b[1] % 16 * 4 + b[2] / 64, b[2] % 64];
      assert Encode64(b)[4..] == Encode64(b[3..]);
    } else if |b| == 2 {
      v := [b[0] / 4, b[0] % 4 * 16 + b[1] / 16, b[1] % 16 * 4];
    } else {
      v := [b[0] / 4, b[0] % 4 * 16];
    }
  }

  predicate InAlphabet(c: char) {
    'A' <= c <= 'Z' || 'a' <= c <= 'z' || '0' <= c <= '9' || c == '-' || c == '_'
  }

  lemma {:induction false} QuadsIff(s: string)
    ensures DecodeQuads(s).Some? <==> |s| % 4 != 1 && forall i :: 0 <= i < |s| ==> InAlphabet(s[i])
    decreases |s|
  {
    if |s| >= 4 {
      QuadsIff(s[4..]);
      assert forall i :: 4 <= i < |s| ==> s[i] == s[4..][i - 4];
    }
  }

  /** Exactly which texts decode: line breaks aside, those over the alphabet without a lone last
      character; padding and anything else is an error. */
  lemma DecodesIff(s: string)
    ensures Decode64(s).Some? <==>
              |WithoutBreaks(s)| % 4 != 1
              && forall i :: 0 <= i < |WithoutBreaks(s)| ==> InAlphabet(WithoutBreaks(s)[i])
  {
    QuadsIff(WithoutBreaks(s));
  }
}
