/** Percent-encoding of UTF-8 bytes (RFC 3986, section 2.1), as `encodeURIComponent` and `decodeURIComponent` do it. */
module Percent {
  import opened Wrappers
  import opened Text

  predicate Unreserved(c: char) {
    IsLetter(c) || IsDigit(c) || c in "-_.!~*'()"
  }

  function HexDigit(n: nat): char
    requires n < 16
  {
    "0123456789ABCDEF"[n]
  }

  /** The value of a hexadecimal digit of either case, or -1. */
  function HexValue(c: char): int {
    if '0' <= c <= '9' then c as int - '0' as int
    else if 'A' <= c <= 'F' then c as int - 'A' as int + 10
    else if 'a' <= c <= 'f' then c as int - 'a' as int + 10
    else -1
  }

  type byte = b: nat | b < 256

  function Escape(b: byte): string {
    ['%', HexDigit(b / 16), HexDigit(b % 16)]
  }

  function EscapeAll(bs: seq<byte>): string {
    if bs == [] then "" else Escape(bs[0]) + EscapeAll(bs[1..])
  }

  /** The UTF-8 bytes of a code point. */
  function Utf8(n: nat): seq<byte>
    requires n < 0x11_0000
  {
    if n < 0x80 then [n]
    else if n < 0x800 then [0xC0 + n / 64, 0x80 + n % 64]
    else if n < 0x1_0000 then [0xE0 + n / 4096, 0x80 + n / 64 % 64, 0x80 + n % 64]
    else [0xF0 + n / 262144, 0x80 + n / 4096 % 64, 0x80 + n / 64 % 64, 0x80 + n % 64]
  }

  /** The escaped byte at the start of a text, or -1. */
  function Byte(s: string): (b: int)
    ensures b >= 0 ==> |s| >= 3 && b < 256
  {
    if |s| >= 3 && s[0] == '%' && HexValue(s[1]) >= 0 && HexValue(s[2]) >= 0 then 16 * HexValue(s[1]) + HexValue(s[2]) else -1
  }

  /** A code point as its UTF-8 bytes, each escaped. */
  function EscapeCode(n: nat): string
    requires n < 0x11_0000
  {
    EscapeAll(Utf8(n))
  }

  function Encode(s: string): string {
    if s == "" then ""
    else (if Unreserved(s[0]) then [s[0]] else EscapeCode(s[0] as int)) + Encode(s[1..])
  }

  datatype Read = Malformed | Code(code: nat, used: nat)

  /** The low six bits of a continuation byte, or -1. */
  function Tail(s: string): (t: int)
    ensures t >= 0 ==> |s| >= 3 && t < 64
  {
    if 0x80 <= Byte(s) < 0xC0 then Byte(s) - 0x80 else -1
  }

  function ReadCode(s: string): (r: Read)
    ensures r.Code? ==> 3 <= r.used <= |s|
  {
    var b := Byte(s);
    if b < 0 then Malformed
    else if b < 0x80 then Code(b, 3)
    else if b < 0xC0 || Tail(s[3..]) < 0 then Malformed
    else if b < 0xE0 then Code((b - 0xC0) * 64 + Tail(s[3..]), 6)
    else if Tail(s[6..]) < 0 then Malformed
    else if b < 0xF0 then Code((b - 0xE0) * 4096 + Tail(s[3..]) * 64 + Tail(s[6..]), 9)
    else if Tail(s[9..]) < 0 || b >= 0xF8 then Malformed
    else Code((b - 0xF0) * 262144 + Tail(s[3..]) * 4096 + Tail(s[6..]) * 64 + Tail(s[9..]), 12)
  }

  predicate Scalar(n: nat) {
    n < 0xD800 || 0xE000 <= n < 0x11_0000
  }

  /** Decoding fails on a malformed escape, on a code point that is no character and on one with a shorter encoding. */
  function Decode(s: string): Option<string>
    decreases |s|
  {
    if s == "" then Some("")
    else if s[0] != '%' then
      match Decode(s[1..])
      case None => None
      case Some(rest) => Some([s[0]] + rest)
    else
      match ReadCode(s)
      case Malformed => None
      case Code(n, used) =>
        if !Scalar(n) || 3 * |Utf8(n)| != used then None
        else match Decode(s[used..])
          case None => None
          case Some(rest) => Some([n as char] + rest)
  }

  lemma HexRoundTrip(n: nat)
    requires n < 16
    ensures HexValue(HexDigit(n)) == n && IsEscaped(HexDigit(n))
  {}

  lemma ByteOfEscape(b: byte, rest: string)
    ensures Byte(Escape(b) + rest) == b && (Escape(b) + rest)[3..] == rest
  {
    HexRoundTrip(b / 16);
    HexRoundTrip(b % 16);
    var text := Escape(b) + rest;
    assert text[0] == '%' && text[1] == HexDigit(b / 16) && text[2] == HexDigit(b % 16);
  }

  /** The first byte of escaped text, and what follows it. */
  lemma FirstByte(bs: seq<byte>, rest: string)
    requires bs != []
    ensures Byte(EscapeAll(bs) + rest) == bs[0] && (EscapeAll(bs) + rest)[3..] == EscapeAll(bs[1..]) + rest
  {
    ByteOfEscape(bs[0], EscapeAll(bs[1..]) + rest);
    Regroup(Escape(bs[0]), EscapeAll(bs[1..]), rest);
  }

  lemma {:induction false} EscapeAllLength(bs: seq<byte>)
    ensures |EscapeAll(bs)| == 3 * |bs|
  {
    if bs != [] {
      EscapeAllLength(bs[1..]);
    }
  }

  /** Byte `i` of escaped text. */
  lemma {:induction false} ByteAt(bs: seq<byte>, rest: string, i: nat)
    requires i < |bs|
    ensures |EscapeAll(bs)| == 3 * |bs|
    ensures Byte((EscapeAll(bs) + rest)[3 * i..]) == bs[i]
  {
    EscapeAllLength(bs);
    if i == 0 {
      FirstByte(bs, rest);
      assert (EscapeAll(bs) + rest)[0..] == EscapeAll(bs) + rest;
    } else {
      FirstByte(bs, rest);
      ByteAt(bs[1..], rest, i - 1);
      EscapeAllLength(bs[1..]);
      assert (EscapeAll(bs) + rest)[3..][3 * (i - 1)..] == (EscapeAll(bs) + rest)[3 * i..];
    }
  }

  /** What reading a code point makes of its bytes, one case for each length. */
  lemma ReadBytes(bs: seq<byte>, rest: string)
    requires 1 <= |bs| <= 4 && forall i :: 1 <= i < |bs| ==> 0x80 <= bs[i] < 0xC0
    requires |bs| == 1 ==> bs[0] < 0x80
    requires |bs| == 2 ==> 0xC0 <= bs[0] < 0xE0
    requires |bs| == 3 ==> 0xE0 <= bs[0] < 0xF0
    requires |bs| == 4 ==> 0xF0 <= bs[0] < 0xF8
    ensures ReadCode(EscapeAll(bs) + rest) == Code(ValueOf(bs), 3 * |bs|)
  {
    var text := EscapeAll(bs) + rest;
    FirstByte(bs, rest);
    if |bs| > 1 { ByteAt(bs, rest, 1); }
    if |bs| > 2 { ByteAt(bs, rest, 2); }
    if |bs| > 3 { ByteAt(bs, rest, 3); }
  }

  function ValueOf(bs: seq<byte>): int
    requires 1 <= |bs| <= 4
  {
    var at := (i: nat) requires i < |bs| => bs[i] as int - if i == 0 then 0 else 0x80;
    if |bs| == 1 then at(0)
    else if |bs| == 2 then (at(0) - 0xC0) * 64 + at(1)
    else if |bs| == 3 then (at(0) - 0xE0) * 4096 + at(1) * 64 + at(2)
    else (at(0) - 0xF0) * 262144 + at(1) * 4096 + at(2) * 64 + at(3)
  }

  lemma Digits(n: nat)
    ensures n == (n / 64) * 64 + n % 64
    ensures n / 64 == (n / 4096) * 64 + n / 64 % 64
    ensures n / 4096 == (n / 262144) * 64 + n / 4096 % 64
  {
    assert n / 64 / 64 == n / 4096;
    assert n / 4096 / 64 == n / 262144;
  }

  lemma ValueOfUtf8(n: nat)
    requires n < 0x11_0000
    ensures ValueOf(Utf8(n)) == n
  {
    Digits(n);
  }

  lemma ReadsCode(n: nat, rest: string)
    requires n < 0x11_0000
    ensures ReadCode(EscapeCode(n) + rest) == Code(n, 3 * |Utf8(n)|)
    ensures |EscapeCode(n)| == 3 * |Utf8(n)|
  {
    ReadBytes(Utf8(n), rest);
    ValueOfUtf8(n);
    EscapeAllLength(Utf8(n));
  }

  lemma EscapeCodeStarts(n: nat)
    requires n < 0x11_0000
    ensures EscapeCode(n) != "" && EscapeCode(n)[0] == '%'
  {}

  lemma DecodeOne(c: char, rest: string)
    requires !Unreserved(c) && Decode(rest).Some?
    ensures Decode(EscapeCode(c as int) + rest) == Some([c] + Decode(rest).value)
  {
    var n := c as int;
    ReadsCode(n, rest);
    EscapeCodeStarts(n);
    assert (EscapeCode(n) + rest)[|EscapeCode(n)|..] == rest;
  }

  /** Decoding undoes encoding, on every text. */
  lemma {:induction false} DecodeEncode(s: string)
    ensures Decode(Encode(s)) == Some(s)
  {
    if s != "" {
      DecodeEncode(s[1..]);
      assert [s[0]] + s[1..] == s;
      if Unreserved(s[0]) {
        assert Encode(s)[1..] == Encode(s[1..]);
      } else {
        DecodeOne(s[0], Encode(s[1..]));
      }
    }
  }

  lemma EscapeEscaped(b: byte)
    ensures AllEscaped(Escape(b))
  {
    HexRoundTrip(b / 16);
    HexRoundTrip(b % 16);
  }

  lemma {:induction false} EscapeAllEscaped(bs: seq<byte>)
    ensures AllEscaped(EscapeAll(bs))
  {
    if bs != [] {
      EscapeEscaped(bs[0]);
      EscapeAllEscaped(bs[1..]);
    }
  }

  lemma {:induction false} EncodeEscaped(s: string)
    ensures AllEscaped(Encode(s)) && (s != "" ==> Encode(s) != "")
  {
    if s != "" {
      EncodeEscaped(s[1..]);
      EscapeAllEscaped(Utf8(s[0] as int));
    }
  }

  /** Unreserved text stays as it is, whatever follows. */
  lemma {:induction false} EncodeUnreserved(s: string, tail: string)
    requires forall c :: c in s ==> Unreserved(c)
    ensures Encode(s + tail) == s + Encode(tail)
  {
    if s == "" {
      assert s + tail == tail;
    } else {
      EncodeUnreserved(s[1..], tail);
      assert (s + tail)[0] == s[0] && (s + tail)[1..] == s[1..] + tail;
      Regroup([s[0]], s[1..], Encode(tail));
      assert [s[0]] + s[1..] == s;
    }
  }
}
