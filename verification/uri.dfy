/**
 * `encodeURIComponent`, which builds the payload of the contact link: every
 * character outside its unescaped set (letters, digits and `-_.!~*'()`) is written as the percent-encoded
 * bytes of its UTF-8 form, with upper-case hexadecimal digits (section 2.1 of
 * RFC 3986). A percent-decoder is defined beside it and proved to invert it.
 */
module Uri {
  import opened Wrappers

  /** The characters `encodeURIComponent` leaves unescaped. */
  predicate Unescaped(c: char)
  {
    ('A' <= c <= 'Z') || ('a' <= c <= 'z') || ('0' <= c <= '9')
    || c == '-' || c == '_' || c == '.' || c == '!' || c == '~'
    || c == '*' || c == '\'' || c == '(' || c == ')'
  }

  predicate IsByte(b: int)
  {
    0 <= b < 256
  }

  predicate IsContinuation(b: int)
  {
    0x80 <= b < 0xC0
  }

  /** Number of bytes a UTF-8 sequence starting with `b` has; 0 for a byte that cannot start one. */
  function LeadLength(b: int): nat
  {
    if b < 0x80 then 1
    else if 0xC0 <= b < 0xE0 then 2
    else if 0xE0 <= b < 0xF0 then 3
    else if 0xF0 <= b < 0xF8 then 4
    else 0
  }

  /** The UTF-8 encoding of one character (a Unicode scalar value). */
  function Utf8(c: char): (bs: seq<int>)
    ensures 1 <= |bs| <= 4
    ensures forall k :: 0 <= k < |bs| ==> IsByte(bs[k])
    ensures LeadLength(bs[0]) == |bs|
    ensures forall k :: 1 <= k < |bs| ==> IsContinuation(bs[k])
  {
    var cp := c as int;
    var q1 := cp / 64;
    var q2 := q1 / 64;
    var q3 := q2 / 64;
    if cp < 0x80 then [cp]
    else if cp < 0x800 then [0xC0 + q1, 0x80 + cp % 64]
    else if cp < 0x10000 then [0xE0 + q2, 0x80 + q1 % 64, 0x80 + cp % 64]
    else [0xF0 + q3, 0x80 + q2 % 64, 0x80 + q1 % 64, 0x80 + cp % 64]
  }

  /** The code point a well-formed UTF-8 byte sequence of length 1 to 4 stands for. */
  function Combine(bs: seq<int>): int
    requires 1 <= |bs| <= 4
  {
    if |bs| == 1 then bs[0]
    else if |bs| == 2 then (bs[0] - 0xC0) * 64 + (bs[1] - 0x80)
    else if |bs| == 3 then ((bs[0] - 0xE0) * 64 + (bs[1] - 0x80)) * 64 + (bs[2] - 0x80)
    else (((bs[0] - 0xF0) * 64 + (bs[1] - 0x80)) * 64 + (bs[2] - 0x80)) * 64 + (bs[3] - 0x80)
  }

  /** Decoding the UTF-8 bytes of a character gives back its code point. */
  lemma Utf8Combine(c: char)
    ensures Combine(Utf8(c)) == c as int
  {
    var cp := c as int;
    var q1 := cp / 64;
    var q2 := q1 / 64;
    var q3 := q2 / 64;
    assert cp == q1 * 64 + cp % 64;
    assert q1 == q2 * 64 + q1 % 64;
    assert q2 == q3 * 64 + q2 % 64;
  }

  /** The upper-case hexadecimal digit of `n`, as `encodeURIComponent` writes it. */
  function HexDigit(n: int): char
    requires 0 <= n < 16
  {
    if n < 10 then ('0' as int + n) as char else ('A' as int + n - 10) as char
  }

  /** The value of a hexadecimal digit of either case. */
  function HexValue(c: char): (r: Option<int>)
    ensures r.Some? ==> 0 <= r.value < 16
  {
    if '0' <= c <= '9' then Some(c as int - '0' as int)
    else if 'A' <= c <= 'F' then Some(c as int - 'A' as int + 10)
    else if 'a' <= c <= 'f' then Some(c as int - 'a' as int + 10)
    else None
  }

  lemma HexRoundTrip(n: int)
    requires 0 <= n < 16
    ensures HexValue(HexDigit(n)) == Some(n)
  {
  }

  /** `%XY` for one byte. */
  function PercentByte(b: int): string
    requires IsByte(b)
  {
    ['%', HexDigit(b / 16), HexDigit(b % 16)]
  }

  function PercentBytes(bs: seq<int>): (s: string)
    requires forall k :: 0 <= k < |bs| ==> IsByte(bs[k])
    ensures |s| == 3 * |bs|
  {
    if bs == [] then [] else PercentByte(bs[0]) + PercentBytes(bs[1..])
  }

  /** The escape of one character. */
  function EncodeChar(c: char): string
  {
    if Unescaped(c) then [c] else PercentBytes(Utf8(c))
  }

  /** `encodeURIComponent(s)`: only unescaped characters and `%` appear in the result. */
  function Encode(s: string): (r: string)
    ensures forall i :: 0 <= i < |r| ==> Unescaped(r[i]) || r[i] == '%'
  {
    if s == [] then []
    else
      var head := EncodeChar(s[0]);
      assert forall i :: 0 <= i < |head| ==> Unescaped(head[i]) || head[i] == '%' by {
        if !Unescaped(s[0]) {
          PercentBytesAlphabet(Utf8(s[0]));
        }
      }
      head + Encode(s[1..])
  }

  /** Percent-escapes consist of `%` and upper-case hexadecimal digits, all of them unescaped but `%`. */
  lemma {:induction false} PercentBytesAlphabet(bs: seq<int>)
    requires forall k :: 0 <= k < |bs| ==> IsByte(bs[k])
    ensures forall i :: 0 <= i < |PercentBytes(bs)| ==> Unescaped(PercentBytes(bs)[i]) || PercentBytes(bs)[i] == '%'
  {
    if bs != [] {
      PercentBytesAlphabet(bs[1..]);
      assert forall n :: 0 <= n < 16 ==> Unescaped(HexDigit(n));
    }
  }

  /** The byte written as `%XY` at position `i`, if there is one. */
  function ByteAt(s: string, i: nat): (r: Option<int>)
    requires i + 3 <= |s|
    ensures r.Some? ==> IsByte(r.value)
  {
    if s[i] != '%' then None
    else match (HexValue(s[i + 1]), HexValue(s[i + 2]))
      case (Some(hi), Some(lo)) => Some(16 * hi + lo)
      case _ => None
  }

  /** Reads `n` consecutive `%XY` escapes. */
  function ReadBytes(s: string, n: nat): (r: Option<seq<int>>)
    requires 3 * n <= |s|
    ensures r.Some? ==> |r.value| == n
  {
    if n == 0 then Some([])
    else match (ByteAt(s, 0), ReadBytes(s[3..], n - 1))
      case (Some(b), Some(bs)) => Some([b] + bs)
      case _ => None
  }

  predicate IsScalar(cp: int)
  {
    (0 <= cp < 0xD800) || (0xE000 <= cp < 0x110000)
  }

  /** Decodes the escape sequence at the start of `s`: the character and the number of characters used. */
  function DecodeEscape(s: string): (r: Option<(char, nat)>)
    ensures r.Some? ==> 3 <= r.value.1 <= |s|
  {
    if |s| < 3 then None
    else match ByteAt(s, 0)
      case None => None
      case Some(b0) =>
        var n := LeadLength(b0);
        if n == 0 || |s| < 3 * n then None
        else match ReadBytes(s, n)
          case None => None
          case Some(bs) =>
            if exists k :: 1 <= k < n && !IsContinuation(bs[k]) then None
            else
              var cp := Combine(bs);
              if IsScalar(cp) then Some((cp as char, 3 * n)) else None
  }

  function Prepend(c: char, r: Option<string>): Option<string>
  {
    match r
    case None => None
    case Some(t) => Some([c] + t)
  }

  /** Percent-decoding (`decodeURIComponent`); `None` for a malformed escape. */
  function Decode(s: string): Option<string>
    decreases |s|
  {
    if s == [] then Some([])
    else if s[0] != '%' then Prepend(s[0], Decode(s[1..]))
    else match DecodeEscape(s)
      case None => None
      case Some((c, n)) => Prepend(c, Decode(s[n..]))
  }

  lemma ByteAtPercent(b: int, rest: string)
    requires IsByte(b)
    ensures ByteAt(PercentByte(b) + rest, 0) == Some(b)
  {
    HexRoundTrip(b / 16);
    HexRoundTrip(b % 16);
  }

  lemma {:induction false} ReadPercentBytes(bs: seq<int>, rest: string)
    requires forall k :: 0 <= k < |bs| ==> IsByte(bs[k])
    ensures ReadBytes(PercentBytes(bs) + rest, |bs|) == Some(bs)
  {
    if bs != [] {
      var tail := PercentBytes(bs[1..]) + rest;
      var s := PercentBytes(bs) + rest;
      assert ByteAt(s, 0) == Some(bs[0]) by {
        assert s == PercentByte(bs[0]) + tail;
        ByteAtPercent(bs[0], tail);
      }
      assert ReadBytes(s[3..], |bs| - 1) == Some(bs[1..]) by {
        assert s == PercentByte(bs[0]) + tail;
        assert s[3..] == tail;
        ReadPercentBytes(bs[1..], rest);
      }
      ReadBytesStep(s, bs);
    }
  }

  /** One step of `ReadBytes`: a first escape followed by `n - 1` more. */
  lemma ReadBytesStep(s: string, bs: seq<int>)
    requires 0 < |bs| && 3 * |bs| <= |s|
    requires ByteAt(s, 0) == Some(bs[0]) && ReadBytes(s[3..], |bs| - 1) == Some(bs[1..])
    ensures ReadBytes(s, |bs|) == Some(bs)
  {
    assert bs == [bs[0]] + bs[1..];
  }

  lemma DecodeEscapeOfChar(c: char, rest: string)
    ensures DecodeEscape(PercentBytes(Utf8(c)) + rest) == Some((c, 3 * |Utf8(c)|))
  {
    var bs := Utf8(c);
    var s := PercentBytes(bs) + rest;
    assert s == PercentByte(bs[0]) + (PercentBytes(bs[1..]) + rest);
    ByteAtPercent(bs[0], PercentBytes(bs[1..]) + rest);
    ReadPercentBytes(bs, rest);
    Utf8Combine(c);
  }

  lemma DecodeEncodedChar(c: char, rest: string)
    ensures Decode(EncodeChar(c) + rest) == Prepend(c, Decode(rest))
  {
    var s := EncodeChar(c) + rest;
    if Unescaped(c) {
      assert s[1..] == rest;
    } else {
      var bs := Utf8(c);
      DecodeEscapeOfChar(c, rest);
      assert s[0] == '%';
      assert s[3 * |bs|..] == rest;
    }
  }

  /** Percent-decoding undoes `encodeURIComponent`. */
  lemma {:induction false} DecodeEncode(s: string)
    ensures Decode(Encode(s)) == Some(s)
  {
    if s != [] {
      DecodeEncodedChar(s[0], Encode(s[1..]));
      DecodeEncode(s[1..]);
      assert s == [s[0]] + s[1..];
    }
  }

  /** Distinct messages give distinct payloads. */
  lemma EncodeInjective(a: string, b: string)
    requires Encode(a) == Encode(b)
    ensures a == b
  {
    DecodeEncode(a);
    DecodeEncode(b);
  }
}
