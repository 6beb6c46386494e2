/** `java.net.URLEncoder.encode(text, "UTF-8")`, which the Android sender
    applies to the push text, and a decoder that undoes it.

    The encoder keeps ASCII letters, digits and `.`, `-`, `*`, `_`, turns a
    space into `+`, and writes every other character as the `%XY` escapes
    (upper-case hexadecimal) of its UTF-8 bytes. */
module UrlEncoding {

  import opened Wrappers
  import opened Text

  /** Characters the encoder copies unchanged. */
  predicate Unreserved(c: char) {
    'a' <= c <= 'z' || 'A' <= c <= 'Z' || '0' <= c <= '9'
    || c == '.' || c == '-' || c == '*' || c == '_'
  }

  /** Code points a `char` can hold: the Unicode scalar values. */
  predicate IsScalar(n: int) {
    0 <= n < 0xD800 || 0xE000 <= n < 0x11_0000
  }

  /** The UTF-8 encoding of one scalar value. */
  function Utf8(c: char): (bs: seq<Byte>)
    ensures 1 <= |bs| <= 4
  {
    var n := c as int;
    if n < 0x80 then [n]
    else if n < 0x800 then [0xC0 + n / 64, 0x80 + n % 64]
    else if n < 0x1_0000 then [0xE0 + n / 4096, 0x80 + (n / 64) % 64, 0x80 + n % 64]
    else [0xF0 + n / 0x4_0000, 0x80 + (n / 4096) % 64, 0x80 + (n / 64) % 64, 0x80 + n % 64]
  }

  /** Upper-case hexadecimal digit, as `Character.forDigit(d, 16)` upper-cased. */
  function HexDigit(d: int): char
    requires 0 <= d < 16
  {
    if d < 10 then ('0' as int + d) as char else ('A' as int + d - 10) as char
  }

  /** `%XY` for one byte. */
  function Escape(b: Byte): string {
    ['%', HexDigit(b / 16), HexDigit(b % 16)]
  }

  function Escapes(bs: seq<Byte>): (s: string)
    ensures |s| == 3 * |bs|
  {
    if |bs| == 0 then "" else Escape(bs[0]) + Escapes(bs[1..])
  }

  function EncodeChar(c: char): string {
    if Unreserved(c) then [c]
    else if c == ' ' then "+"
    else Escapes(Utf8(c))
  }

  /** `URLEncoder.encode(s, "UTF-8")`. The result uses only unreserved
      characters, `+` and `%`, and is never shorter than the input. */
  function UrlEncode(s: string): (r: string)
    ensures forall i :: 0 <= i < |r| ==> Unreserved(r[i]) || r[i] == '+' || r[i] == '%'
    ensures |r| >= |s|
  {
    if |s| == 0 then ""
    else
      var head := EncodeChar(s[0]);
      assert forall i :: 0 <= i < |head| ==> Unreserved(head[i]) || head[i] == '+' || head[i] == '%' by {
        EscapesAreSafe(Utf8(s[0]));
      }
      head + UrlEncode(s[1..])
  }

  lemma {:induction false} EscapesAreSafe(bs: seq<Byte>)
    ensures forall i :: 0 <= i < |Escapes(bs)| ==> Unreserved(Escapes(bs)[i]) || Escapes(bs)[i] == '%'
  {
    if |bs| > 0 {
      EscapesAreSafe(bs[1..]);
      assert Escapes(bs) == Escape(bs[0]) + Escapes(bs[1..]);
    }
  }

  // ----- the decoder -----

  function HexValue(c: char): Option<int> {
    if '0' <= c <= '9' then Some(c as int - '0' as int)
    else if 'A' <= c <= 'F' then Some(c as int - 'A' as int + 10)
    else if 'a' <= c <= 'f' then Some(c as int - 'a' as int + 10)
    else None
  }

  /** Reads one `%XY` escape at the start of `t`. */
  function ReadByte(t: string): (r: Option<Byte>)
    ensures r.Some? ==> |t| >= 3
  {
    if |t| >= 3 && t[0] == '%' then
      match (HexValue(t[1]), HexValue(t[2]))
      case (Some(hi), Some(lo)) =>
        if 0 <= hi < 16 && 0 <= lo < 16 then Some(16 * hi + lo) else None
      case _ => None
    else None
  }

  /** Reads `n` consecutive escapes. */
  function ReadBytes(t: string, n: nat): (r: Option<seq<Byte>>)
    ensures r.Some? ==> |r.value| == n && 3 * n <= |t|
  {
    if n == 0 then Some([])
    else
      match ReadByte(t)
      case None => None
      case Some(b) =>
        match ReadBytes(t[3..], n - 1)
        case None => None
        case Some(rest) => Some([b] + rest)
  }

  /** The number of bytes of a UTF-8 sequence with this lead byte; 0 when
      the byte cannot lead a sequence. */
  function SequenceLength(lead: Byte): nat {
    if lead < 0x80 then 1
    else if 0xC0 <= lead < 0xE0 then 2
    else if 0xE0 <= lead < 0xF0 then 3
    else if 0xF0 <= lead < 0xF8 then 4
    else 0
  }

  predicate IsContinuation(b: Byte) {
    0x80 <= b < 0xC0
  }

  function CodePoint(bs: seq<Byte>): int
    requires 1 <= |bs| <= 4
  {
    var b := seq(|bs|, i requires 0 <= i < |bs| => bs[i] as int);
    if |b| == 1 then b[0]
    else if |b| == 2 then (b[0] - 0xC0) * 64 + (b[1] - 0x80)
    else if |b| == 3 then (b[0] - 0xE0) * 4096 + (b[1] - 0x80) * 64 + (b[2] - 0x80)
    else (b[0] - 0xF0) * 0x4_0000 + (b[1] - 0x80) * 4096 + (b[2] - 0x80) * 64 + (b[3] - 0x80)
  }

  /** Decodes the escapes of one character at the start of `t`, giving the
      character and the number of input characters consumed. */
  function DecodeEscapedChar(t: string): (r: Option<(char, nat)>)
    ensures r.Some? ==> 0 < r.value.1 <= |t|
  {
    match ReadByte(t)
    case None => None
    case Some(lead) =>
      var n := SequenceLength(lead);
      if n == 0 then None
      else
        match ReadBytes(t, n)
        case None => None
        case Some(bs) =>
          if (forall i :: 1 <= i < n ==> IsContinuation(bs[i])) && IsScalar(CodePoint(bs))
          then Some((CodePoint(bs) as char, 3 * n))
          else None
  }

  /** Undoes `UrlEncode`: `+` is a space, escapes are UTF-8 bytes, every
      other character stands for itself. `None` for a malformed escape. */
  function UrlDecode(t: string): Option<string>
    decreases |t|
  {
    if |t| == 0 then Some("")
    else if t[0] == '+' then Prepend(' ', UrlDecode(t[1..]))
    else if t[0] != '%' then Prepend(t[0], UrlDecode(t[1..]))
    else
      match DecodeEscapedChar(t)
      case None => None
      case Some((c, k)) => Prepend(c, UrlDecode(t[k..]))
  }

  function Prepend(c: char, o: Option<string>): Option<string> {
    match o
    case None => None
    case Some(s) => Some([c] + s)
  }

  // ----- the round trip -----

  lemma HexDigitValue(d: int)
    requires 0 <= d < 16
    ensures HexValue(HexDigit(d)) == Some(d)
  {
  }

  lemma ReadEscape(b: Byte, rest: string)
    ensures ReadByte(Escape(b) + rest) == Some(b)
    ensures (Escape(b) + rest)[3..] == rest
  {
    var t := Escape(b) + rest;
    HexDigitValue(b / 16);
    HexDigitValue(b % 16);
    assert t[1] == HexDigit(b / 16) && t[2] == HexDigit(b % 16);
  }

  lemma {:induction false} ReadEscapes(bs: seq<Byte>, rest: string)
    ensures ReadBytes(Escapes(bs) + rest, |bs|) == Some(bs)
  {
    if |bs| > 0 {
      var t := Escapes(bs) + rest;
      assert t == Escape(bs[0]) + (Escapes(bs[1..]) + rest);
      ReadEscape(bs[0], Escapes(bs[1..]) + rest);
      ReadEscapes(bs[1..], rest);
      assert [bs[0]] + bs[1..] == bs;
    }
  }

  /** The lead byte announces the sequence length, the others are
      continuation bytes, and the bytes combine back into the code point. */
  lemma Utf8Decodes(c: char)
    ensures SequenceLength(Utf8(c)[0]) == |Utf8(c)|
    ensures forall i :: 1 <= i < |Utf8(c)| ==> IsContinuation(Utf8(c)[i])
    ensures CodePoint(Utf8(c)) == c as int
  {
    var n := c as int;
    var q := n / 64;
    assert n == 64 * q + n % 64;
    if 0x800 <= n < 0x1_0000 {
      assert q == 64 * (q / 64) + q % 64;
      assert n == 4096 * (q / 64) + 64 * (q % 64) + n % 64;
      assert n / 4096 == q / 64;
    } else if 0x1_0000 <= n {
      var q2 := q / 64;
      assert q == 64 * q2 + q % 64;
      assert q2 == 64 * (q2 / 64) + q2 % 64;
      assert n == 0x4_0000 * (q2 / 64) + 4096 * (q2 % 64) + 64 * (q % 64) + n % 64;
      assert n / 4096 == q2;
      assert n / 0x4_0000 == q2 / 64;
    }
  }

  lemma DecodeEscapedUtf8(c: char, rest: string)
    ensures DecodeEscapedChar(Escapes(Utf8(c)) + rest) == Some((c, 3 * |Utf8(c)|))
  {
    var bs := Utf8(c);
    var t := Escapes(bs) + rest;
    assert t == Escape(bs[0]) + (Escapes(bs[1..]) + rest);
    ReadEscape(bs[0], Escapes(bs[1..]) + rest);
    Utf8Decodes(c);
    ReadEscapes(bs, rest);
  }

  /** Decoding steps over the encoding of one character. */
  lemma DecodeEncodedChar(c: char, tail: string)
    ensures UrlDecode(EncodeChar(c) + tail) == Prepend(c, UrlDecode(tail))
  {
    var t := EncodeChar(c) + tail;
    if Unreserved(c) || c == ' ' {
      assert t[0] == (if c == ' ' then '+' else c) && t[1..] == tail;
    } else {
      var bs := Utf8(c);
      DecodeEscapedUtf8(c, tail);
      assert t[0] == '%' by {
        assert t == Escape(bs[0]) + (Escapes(bs[1..]) + tail);
      }
      assert t[3 * |bs|..] == tail;
    }
  }

  /** Decoding an encoded text gives the text back. */
  lemma {:induction false} UrlDecodeEncode(s: string)
    ensures UrlDecode(UrlEncode(s)) == Some(s)
    decreases |s|
  {
    if |s| > 0 {
      assert UrlEncode(s) == EncodeChar(s[0]) + UrlEncode(s[1..]);
      UrlDecodeEncode(s[1..]);
      DecodeEncodedChar(s[0], UrlEncode(s[1..]));
      assert [s[0]] + s[1..] == s;
    }
  }
}
