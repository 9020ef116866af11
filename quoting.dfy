/** `urllib.parse.quote_plus` with its default arguments: the text is encoded as UTF-8,
    every byte that is an unreserved character of section 2.3 of RFC 3986 is kept, a space
    becomes `+`, and every other byte becomes `%XX` with upper-case hexadecimal digits
    (section 2.1 of RFC 3986). */
module Quoting {
  import opened Wrappers

  type byte = x: int | 0 <= x < 256

  /** ALPHA / DIGIT / "-" / "." / "_" / "~" */
  predicate IsUnreserved(c: char) {
    || 'A' <= c <= 'Z' || 'a' <= c <= 'z' || '0' <= c <= '9'
    || c == '-' || c == '.' || c == '_' || c == '~'
  }

  predicate IsUnreservedByte(b: byte) {
    b < 128 && IsUnreserved(b as char)
  }

  /** The UTF-8 encoding of one Unicode scalar value. */
  function Utf8(c: char): (r: seq<byte>)
    ensures 1 <= |r| <= 4
    ensures |r| == 1 <==> c as int < 0x80
    ensures |r| == 1 ==> r[0] == c as int
    ensures forall k :: 1 <= k < |r| ==> 0x80 <= r[k] < 0xC0
  {
    var n := c as int;
    if n < 0x80 then [n]
    else if n < 0x800 then [0xC0 + n / 64, 0x80 + n % 64]
    else if n < 0x10000 then [0xE0 + n / 4096, 0x80 + (n / 64) % 64, 0x80 + n % 64]
    else [0xF0 + n / 262144, 0x80 + (n / 4096) % 64, 0x80 + (n / 64) % 64, 0x80 + n % 64]
  }

  function Utf8Encode(s: string): seq<byte> {
    if s == "" then [] else Utf8(s[0]) + Utf8Encode(s[1..])
  }

  /** Upper-case hexadecimal digit. */
  function HexDigit(d: int): (c: char)
    requires 0 <= d < 16
    ensures IsUnreserved(c)
  {
    if d < 10 then ('0' as int + d) as char else ('A' as int + d - 10) as char
  }

  /** The value of a hexadecimal digit of either case. */
  function HexValue(c: char): (r: Option<int>)
    ensures r.Some? ==> 0 <= r.value < 16
  {
    if '0' <= c <= '9' then Some(c as int - '0' as int)
    else if 'A' <= c <= 'F' then Some(c as int - 'A' as int + 10)
    else if 'a' <= c <= 'f' then Some(c as int - 'a' as int + 10)
    else None
  }

  lemma HexDigitValue(d: int)
    requires 0 <= d < 16
    ensures HexValue(HexDigit(d)) == Some(d)
  {
  }

  /** The text `quote_plus` emits for one byte. */
  function QuoteByte(b: byte): (r: string)
    ensures r == "+" <==> b == 0x20
    ensures |r| == 1 || (|r| == 3 && r[0] == '%')
  {
    if IsUnreservedByte(b) then [b as char]
    else if b == 0x20 then "+"
    else ['%', HexDigit(b / 16), HexDigit(b % 16)]
  }

  function QuoteBytes(bs: seq<byte>): string {
    if bs == [] then "" else QuoteByte(bs[0]) + QuoteBytes(bs[1..])
  }

  /** `quote_plus(s)`. */
  function QuotePlus(s: string): string {
    QuoteBytes(Utf8Encode(s))
  }

  /** Characters that may appear in the output of `quote_plus`. */
  predicate IsQuotedChar(c: char) {
    IsUnreserved(c) || c == '%' || c == '+'
  }

  /** `unquote_plus` down to bytes: `+` is a space, `%XX` is the byte `XX`, and any other
      character below 128 stands for itself. A stray `%` or a non-ASCII character makes
      the text one `quote_plus` could not have produced. */
  function UnquoteBytes(t: string): (r: Option<seq<byte>>)
    decreases |t|
  {
    if t == "" then Some([])
    else if t[0] == '%' then
      if |t| < 3 || HexValue(t[1]).None? || HexValue(t[2]).None? then None
      else
        match UnquoteBytes(t[3..])
        case None => None
        case Some(rest) => Some([HexValue(t[1]).value * 16 + HexValue(t[2]).value] + rest)
    else if t[0] == '+' then
      match UnquoteBytes(t[1..])
      case None => None
      case Some(rest) => Some([0x20] + rest)
    else if t[0] as int < 128 then
      match UnquoteBytes(t[1..])
      case None => None
      case Some(rest) => Some([t[0] as int] + rest)
    else None
  }

  /** The output of `quote_plus` holds only unreserved characters, `%` and `+`; in
      particular it never holds a space, so it survives a split on spaces whole. */
  lemma {:induction false} QuoteBytesSafe(bs: seq<byte>)
    ensures forall k :: 0 <= k < |QuoteBytes(bs)| ==> IsQuotedChar(QuoteBytes(bs)[k])
    decreases |bs|
  {
    if bs != [] {
      QuoteBytesSafe(bs[1..]);
      var h := QuoteByte(bs[0]);
      var t := QuoteBytes(bs[1..]);
      assert QuoteBytes(bs) == h + t;
      forall k | 0 <= k < |h| ensures IsQuotedChar(h[k]) {
      }
    }
  }

  lemma QuotePlusSafe(s: string)
    ensures forall k :: 0 <= k < |QuotePlus(s)| ==> IsQuotedChar(QuotePlus(s)[k])
    ensures ' ' !in QuotePlus(s)
  {
    QuoteBytesSafe(Utf8Encode(s));
  }

  lemma UnquoteQuoteByte(b: byte, t: string)
    ensures UnquoteBytes(QuoteByte(b) + t) ==
      match UnquoteBytes(t)
      case None => None
      case Some(rest) => Some([b] + rest)
  {
    var q := QuoteByte(b) + t;
    if IsUnreservedByte(b) {
      assert q[1..] == t;
    } else if b == 0x20 {
      assert q[1..] == t;
    } else {
      HexDigitValue(b / 16);
      HexDigitValue(b % 16);
      assert q[3..] == t;
    }
  }

  /** `unquote_plus` undoes `quote_plus`: every byte of the encoding is recovered. */
  lemma {:induction false} UnquoteQuoteBytes(bs: seq<byte>)
    ensures UnquoteBytes(QuoteBytes(bs)) == Some(bs)
    decreases |bs|
  {
    if bs != [] {
      UnquoteQuoteBytes(bs[1..]);
      UnquoteQuoteByte(bs[0], QuoteBytes(bs[1..]));
      assert QuoteBytes(bs) == QuoteByte(bs[0]) + QuoteBytes(bs[1..]);
      assert bs == [bs[0]] + bs[1..];
    }
  }

  lemma UnquoteQuotePlus(s: string)
    ensures UnquoteBytes(QuotePlus(s)) == Some(Utf8Encode(s))
  {
    UnquoteQuoteBytes(Utf8Encode(s));
  }

  /** Text made only of unreserved characters is left as it is. */
  lemma {:induction false} QuotePlusUnreserved(s: string)
    requires forall k :: 0 <= k < |s| ==> IsUnreserved(s[k])
    ensures QuotePlus(s) == s
    decreases |s|
  {
    if s != "" {
      QuotePlusUnreserved(s[1..]);
      assert Utf8Encode(s) == [s[0] as int] + Utf8Encode(s[1..]);
      assert Utf8Encode(s)[1..] == Utf8Encode(s[1..]);
      assert s == [s[0]] + s[1..];
    }
  }
}
