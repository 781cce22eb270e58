/** Go's `url.QueryEscape`: the string is encoded as UTF-8 and every byte
    outside the unreserved set (ASCII letters, digits and `-_.~`) is written as
    `%XX` with upper-case hex digits, except the space, which becomes `+`. */
module QueryEscape {
  import opened Common

  type byte = b: int | 0 <= b < 256

  /** The UTF-8 encoding of one Unicode scalar value. */
  function Utf8(c: char): (bs: seq<byte>)
    ensures 1 <= |bs| <= 4
    ensures (c as int) < 0x80 <==> bs == [c as int]
  {
    var n := c as int;
    if n < 0x80 then [n]
    else if n < 0x800 then [0xC0 + n / 0x40, 0x80 + n % 0x40]
    else if n < 0x1_0000 then [0xE0 + n / 0x1000, 0x80 + (n / 0x40) % 0x40, 0x80 + n % 0x40]
    else [0xF0 + n / 0x4_0000, 0x80 + (n / 0x1000) % 0x40, 0x80 + (n / 0x40) % 0x40, 0x80 + n % 0x40]
  }

  /** The UTF-8 bytes of a string, which is what a Go string holds. */
  function EncodeUtf8(s: string): seq<byte>
    decreases |s|
  {
    if |s| == 0 then [] else Utf8(s[0]) + EncodeUtf8(s[1..])
  }

  /** Bytes that `url.QueryEscape` leaves as they are. */
  predicate Unreserved(b: int) {
    ('a' as int <= b <= 'z' as int) || ('A' as int <= b <= 'Z' as int) || ('0' as int <= b <= '9' as int)
    || b == '-' as int || b == '_' as int || b == '.' as int || b == '~' as int
  }

  /** The upper-case hex digit of a value below 16. */
  function HexDigit(n: int): char
    requires 0 <= n < 16
  {
    if n < 10 then ('0' as int + n) as char else ('A' as int + n - 10) as char
  }

  /** The value of a hex digit of either case. */
  function HexValue(c: char): (r: Option<int>)
    ensures r.Some? ==> 0 <= r.value < 16
  {
    if '0' <= c <= '9' then Some(c as int - '0' as int)
    else if 'A' <= c <= 'F' then Some(c as int - 'A' as int + 10)
    else if 'a' <= c <= 'f' then Some(c as int - 'a' as int + 10)
    else None
  }

  function EscapeByte(b: byte): string {
    if Unreserved(b) then [b as char]
    else if b == ' ' as int then "+"
    else ['%', HexDigit(b / 16), HexDigit(b % 16)]
  }

  function EscapeBytes(bs: seq<byte>): string
    decreases |bs|
  {
    if |bs| == 0 then "" else EscapeByte(bs[0]) + EscapeBytes(bs[1..])
  }

  /** `url.QueryEscape`. Its result holds only safe characters, so never the
      `&` or `=` of a query string, and it decodes to exactly the UTF-8 bytes
      of `s`: no two strings escape alike. */
  function Escape(s: string): (r: string)
    ensures forall i :: 0 <= i < |r| ==> SafeChar(r[i])
    ensures '&' !in r && '=' !in r
    ensures Unescape(r) == Some(EncodeUtf8(s))
  {
    EscapeBytesIsSafe(EncodeUtf8(s));
    UnescapeEscapeBytes(EncodeUtf8(s));
    EscapeBytes(EncodeUtf8(s))
  }

  /** The characters an escaped value can contain. */
  predicate SafeChar(c: char) {
    ((c as int) < 0x80 && Unreserved(c as int)) || c == '+' || c == '%'
  }

  /** Every character of an escaped value is safe; in particular no escaped
      value contains the `&` or `=` of a query string. */
  lemma {:induction false} EscapeBytesIsSafe(bs: seq<byte>)
    ensures forall i :: 0 <= i < |EscapeBytes(bs)| ==> SafeChar(EscapeBytes(bs)[i])
    ensures '&' !in EscapeBytes(bs) && '=' !in EscapeBytes(bs)
    decreases |bs|
  {
    if |bs| > 0 {
      EscapeBytesIsSafe(bs[1..]);
      var head, tail := EscapeByte(bs[0]), EscapeBytes(bs[1..]);
      assert forall i :: 0 <= i < |head| ==> SafeChar(head[i]);
      assert forall i :: 0 <= i < |head + tail| ==>
        (head + tail)[i] == (if i < |head| then head[i] else tail[i - |head|]);
    }
  }

  function Prepend(b: byte, rest: Option<seq<byte>>): Option<seq<byte>> {
    match rest
    case None => None
    case Some(bs) => Some([b] + bs)
  }

  /** The inverse of `EscapeBytes` on the ASCII strings it produces, decoding as
      `url.QueryUnescape` does: `%XX` is one byte, `+` is a space, any other
      ASCII character stands for itself. */
  function Unescape(s: string): Option<seq<byte>>
    decreases |s|
  {
    if |s| == 0 then Some([])
    else if s[0] == '%' then
      if |s| < 3 then None
      else match (HexValue(s[1]), HexValue(s[2]))
        case (Some(hi), Some(lo)) => Prepend(hi * 16 + lo, Unescape(s[3..]))
        case _ => None
    else if s[0] == '+' then Prepend(' ' as int, Unescape(s[1..]))
    else if (s[0] as int) < 0x80 then Prepend(s[0] as int, Unescape(s[1..]))
    else None
  }

  lemma {:induction false} UnescapeAfterByte(b: byte, rest: string)
    ensures Unescape(EscapeByte(b) + rest) == Prepend(b, Unescape(rest))
  {
    var s := EscapeByte(b) + rest;
    if Unreserved(b) {
      assert s[0] == b as char && s[1..] == rest;
    } else if b == ' ' as int {
      assert s[0] == '+' && s[1..] == rest;
    } else {
      assert s[0] == '%' && s[1] == HexDigit(b / 16) && s[2] == HexDigit(b % 16) && s[3..] == rest;
      assert HexValue(HexDigit(b / 16)) == Some(b / 16);
      assert HexValue(HexDigit(b % 16)) == Some(b % 16);
    }
  }

  /** Unescaping undoes escaping: no two byte strings escape alike. */
  lemma {:induction false} UnescapeEscapeBytes(bs: seq<byte>)
    ensures Unescape(EscapeBytes(bs)) == Some(bs)
    decreases |bs|
  {
    if |bs| > 0 {
      UnescapeEscapeBytes(bs[1..]);
      UnescapeAfterByte(bs[0], EscapeBytes(bs[1..]));
      assert bs == [bs[0]] + bs[1..];
    }
  }

  /** A string of unreserved ASCII characters is its own escaped form. */
  lemma {:induction false} EscapePlain(s: string)
    requires forall i :: 0 <= i < |s| ==> (s[i] as int) < 0x80 && Unreserved(s[i] as int)
    ensures Escape(s) == s
    decreases |s|
  {
    if |s| > 0 {
      EscapePlain(s[1..]);
      assert EncodeUtf8(s) == [s[0] as int] + EncodeUtf8(s[1..]);
      assert (EncodeUtf8(s))[1..] == EncodeUtf8(s[1..]);
      assert s == [s[0]] + s[1..];
    }
  }
}
