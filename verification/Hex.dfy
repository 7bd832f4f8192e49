/** Hexadecimal digits (pjlib's ctype.h), shared by the URI and JSON escapes. */
module Hex {
  import opened Bytes

  predicate IsHexDigit(c: byte) {
    '0' as int <= c <= '9' as int || 'A' as int <= c <= 'F' as int || 'a' as int <= c <= 'f' as int
  }

  // pj_hex_digits, in lower case.
  function HexDigit(v: int): (c: byte)
    requires 0 <= v < 16
  {
    if v < 10 then '0' as int + v else 'a' as int + (v - 10)
  }

  // pj_hex_digit_to_val keeps the low four bits, so that it has a value for every character.
  function HexValue(c: byte): (v: int)
    ensures 0 <= v < 16
  {
    if c <= '9' as int then (c - '0' as int) % 16
    else if c <= 'F' as int then (c - 'A' as int + 10) % 16
    else (c - 'a' as int + 10) % 16
  }

  function HighDigit(c: byte): byte { HexDigit(c / 16) }

  function LowDigit(c: byte): byte { HexDigit(c % 16) }

  function HexByte(high: byte, low: byte): byte { HexValue(high) * 16 + HexValue(low) }

  // The two digits written for a character are hexadecimal and are read back as that character.
  lemma HexRoundTrip(c: byte)
    ensures IsHexDigit(HighDigit(c)) && IsHexDigit(LowDigit(c))
    ensures HexByte(HighDigit(c), LowDigit(c)) == c
  {
    DigitRoundTrip(c / 16);
    DigitRoundTrip(c % 16);
  }

  lemma DigitRoundTrip(v: int)
    requires 0 <= v < 16
    ensures IsHexDigit(HexDigit(v)) && HexValue(HexDigit(v)) == v
  {
  }

  // The sixteen digits as they are written; capital letters are read as well.
  lemma DigitTable(v: int)
    requires 0 <= v < 16
    ensures HexDigit(v) == "0123456789abcdef"[v] as int
    ensures HexValue("0123456789abcdef"[v] as int) == v && HexValue("0123456789ABCDEF"[v] as int) == v
    ensures IsHexDigit("0123456789abcdef"[v] as int) && IsHexDigit("0123456789ABCDEF"[v] as int)
  {
  }

  predicate IsDigitOf(c: byte, v: int)
    requires 0 <= v < 16
  {
    c == "0123456789abcdef"[v] as int || c == "0123456789ABCDEF"[v] as int
  }

  lemma CodeIsRead(high: int, low: int, h: byte, l: byte)
    requires 0 <= high < 16 && 0 <= low < 16 && IsDigitOf(h, high) && IsDigitOf(l, low)
    ensures HexByte(h, l) == 16 * high + low && IsHexDigit(h) && IsHexDigit(l)
  {
    DigitTable(high);
    DigitTable(low);
  }
}
