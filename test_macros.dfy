/** The character macros of libgcrypt's test helpers: `my_isascii` on a
    byte, and `digitp`, `hexdigitp`, `xtoi_1` and `xtoi_2` on the
    characters a pointer designates. A pointer argument is modelled by the
    characters it reads: one for the first four macros, the first two of a
    string for `xtoi_2`. */
module TestMacros {

  /** `my_isascii(c)`: bit 7 of the byte is clear. */
  predicate IsAscii(c: bv8)
  {
    c & 0x80 == 0
  }

  /** A byte is ASCII exactly when it is below 128. */
  lemma IsAsciiBelow128(c: bv8)
    ensures IsAscii(c) <==> c < 0x80
  {
  }

  /** `digitp(p)` */
  predicate IsDigit(c: char)
  {
    '0' <= c <= '9'
  }

  /** `hexdigitp(a)` */
  predicate IsHexDigit(c: char)
  {
    IsDigit(c) || ('A' <= c <= 'F') || ('a' <= c <= 'f')
  }

  /** `xtoi_1(p)`: the three-way choice on `*p`, on any character; the
      value is meaningful for hex digits only. */
  function XtoI1(c: char): (v: int)
    ensures IsDigit(c) ==> v == c as int - '0' as int
    ensures 'A' <= c <= 'F' ==> v == c as int - 'A' as int + 10
    ensures 'a' <= c <= 'f' ==> v == c as int - 'a' as int + 10
    ensures IsHexDigit(c) ==> 0 <= v < 16
  {
    if c <= '9' then c as int - '0' as int
    else if c <= 'F' then c as int - 'A' as int + 10
    else c as int - 'a' as int + 10
  }

  /** `xtoi_2(p)`: the first two characters as a two-digit hex number. */
  function XtoI2(p: string): (v: int)
    requires |p| >= 2
    ensures IsHexDigit(p[0]) && IsHexDigit(p[1]) ==> 0 <= v < 256
    ensures IsHexDigit(p[0]) && IsHexDigit(p[1]) ==> v / 16 == XtoI1(p[0]) && v % 16 == XtoI1(p[1])
  {
    XtoI1(p[0]) * 16 + XtoI1(p[1])
  }

  /** The hex digit for a value below 16, in upper or lower case. */
  function HexDigit(v: int, upper: bool): (c: char)
    requires 0 <= v < 16
    ensures IsHexDigit(c)
  {
    if v < 10 then ('0' as int + v) as char
    else if upper then ('A' as int + v - 10) as char
    else ('a' as int + v - 10) as char
  }

  /** Whether a hex digit is written in upper case (digits count as
      either). */
  predicate IsUpperHex(c: char)
  {
    'A' <= c <= 'F'
  }

  /** `xtoi_1` reads back every rendered hex digit, in either case. */
  lemma XtoI1OfHexDigit(v: int, upper: bool)
    requires 0 <= v < 16
    ensures XtoI1(HexDigit(v, upper)) == v
  {
  }

  /** Every hex digit is the rendering of its `xtoi_1` value, in its own
      case; so 'A' and 'a' both stand for 10. */
  lemma HexDigitOfXtoI1(c: char)
    requires IsHexDigit(c)
    ensures HexDigit(XtoI1(c), IsUpperHex(c)) == c
    ensures XtoI1('A') == XtoI1('a') == 10
  {
  }

  /** The two-digit rendering of a byte. */
  function HexByte(b: int, upper: bool): (s: string)
    requires 0 <= b < 256
    ensures |s| == 2 && IsHexDigit(s[0]) && IsHexDigit(s[1])
  {
    [HexDigit(b / 16, upper), HexDigit(b % 16, upper)]
  }

  /** `xtoi_2` inverts the two-digit hex rendering of a byte. */
  lemma XtoI2OfHexByte(b: int, upper: bool)
    requires 0 <= b < 256
    ensures XtoI2(HexByte(b, upper)) == b
  {
    XtoI1OfHexDigit(b / 16, upper);
    XtoI1OfHexDigit(b % 16, upper);
  }

  /** Rendering the value of two hex digits gives them back, when both are
      written in the case asked for (or are decimal digits). */
  lemma HexByteOfXtoI2(p: string, upper: bool)
    requires |p| >= 2 && IsHexDigit(p[0]) && IsHexDigit(p[1])
    requires !IsDigit(p[0]) ==> IsUpperHex(p[0]) == upper
    requires !IsDigit(p[1]) ==> IsUpperHex(p[1]) == upper
    ensures HexByte(XtoI2(p), upper) == p[..2]
  {
    HexDigitOfXtoI1(p[0]);
    HexDigitOfXtoI1(p[1]);
  }

  /** `hexdigitp` accepts exactly the characters that are the rendering,
      in their own case, of their `xtoi_1` value below 16. */
  lemma HexDigitsAreRendered(c: char)
    ensures IsHexDigit(c) <==> 0 <= XtoI1(c) < 16 && HexDigit(XtoI1(c), IsUpperHex(c)) == c
  {
    if IsHexDigit(c) {
      HexDigitOfXtoI1(c);
    }
  }

  /** `digitp` accepts exactly the hex digits of value below ten. */
  lemma DigitsAreDecimalHex(c: char)
    ensures IsDigit(c) <==> IsHexDigit(c) && XtoI1(c) < 10
  {
  }
}
