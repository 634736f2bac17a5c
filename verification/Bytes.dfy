/**
 Octets, C strings and the big-endian accessors of c-ares/ares_dns.h.
 */
module Bytes {

  type Byte = b: int | 0 <= b < 256

  /** The characters of a NUL-terminated string, without the terminator. */
  type CString = s: seq<Byte> | 0 !in s

  /** The fixed parts of a message: its header and what follows the name of a question. */
  const HFIXEDSZ := 12
  const QFIXEDSZ := 4

  const DOT: Byte := 46
  const BACKSLASH: Byte := 92

  /** What a C function sees of a character buffer: everything before the first NUL. */
  function BeforeNul(s: seq<Byte>): CString
  {
    if s == [] || s[0] == 0 then [] else [s[0]] + BeforeNul(s[1..])
  }

  // ----- 16 and 32 bit network order fields

  function Get16(s: seq<Byte>, p: nat): (v: int)
    requires p + 2 <= |s|
    ensures 0 <= v < 0x1_0000
  {
    s[p] as int * 256 + s[p + 1]
  }

  function Get32(s: seq<Byte>, p: nat): (v: int)
    requires p + 4 <= |s|
    ensures 0 <= v < 0x1_0000_0000
  {
    s[p] as int * 0x100_0000 + s[p + 1] as int * 0x1_0000 + s[p + 2] as int * 256 + s[p + 3]
  }

  /** The two bytes DNS__SET16BIT stores for any C integer v (two's complement, low 16 bits). */
  function Put16(v: int): (s: seq<Byte>)
    ensures |s| == 2 && Get16(s, 0) == v % 0x1_0000
  {
    [v / 256 % 256, v % 256]
  }

  /** The value of an unsigned 32-bit field once it is assigned to a C int. */
  function ToInt32(v: int): (r: int)
    requires 0 <= v < 0x1_0000_0000
    ensures -0x8000_0000 <= r < 0x8000_0000
    ensures (r - v) % 0x1_0000_0000 == 0
  {
    if v < 0x8000_0000 then v else v - 0x1_0000_0000
  }
}
