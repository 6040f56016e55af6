/** Rotation and hexadecimal digits (the pure part of bit.h). */
module HexDigits {
  import opened CTypes

  function Rotr(x: bv32, n: nat): bv32
    requires 0 < n < 32
  {
    (x >> n) | (x << (32 - n))
  }

  function CharToHex(ch: byte): bv16
  {
    if 0x30 <= ch <= 0x39 then (ch - 0x30) as bv16
    else if 0x41 <= ch <= 0x46 then (ch - 0x41 + 10) as bv16
    else if 0x61 <= ch <= 0x66 then (ch - 0x61 + 10) as bv16
    else 0x1000
  }

  function HexToChar(hex: byte): bv16
  {
    if hex <= 9 then hex as bv16 + 0x30
    else if hex <= 0xF then hex as bv16 + 0x57
    else 0xFF3F
  }

  /** The character `sha256` stores for a nibble: the low byte of `HexToChar`. */
  function DigitChar(hex: byte): byte
  {
    (HexToChar(hex) & 0xFF) as byte
  }

  /** A value survives being written as a digit and read back exactly when it is a nibble;
      anything else is written as '?', which reads back as no digit. */
  lemma DigitRoundTrip(hex: byte)
    ensures CharToHex(DigitChar(hex)) == hex as bv16 <==> hex < 16
    ensures hex >= 16 ==> CharToHex(DigitChar(hex)) == 0x1000
    ensures hex < 16 ==> DigitChar(hex) != 0
  {}

  lemma RotrIsRotation(x: bv32)
    ensures Rotr(x, 2) == x.RotateRight(2) && Rotr(x, 13) == x.RotateRight(13) && Rotr(x, 22) == x.RotateRight(22)
    ensures Rotr(x, 6) == x.RotateRight(6) && Rotr(x, 11) == x.RotateRight(11) && Rotr(x, 25) == x.RotateRight(25)
    ensures Rotr(x, 7) == x.RotateRight(7) && Rotr(x, 18) == x.RotateRight(18)
    ensures Rotr(x, 17) == x.RotateRight(17) && Rotr(x, 19) == x.RotateRight(19)
  {}
}
