/** Bytes and the integers they stand for. */
module Bytes {
  import opened MachineInts

  type byte = bv8

  lemma Nibble(n: nat)
    requires n < 16
    ensures (n as byte) as int == n && (n as byte) < 16
  {
  }

  lemma TwoNibbles(h: byte, l: byte)
    requires h < 16 && l < 16
    ensures ((h << 4) | l) as int == 16 * (h as int) + l as int
  {
  }

  /** The byte with value `n`. */
  function ByteOf(n: nat): (b: byte)
    requires n < U8_SPAN
    ensures b as int == n
  {
    Nibble(n / 16);
    Nibble(n % 16);
    TwoNibbles((n / 16) as byte, (n % 16) as byte);
    (((n / 16) as byte) << 4) | ((n % 16) as byte)
  }

  lemma ByteIsItsValue(x: byte, y: byte)
    requires x as int == y as int
    ensures x == y
  {
    assert (x as int) as byte == x && (y as int) as byte == y;
  }

  lemma ValueOfByte(x: byte)
    ensures 0 <= x as int < U8_SPAN
    ensures x < 8 <==> x as int < 8
  {
  }
}
