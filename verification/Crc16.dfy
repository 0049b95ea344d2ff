/** CRC-16/MODBUS: the two-table byte loop of the firmware against the bit-by-bit register of
    section 6.2.2 of MODBUS over Serial Line Specification and Implementation Guide V1.02. */
module Crc16 {
  import opened Bytes

  // ---------------------------------------------------------------- bit-by-bit definition

  /** One shift of the reflected register: the bit shifted out is fed back at bits 15, 13 and 0. */
  function Shift(c: bv16): bv16 {
    (c >> 1) ^ ((c & 1) << 15) ^ ((c & 1) << 13) ^ (c & 1)
  }

  /** The same in the words of the guide: shift right, and if a 1 fell out, exclusive-or 0xA001. */
  lemma ShiftByPolynomial(c: bv16)
    ensures Shift(c) == if c & 1 == 1 then (c >> 1) ^ 0xA001 else c >> 1
  {
    if c & 1 == 1 {
    } else {
      assert c & 1 == 0;
    }
  }

  function Shift4(c: bv16): bv16 {
    Shift(Shift(Shift(Shift(c))))
  }

  function Shift8(c: bv16): bv16 {
    Shift4(Shift4(c))
  }

  /** One message byte: exclusive-or into the low half, then eight shifts. */
  function Feed(c: bv16, b: byte): bv16 {
    Shift8(c ^ (b as bv16))
  }

  function CrcFrom(c: bv16, s: seq<byte>): bv16 {
    if s == [] then c else Feed(CrcFrom(c, s[..|s| - 1]), s[|s| - 1])
  }

  function Crc(s: seq<byte>): bv16 {
    CrcFrom(0xFFFF, s)
  }

  function LowByte(c: bv16): byte { (c & 0xFF) as byte }
  function HighByte(c: bv16): byte { (c >> 8) as byte }
  function Word(high: byte, low: byte): bv16 { ((high as bv16) << 8) | (low as bv16) }

  // ---------------------------------------------------------------- the tables of the firmware

  /** The 256 entries of `crc_byte_hi`, sixteen to a row. */
  const CRC_BYTE_HI: seq<seq<byte>> := [
    [0x00, 0xC1, 0x81, 0x40, 0x01, 0xC0, 0x80, 0x41, 0x01, 0xC0, 0x80, 0x41, 0x00, 0xC1, 0x81, 0x40],
    [0x01, 0xC0, 0x80, 0x41, 0x00, 0xC1, 0x81, 0x40, 0x00, 0xC1, 0x81, 0x40, 0x01, 0xC0, 0x80, 0x41],
    [0x01, 0xC0, 0x80, 0x41, 0x00, 0xC1, 0x81, 0x40, 0x00, 0xC1, 0x81, 0x40, 0x01, 0xC0, 0x80, 0x41],
    [0x00, 0xC1, 0x81, 0x40, 0x01, 0xC0, 0x80, 0x41, 0x01, 0xC0, 0x80, 0x41, 0x00, 0xC1, 0x81, 0x40],
    [0x01, 0xC0, 0x80, 0x41, 0x00, 0xC1, 0x81, 0x40, 0x00, 0xC1, 0x81, 0x40, 0x01, 0xC0, 0x80, 0x41],
    [0x00, 0xC1, 0x81, 0x40, 0x01, 0xC0, 0x80, 0x41, 0x01, 0xC0, 0x80, 0x41, 0x00, 0xC1, 0x81, 0x40],
    [0x00, 0xC1, 0x81, 0x40, 0x01, 0xC0, 0x80, 0x41, 0x01, 0xC0, 0x80, 0x41, 0x00, 0xC1, 0x81, 0x40],
    [0x01, 0xC0, 0x80, 0x41, 0x00, 0xC1, 0x81, 0x40, 0x00, 0xC1, 0x81, 0x40, 0x01, 0xC0, 0x80, 0x41],
    [0x01, 0xC0, 0x80, 0x41, 0x00, 0xC1, 0x81, 0x40, 0x00, 0xC1, 0x81, 0x40, 0x01, 0xC0, 0x80, 0x41],
    [0x00, 0xC1, 0x81, 0x40, 0x01, 0xC0, 0x80, 0x41, 0x01, 0xC0, 0x80, 0x41, 0x00, 0xC1, 0x81, 0x40],
    [0x00, 0xC1, 0x81, 0x40, 0x01, 0xC0, 0x80, 0x41, 0x01, 0xC0, 0x80, 0x41, 0x00, 0xC1, 0x81, 0x40],
    [0x01, 0xC0, 0x80, 0x41, 0x00, 0xC1, 0x81, 0x40, 0x00, 0xC1, 0x81, 0x40, 0x01, 0xC0, 0x80, 0x41],
    [0x00, 0xC1, 0x81, 0x40, 0x01, 0xC0, 0x80, 0x41, 0x01, 0xC0, 0x80, 0x41, 0x00, 0xC1, 0x81, 0x40],
    [0x01, 0xC0, 0x80, 0x41, 0x00, 0xC1, 0x81, 0x40, 0x00, 0xC1, 0x81, 0x40, 0x01, 0xC0, 0x80, 0x41],
    [0x01, 0xC0, 0x80, 0x41, 0x00, 0xC1, 0x81, 0x40, 0x00, 0xC1, 0x81, 0x40, 0x01, 0xC0, 0x80, 0x41],
    [0x00, 0xC1, 0x81, 0x40, 0x01, 0xC0, 0x80, 0x41, 0x01, 0xC0, 0x80, 0x41, 0x00, 0xC1, 0x81, 0x40]
  ]

  /** The 256 entries of `crc_byte_lo`, sixteen to a row. */
  const CRC_BYTE_LO: seq<seq<byte>> := [
    [0x00, 0xC0, 0xC1, 0x01, 0xC3, 0x03, 0x02, 0xC2, 0xC6, 0x06, 0x07, 0xC7, 0x05, 0xC5, 0xC4, 0x04],
    [0xCC, 0x0C, 0x0D, 0xCD, 0x0F, 0xCF, 0xCE, 0x0E, 0x0A, 0xCA, 0xCB, 0x0B, 0xC9, 0x09, 0x08, 0xC8],
    [0xD8, 0x18, 0x19, 0xD9, 0x1B, 0xDB, 0xDA, 0x1A, 0x1E, 0xDE, 0xDF, 0x1F, 0xDD, 0x1D, 0x1C, 0xDC],
    [0x14, 0xD4, 0xD5, 0x15, 0xD7, 0x17, 0x16, 0xD6, 0xD2, 0x12, 0x13, 0xD3, 0x11, 0xD1, 0xD0, 0x10],
    [0xF0, 0x30, 0x31, 0xF1, 0x33, 0xF3, 0xF2, 0x32, 0x36, 0xF6, 0xF7, 0x37, 0xF5, 0x35, 0x34, 0xF4],
    [0x3C, 0xFC, 0xFD, 0x3D, 0xFF, 0x3F, 0x3E, 0xFE, 0xFA, 0x3A, 0x3B, 0xFB, 0x39, 0xF9, 0xF8, 0x38],
    [0x28, 0xE8, 0xE9, 0x29, 0xEB, 0x2B, 0x2A, 0xEA, 0xEE, 0x2E, 0x2F, 0xEF, 0x2D, 0xED, 0xEC, 0x2C],
    [0xE4, 0x24, 0x25, 0xE5, 0x27, 0xE7, 0xE6, 0x26, 0x22, 0xE2, 0xE3, 0x23, 0xE1, 0x21, 0x20, 0xE0],
    [0xA0, 0x60, 0x61, 0xA1, 0x63, 0xA3, 0xA2, 0x62, 0x66, 0xA6, 0xA7, 0x67, 0xA5, 0x65, 0x64, 0xA4],
    [0x6C, 0xAC, 0xAD, 0x6D, 0xAF, 0x6F, 0x6E, 0xAE, 0xAA, 0x6A, 0x6B, 0xAB, 0x69, 0xA9, 0xA8, 0x68],
    [0x78, 0xB8, 0xB9, 0x79, 0xBB, 0x7B, 0x7A, 0xBA, 0xBE, 0x7E, 0x7F, 0xBF, 0x7D, 0xBD, 0xBC, 0x7C],
    [0xB4, 0x74, 0x75, 0xB5, 0x77, 0xB7, 0xB6, 0x76, 0x72, 0xB2, 0xB3, 0x73, 0xB1, 0x71, 0x70, 0xB0],
    [0x50, 0x90, 0x91, 0x51, 0x93, 0x53, 0x52, 0x92, 0x96, 0x56, 0x57, 0x97, 0x55, 0x95, 0x94, 0x54],
    [0x9C, 0x5C, 0x5D, 0x9D, 0x5F, 0x9F, 0x9E, 0x5E, 0x5A, 0x9A, 0x9B, 0x5B, 0x99, 0x59, 0x58, 0x98],
    [0x88, 0x48, 0x49, 0x89, 0x4B, 0x8B, 0x8A, 0x4A, 0x4E, 0x8E, 0x8F, 0x4F, 0x8D, 0x4D, 0x4C, 0x8C],
    [0x44, 0x84, 0x85, 0x45, 0x87, 0x47, 0x46, 0x86, 0x82, 0x42, 0x43, 0x83, 0x41, 0x81, 0x80, 0x40]
  ]

  /** 1 exactly when `b` has an odd number of ones. */
  function Parity(b: byte): byte {
    var p := b ^ (b >> 4);
    var q := p ^ (p >> 2);
    (q ^ (q >> 1)) & 1
  }

  /** The two halves of `Shift8(b)`, in closed form. */
  function LowOfShift8(b: byte): byte {
    Parity(b) ^ (b << 6) ^ (b << 7)
  }

  function HighOfShift8(b: byte): byte {
    (Parity(b) << 7) ^ (Parity(b) << 6) ^ (b >> 1) ^ (b >> 2)
  }

  lemma ClosedForm(b: byte)
    ensures LowByte(Shift8(b as bv16)) == LowOfShift8(b)
    ensures HighByte(Shift8(b as bv16)) == HighOfShift8(b)
  {
  }

  ghost predicate HiRow(row: seq<byte>, r: byte) {
    |row| == 16
    && row[0] == LowOfShift8(r | 0) && row[1] == LowOfShift8(r | 1)
    && row[2] == LowOfShift8(r | 2) && row[3] == LowOfShift8(r | 3)
    && row[4] == LowOfShift8(r | 4) && row[5] == LowOfShift8(r | 5)
    && row[6] == LowOfShift8(r | 6) && row[7] == LowOfShift8(r | 7)
    && row[8] == LowOfShift8(r | 8) && row[9] == LowOfShift8(r | 9)
    && row[10] == LowOfShift8(r | 10) && row[11] == LowOfShift8(r | 11)
    && row[12] == LowOfShift8(r | 12) && row[13] == LowOfShift8(r | 13)
    && row[14] == LowOfShift8(r | 14) && row[15] == LowOfShift8(r | 15)
  }

  ghost predicate LoRow(row: seq<byte>, r: byte) {
    |row| == 16
    && row[0] == HighOfShift8(r | 0) && row[1] == HighOfShift8(r | 1)
    && row[2] == HighOfShift8(r | 2) && row[3] == HighOfShift8(r | 3)
    && row[4] == HighOfShift8(r | 4) && row[5] == HighOfShift8(r | 5)
    && row[6] == HighOfShift8(r | 6) && row[7] == HighOfShift8(r | 7)
    && row[8] == HighOfShift8(r | 8) && row[9] == HighOfShift8(r | 9)
    && row[10] == HighOfShift8(r | 10) && row[11] == HighOfShift8(r | 11)
    && row[12] == HighOfShift8(r | 12) && row[13] == HighOfShift8(r | 13)
    && row[14] == HighOfShift8(r | 14) && row[15] == HighOfShift8(r | 15)
  }

  lemma HiRows0()
    ensures |CRC_BYTE_HI| == 16 && HiRow(CRC_BYTE_HI[0], 0x00)
    ensures |CRC_BYTE_HI| == 16 && HiRow(CRC_BYTE_HI[1], 0x10)
    ensures |CRC_BYTE_HI| == 16 && HiRow(CRC_BYTE_HI[2], 0x20)
    ensures |CRC_BYTE_HI| == 16 && HiRow(CRC_BYTE_HI[3], 0x30)
  {
  }

  lemma HiRows1()
    ensures |CRC_BYTE_HI| == 16 && HiRow(CRC_BYTE_HI[4], 0x40)
    ensures |CRC_BYTE_HI| == 16 && HiRow(CRC_BYTE_HI[5], 0x50)
    ensures |CRC_BYTE_HI| == 16 && HiRow(CRC_BYTE_HI[6], 0x60)
    ensures |CRC_BYTE_HI| == 16 && HiRow(CRC_BYTE_HI[7], 0x70)
  {
  }

  lemma HiRows2()
    ensures |CRC_BYTE_HI| == 16 && HiRow(CRC_BYTE_HI[8], 0x80)
    ensures |CRC_BYTE_HI| == 16 && HiRow(CRC_BYTE_HI[9], 0x90)
    ensures |CRC_BYTE_HI| == 16 && HiRow(CRC_BYTE_HI[10], 0xA0)
    ensures |CRC_BYTE_HI| == 16 && HiRow(CRC_BYTE_HI[11], 0xB0)
  {
  }

  lemma HiRows3()
    ensures |CRC_BYTE_HI| == 16 && HiRow(CRC_BYTE_HI[12], 0xC0)
    ensures |CRC_BYTE_HI| == 16 && HiRow(CRC_BYTE_HI[13], 0xD0)
    ensures |CRC_BYTE_HI| == 16 && HiRow(CRC_BYTE_HI[14], 0xE0)
    ensures |CRC_BYTE_HI| == 16 && HiRow(CRC_BYTE_HI[15], 0xF0)
  {
  }

  lemma LoRows0()
    ensures |CRC_BYTE_LO| == 16 && LoRow(CRC_BYTE_LO[0], 0x00)
    ensures |CRC_BYTE_LO| == 16 && LoRow(CRC_BYTE_LO[1], 0x10)
    ensures |CRC_BYTE_LO| == 16 && LoRow(CRC_BYTE_LO[2], 0x20)
    ensures |CRC_BYTE_LO| == 16 && LoRow(CRC_BYTE_LO[3], 0x30)
  {
  }

  lemma LoRows1()
    ensures |CRC_BYTE_LO| == 16 && LoRow(CRC_BYTE_LO[4], 0x40)
    ensures |CRC_BYTE_LO| == 16 && LoRow(CRC_BYTE_LO[5], 0x50)
    ensures |CRC_BYTE_LO| == 16 && LoRow(CRC_BYTE_LO[6], 0x60)
    ensures |CRC_BYTE_LO| == 16 && LoRow(CRC_BYTE_LO[7], 0x70)
  {
  }

  lemma LoRows2()
    ensures |CRC_BYTE_LO| == 16 && LoRow(CRC_BYTE_LO[8], 0x80)
    ensures |CRC_BYTE_LO| == 16 && LoRow(CRC_BYTE_LO[9], 0x90)
    ensures |CRC_BYTE_LO| == 16 && LoRow(CRC_BYTE_LO[10], 0xA0)
    ensures |CRC_BYTE_LO| == 16 && LoRow(CRC_BYTE_LO[11], 0xB0)
  {
  }

  lemma LoRows3()
    ensures |CRC_BYTE_LO| == 16 && LoRow(CRC_BYTE_LO[12], 0xC0)
    ensures |CRC_BYTE_LO| == 16 && LoRow(CRC_BYTE_LO[13], 0xD0)
    ensures |CRC_BYTE_LO| == 16 && LoRow(CRC_BYTE_LO[14], 0xE0)
    ensures |CRC_BYTE_LO| == 16 && LoRow(CRC_BYTE_LO[15], 0xF0)
  {
  }

  lemma HiRowAt(row: seq<byte>, t: byte)
    requires HiRow(row, t & 0xF0)
    ensures row[(t & 0xF) as int] == LowOfShift8(t)
  {
  }

  lemma LoRowAt(row: seq<byte>, t: byte)
    requires LoRow(row, t & 0xF0)
    ensures row[(t & 0xF) as int] == HighOfShift8(t)
  {
  }

  lemma HiEntry0(t: byte)
    requires t < 0x40
    ensures |CRC_BYTE_HI| == 16 && |CRC_BYTE_HI[(t >> 4) as int]| == 16
    ensures CRC_BYTE_HI[(t >> 4) as int][(t & 0xF) as int] == LowOfShift8(t)
  {
    HiRows0();
    HiRowAt(CRC_BYTE_HI[(t >> 4) as int], t);
  }

  lemma HiEntry1(t: byte)
    requires 0x40 <= t < 0x80
    ensures |CRC_BYTE_HI| == 16 && |CRC_BYTE_HI[(t >> 4) as int]| == 16
    ensures CRC_BYTE_HI[(t >> 4) as int][(t & 0xF) as int] == LowOfShift8(t)
  {
    HiRows1();
    HiRowAt(CRC_BYTE_HI[(t >> 4) as int], t);
  }

  lemma HiEntry2(t: byte)
    requires 0x80 <= t < 0xC0
    ensures |CRC_BYTE_HI| == 16 && |CRC_BYTE_HI[(t >> 4) as int]| == 16
    ensures CRC_BYTE_HI[(t >> 4) as int][(t & 0xF) as int] == LowOfShift8(t)
  {
    HiRows2();
    HiRowAt(CRC_BYTE_HI[(t >> 4) as int], t);
  }

  lemma HiEntry3(t: byte)
    requires 0xC0 <= t
    ensures |CRC_BYTE_HI| == 16 && |CRC_BYTE_HI[(t >> 4) as int]| == 16
    ensures CRC_BYTE_HI[(t >> 4) as int][(t & 0xF) as int] == LowOfShift8(t)
  {
    HiRows3();
    HiRowAt(CRC_BYTE_HI[(t >> 4) as int], t);
  }

  lemma LoEntry0(t: byte)
    requires t < 0x40
    ensures |CRC_BYTE_LO| == 16 && |CRC_BYTE_LO[(t >> 4) as int]| == 16
    ensures CRC_BYTE_LO[(t >> 4) as int][(t & 0xF) as int] == HighOfShift8(t)
  {
    LoRows0();
    LoRowAt(CRC_BYTE_LO[(t >> 4) as int], t);
  }

  lemma LoEntry1(t: byte)
    requires 0x40 <= t < 0x80
    ensures |CRC_BYTE_LO| == 16 && |CRC_BYTE_LO[(t >> 4) as int]| == 16
    ensures CRC_BYTE_LO[(t >> 4) as int][(t & 0xF) as int] == HighOfShift8(t)
  {
    LoRows1();
    LoRowAt(CRC_BYTE_LO[(t >> 4) as int], t);
  }

  lemma LoEntry2(t: byte)
    requires 0x80 <= t < 0xC0
    ensures |CRC_BYTE_LO| == 16 && |CRC_BYTE_LO[(t >> 4) as int]| == 16
    ensures CRC_BYTE_LO[(t >> 4) as int][(t & 0xF) as int] == HighOfShift8(t)
  {
    LoRows2();
    LoRowAt(CRC_BYTE_LO[(t >> 4) as int], t);
  }

  lemma LoEntry3(t: byte)
    requires 0xC0 <= t
    ensures |CRC_BYTE_LO| == 16 && |CRC_BYTE_LO[(t >> 4) as int]| == 16
    ensures CRC_BYTE_LO[(t >> 4) as int][(t & 0xF) as int] == HighOfShift8(t)
  {
    LoRows3();
    LoRowAt(CRC_BYTE_LO[(t >> 4) as int], t);
  }

  /** `crc_byte_hi[t]` and `crc_byte_lo[t]` are the halves of the register after shifting `t` through it. */
  lemma TablesAreShift8(t: byte)
    ensures |CRC_BYTE_HI| == 16 && |CRC_BYTE_HI[(t >> 4) as int]| == 16
    ensures |CRC_BYTE_LO| == 16 && |CRC_BYTE_LO[(t >> 4) as int]| == 16
    ensures CRC_BYTE_HI[(t >> 4) as int][(t & 0xF) as int] == LowByte(Shift8(t as bv16))
    ensures CRC_BYTE_LO[(t >> 4) as int][(t & 0xF) as int] == HighByte(Shift8(t as bv16))
  {
    if t < 0x40 { HiEntry0(t); LoEntry0(t); }
    else if t < 0x80 { HiEntry1(t); LoEntry1(t); }
    else if t < 0xC0 { HiEntry2(t); LoEntry2(t); }
    else { HiEntry3(t); LoEntry3(t); }
    ClosedForm(t);
  }

  // ---------------------------------------------------------------- the table loop

  /** Eight shifts move the high half down beside what the low half leaves. */
  lemma Shift8OfHalves(high: byte, t: byte)
    ensures Shift8(Word(high, t)) == (high as bv16) ^ Shift8(t as bv16)
  {
  }

  lemma ByteGoesIntoLowHalf(high: byte, low: byte, b: byte)
    ensures Word(high, low) ^ (b as bv16) == Word(high, low ^ b)
  {
  }

  lemma FeedIsShift8(c: bv16, b: byte, x: bv16)
    requires x == c ^ (b as bv16)
    ensures Feed(c, b) == Shift8(x)
  {
  }

  lemma WordOfHalves(c: bv16, h: byte, x: bv16)
    requires x == (h as bv16) ^ c
    ensures Word(HighByte(c), h ^ LowByte(c)) == x
  {
  }

  /** One turn of the table loop is one message byte of the bit-by-bit register. */
  lemma TableTurn(high: byte, low: byte, b: byte, s: bv16)
    requires s == Shift8((low ^ b) as bv16)
    ensures Word(HighByte(s), high ^ LowByte(s)) == Feed(Word(high, low), b)
  {
    ByteGoesIntoLowHalf(high, low, b);
    FeedIsShift8(Word(high, low), b, Word(high, low ^ b));
    Shift8OfHalves(high, low ^ b);
    WordOfHalves(s, high, Shift8(Word(high, low ^ b)));
  }

  lemma CrcExtends(s: seq<byte>, i: nat)
    requires i < |s|
    ensures Crc(s[..i + 1]) == Feed(Crc(s[..i]), s[i])
  {
    assert s[..i + 1][..i] == s[..i];
  }

  /** `crc_byte_hi[t]` and `crc_byte_lo[t]`. */
  method LookUp(t: byte) returns (hi: byte, lo: byte)
    ensures hi == LowByte(Shift8(t as bv16)) && lo == HighByte(Shift8(t as bv16))
  {
    TablesAreShift8(t);
    hi := CRC_BYTE_HI[(t >> 4) as int][(t & 0xF) as int];
    lo := CRC_BYTE_LO[(t >> 4) as int][(t & 0xF) as int];
  }

  /** The body of the loop: two look-ups replace eight shifts. */
  method TableByte(high: byte, low: byte, b: byte) returns (high': byte, low': byte)
    ensures Word(high', low') == Feed(Word(high, low), b)
  {
    var tmp := low ^ b;
    var hi, lo := LookUp(tmp);
    TableTurn(high, low, b, Shift8(tmp as bv16));
    low' := high ^ hi;
    high' := lo;
  }

  /** The checksum of `len` bytes of `buf` starting at `from`. */
  method KitCheckCrc16(buf: array<byte>, from: nat, len: nat) returns (crc: bv16)
    requires from + len <= buf.Length
    ensures crc == Crc(buf[from..from + len])
  {
    var crcLow: byte, crcHigh: byte := 0xFF, 0xFF;
    ghost var s := buf[from..from + len];
    for i := 0 to len
      invariant Word(crcHigh, crcLow) == Crc(s[..i])
    {
      CrcExtends(s, i);
      crcHigh, crcLow := TableByte(crcHigh, crcLow, buf[from + i]);
    }
    assert s[..len] == s;
    crc := Word(crcHigh, crcLow);
  }

  lemma FeedsOfExample()
    ensures Feed(0xFFFF, 0x02) == 0x813E && Feed(0x813E, 0x07) == 0x1241
  {
  }

  /** The example of the guide: the checksum of the bytes 02 and 07 is 1241. */
  lemma ExampleOfGuide()
    ensures Crc([]) == 0xFFFF && Crc([0x02, 0x07]) == 0x1241
  {
    FeedsOfExample();
    CrcExtends([0x02, 0x07], 0);
    CrcExtends([0x02, 0x07], 1);
    assert [0x02, 0x07][..0] == [] && [0x02, 0x07][..2] == [0x02, 0x07];
  }

  // ---------------------------------------------------------------- the residue

  /** Fed with its own low and high byte, and only then, the register becomes zero. */
  lemma FeedOwnHalves(high: byte, low: byte, b0: byte, b1: byte)
    ensures Feed(Feed(Word(high, low), b0), b1) == 0 <==> b0 == low && b1 == high
  {
  }

  lemma FeedOwnCrc(c: bv16, b0: byte, b1: byte)
    ensures Feed(Feed(c, b0), b1) == 0 <==> b0 == LowByte(c) && b1 == HighByte(c)
  {
    assert Word(HighByte(c), LowByte(c)) == c;
    FeedOwnHalves(HighByte(c), LowByte(c), b0, b1);
  }

  /** A frame checks to zero exactly when it ends with the low and then the high byte of the checksum of
      what comes before. */
  lemma ResidueIsZero(s: seq<byte>)
    requires |s| >= 2
    ensures Crc(s) == 0 <==>
      var body := s[..|s| - 2]; s[|s| - 2] == LowByte(Crc(body)) && s[|s| - 1] == HighByte(Crc(body))
  {
    var n := |s| - 2;
    CrcExtends(s, n);
    CrcExtends(s, n + 1);
    assert s[..|s|] == s;
    FeedOwnCrc(Crc(s[..n]), s[n], s[n + 1]);
  }

  /** Little-endian write of the two low bytes of `value`, high byte first as in `kit_lt_write_buf`. */
  method KitLtWriteBuf2(buf: array<byte>, idx: nat, value: bv16)
    requires idx + 2 <= buf.Length
    modifies buf
    ensures buf[..] == old(buf[..])[idx := LowByte(value)][idx + 1 := HighByte(value)]
  {
    var len := 2;
    while len > 0
      invariant 0 <= len <= 2
      invariant forall k :: 0 <= k < buf.Length ==>
        buf[k] == if k == idx && len == 0 then LowByte(value)
                  else if k == idx + 1 && len <= 1 then HighByte(value) else old(buf[k])
    {
      len := len - 1;
      buf[idx + len] := ((value >> (8 * len)) & 0xFF) as byte;
    }
  }

  /** Appending the checksum makes the longer frame check to zero and touches nothing else. */
  method KitAppendCrc16(buf: array<byte>, len: nat)
    requires len + 2 <= buf.Length
    modifies buf
    ensures buf[..len] == old(buf[..len]) && buf[len + 2..] == old(buf[len + 2..])
    ensures buf[len] == LowByte(Crc(old(buf[..len]))) && buf[len + 1] == HighByte(Crc(old(buf[..len])))
    ensures Crc(buf[..len + 2]) == 0
  {
    var crc := KitCheckCrc16(buf, 0, len);
    KitLtWriteBuf2(buf, len, crc);
    assert buf[..len + 2][..len] == buf[..len];
    ResidueIsZero(buf[..len + 2]);
  }
}
