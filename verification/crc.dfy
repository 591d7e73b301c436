/** CRC-16 with the reflected polynomial 0xA001, taken from a table a byte at a time. */
module Crc {
  import opened Bytes

  function Xor(a: bv16, b: bv16): bv16
  {
    a ^ b
  }

  function Halve(c: bv16): bv16
  {
    c >> 1
  }

  /** One bit through the register, lowest bit first. */
  function Round(c: bv16): bv16
  {
    if c & 1 == 1 then (c >> 1) ^ 0xA001 else c >> 1
  }

  function FourRounds(c: bv16): bv16
  {
    Round(Round(Round(Round(c))))
  }

  function XorByte(c: bv16, b: bv8): bv16
  {
    c ^ (b as bv16)
  }

  /** One byte through the register, a bit at a time. */
  function ByteIn(c: bv16, b: bv8): bv16
  {
    FourRounds(FourRounds(XorByte(c, b)))
  }

  /** The definition: every bit of every byte in turn. */
  function Crc16(c: bv16, data: seq<bv8>): bv16
    decreases |data|
  {
    if data == [] then c else Crc16(ByteIn(c, data[0]), data[1..])
  }

  // ----- The table -----

  /** Which of the eight entries of a row. */
  function Pick(x: bv8, a: bv16, b: bv16, c: bv16, d: bv16, e: bv16, f: bv16, g: bv16, h: bv16): bv16
  {
    if x & 4 == 0 then (if x & 2 == 0 then (if x & 1 == 0 then a else b) else (if x & 1 == 0 then c else d))
    else (if x & 2 == 0 then (if x & 1 == 0 then e else f) else (if x & 1 == 0 then g else h))
  }

  /** crc16_table, in its 32 rows of eight. */
  function Table(x: bv8): bv16
  {
    if x & 0x80 == 0 then (if x & 0x40 == 0 then FirstQuarter(x) else SecondQuarter(x))
    else (if x & 0x40 == 0 then ThirdQuarter(x) else FourthQuarter(x))
  }

  function FirstQuarter(x: bv8): bv16
  {
    var row := (x >> 3) & 7;
    if row == 0 then Pick(x, 0x0000, 0xC0C1, 0xC181, 0x0140, 0xC301, 0x03C0, 0x0280, 0xC241)
    else if row == 1 then Pick(x, 0xC601, 0x06C0, 0x0780, 0xC741, 0x0500, 0xC5C1, 0xC481, 0x0440)
    else if row == 2 then Pick(x, 0xCC01, 0x0CC0, 0x0D80, 0xCD41, 0x0F00, 0xCFC1, 0xCE81, 0x0E40)
    else if row == 3 then Pick(x, 0x0A00, 0xCAC1, 0xCB81, 0x0B40, 0xC901, 0x09C0, 0x0880, 0xC841)
    else if row == 4 then Pick(x, 0xD801, 0x18C0, 0x1980, 0xD941, 0x1B00, 0xDBC1, 0xDA81, 0x1A40)
    else if row == 5 then Pick(x, 0x1E00, 0xDEC1, 0xDF81, 0x1F40, 0xDD01, 0x1DC0, 0x1C80, 0xDC41)
    else if row == 6 then Pick(x, 0x1400, 0xD4C1, 0xD581, 0x1540, 0xD701, 0x17C0, 0x1680, 0xD641)
    else Pick(x, 0xD201, 0x12C0, 0x1380, 0xD341, 0x1100, 0xD1C1, 0xD081, 0x1040)
  }

  function SecondQuarter(x: bv8): bv16
  {
    var row := (x >> 3) & 7;
    if row == 0 then Pick(x, 0xF001, 0x30C0, 0x3180, 0xF141, 0x3300, 0xF3C1, 0xF281, 0x3240)
    else if row == 1 then Pick(x, 0x3600, 0xF6C1, 0xF781, 0x3740, 0xF501, 0x35C0, 0x3480, 0xF441)
    else if row == 2 then Pick(x, 0x3C00, 0xFCC1, 0xFD81, 0x3D40, 0xFF01, 0x3FC0, 0x3E80, 0xFE41)
    else if row == 3 then Pick(x, 0xFA01, 0x3AC0, 0x3B80, 0xFB41, 0x3900, 0xF9C1, 0xF881, 0x3840)
    else if row == 4 then Pick(x, 0x2800, 0xE8C1, 0xE981, 0x2940, 0xEB01, 0x2BC0, 0x2A80, 0xEA41)
    else if row == 5 then Pick(x, 0xEE01, 0x2EC0, 0x2F80, 0xEF41, 0x2D00, 0xEDC1, 0xEC81, 0x2C40)
    else if row == 6 then Pick(x, 0xE401, 0x24C0, 0x2580, 0xE541, 0x2700, 0xE7C1, 0xE681, 0x2640)
    else Pick(x, 0x2200, 0xE2C1, 0xE381, 0x2340, 0xE101, 0x21C0, 0x2080, 0xE041)
  }

  function ThirdQuarter(x: bv8): bv16
  {
    var row := (x >> 3) & 7;
    if row == 0 then Pick(x, 0xA001, 0x60C0, 0x6180, 0xA141, 0x6300, 0xA3C1, 0xA281, 0x6240)
    else if row == 1 then Pick(x, 0x6600, 0xA6C1, 0xA781, 0x6740, 0xA501, 0x65C0, 0x6480, 0xA441)
    else if row == 2 then Pick(x, 0x6C00, 0xACC1, 0xAD81, 0x6D40, 0xAF01, 0x6FC0, 0x6E80, 0xAE41)
    else if row == 3 then Pick(x, 0xAA01, 0x6AC0, 0x6B80, 0xAB41, 0x6900, 0xA9C1, 0xA881, 0x6840)
    else if row == 4 then Pick(x, 0x7800, 0xB8C1, 0xB981, 0x7940, 0xBB01, 0x7BC0, 0x7A80, 0xBA41)
    else if row == 5 then Pick(x, 0xBE01, 0x7EC0, 0x7F80, 0xBF41, 0x7D00, 0xBDC1, 0xBC81, 0x7C40)
    else if row == 6 then Pick(x, 0xB401, 0x74C0, 0x7580, 0xB541, 0x7700, 0xB7C1, 0xB681, 0x7640)
    else Pick(x, 0x7200, 0xB2C1, 0xB381, 0x7340, 0xB101, 0x71C0, 0x7080, 0xB041)
  }

  function FourthQuarter(x: bv8): bv16
  {
    var row := (x >> 3) & 7;
    if row == 0 then Pick(x, 0x5000, 0x90C1, 0x9181, 0x5140, 0x9301, 0x53C0, 0x5280, 0x9241)
    else if row == 1 then Pick(x, 0x9601, 0x56C0, 0x5780, 0x9741, 0x5500, 0x95C1, 0x9481, 0x5440)
    else if row == 2 then Pick(x, 0x9C01, 0x5CC0, 0x5D80, 0x9D41, 0x5F00, 0x9FC1, 0x9E81, 0x5E40)
    else if row == 3 then Pick(x, 0x5A00, 0x9AC1, 0x9B81, 0x5B40, 0x9901, 0x59C0, 0x5880, 0x9841)
    else if row == 4 then Pick(x, 0x8801, 0x48C0, 0x4980, 0x8941, 0x4B00, 0x8BC1, 0x8A81, 0x4A40)
    else if row == 5 then Pick(x, 0x4E00, 0x8EC1, 0x8F81, 0x4F40, 0x8D01, 0x4DC0, 0x4C80, 0x8C41)
    else if row == 6 then Pick(x, 0x4400, 0x84C1, 0x8581, 0x4540, 0x8701, 0x47C0, 0x4680, 0x8641)
    else Pick(x, 0x8201, 0x42C0, 0x4380, 0x8341, 0x4100, 0x81C1, 0x8081, 0x4040)
  }

  lemma FirstQuarterEntries(x: bv8)
    requires x & 0x80 == 0 && x & 0x40 == 0
    ensures FirstQuarter(x) == ByteIn(0, x)
  {
  }

  lemma SecondQuarterEntries(x: bv8)
    requires x & 0x80 == 0 && x & 0x40 != 0
    ensures SecondQuarter(x) == ByteIn(0, x)
  {
  }

  lemma ThirdQuarterEntries(x: bv8)
    requires x & 0x80 != 0 && x & 0x40 == 0
    ensures ThirdQuarter(x) == ByteIn(0, x)
  {
  }

  lemma FourthQuarterEntries(x: bv8)
    requires x & 0x80 != 0 && x & 0x40 != 0
    ensures FourthQuarter(x) == ByteIn(0, x)
  {
  }

  /** Every entry is its index put through eight rounds. */
  lemma TableIsEightRounds(x: bv8)
    ensures Table(x) == ByteIn(0, x)
  {
    hide FirstQuarter, SecondQuarter, ThirdQuarter, FourthQuarter, ByteIn;
    if x & 0x80 == 0 {
      if x & 0x40 == 0 {
        FirstQuarterEntries(x);
      } else {
        SecondQuarterEntries(x);
      }
    } else {
      if x & 0x40 == 0 {
        ThirdQuarterEntries(x);
      } else {
        FourthQuarterEntries(x);
      }
    }
  }

  function Low(c: bv16): bv8
  {
    (c & 0xff) as bv8
  }

  function High(c: bv16): bv8
  {
    (c >> 8) as bv8
  }

  /** What the loop does with one byte. */
  function TableStep(c: bv16, b: bv8): bv16
  {
    Shifted(c, Table(Index(c, b)))
  }

  /** Which entry of the table: temp. */
  function Index(c: bv16, b: bv8): bv8
  {
    b ^ Low(c)
  }

  function Shifted(c: bv16, entry: bv16): bv16
  {
    (c >> 8) ^ entry
  }

  /** What a round exclusive-ors into the shifted register. */
  function Feedback(c: bv16): bv16
  {
    if c & 1 == 1 then 0xA001 else 0
  }

  lemma RoundInTwo(c: bv16)
    ensures Round(c) == Xor(Halve(c), Feedback(c))
  {
    XorZero(Halve(c));
    if c & 1 == 1 {
      OddRound(c);
    } else {
      EvenRound(c);
    }
    hide Xor, Halve, Round;
  }

  lemma OddRound(c: bv16)
    requires c & 1 == 1
    ensures Round(c) == Xor(Halve(c), 0xA001)
  {
  }

  lemma EvenRound(c: bv16)
    requires c & 1 != 1
    ensures Round(c) == Halve(c)
  {
  }

  lemma XorZero(a: bv16)
    ensures Xor(a, 0) == a
  {
  }

  lemma HalvesOfXor(a: bv16, b: bv16)
    ensures Halve(Xor(a, b)) == Xor(Halve(a), Halve(b))
  {
  }

  lemma FeedbackOfXor(a: bv16, b: bv16)
    ensures Feedback(Xor(a, b)) == Xor(Feedback(a), Feedback(b))
  {
    LowBitOfXor(a, b);
  }

  lemma LowBitOfXor(a: bv16, b: bv16)
    ensures Xor(a, b) & 1 == Xor(a & 1, b & 1) && a & 1 <= 1 && b & 1 <= 1
  {
  }

  lemma XorsRegroup(a: bv16, b: bv16, c: bv16, d: bv16)
    ensures Xor(Xor(a, b), Xor(c, d)) == Xor(Xor(a, c), Xor(b, d))
  {
    hide Xor;
    XorMoves(a, b, Xor(c, d));
    XorMoves(a, c, Xor(b, d));
    XorMoves(b, c, d);
    XorMoves(c, b, d);
    XorCommutes(b, c);
  }

  lemma XorMoves(a: bv16, b: bv16, c: bv16)
    ensures Xor(Xor(a, b), c) == Xor(a, Xor(b, c))
  {
  }

  lemma XorCommutes(a: bv16, b: bv16)
    ensures Xor(a, b) == Xor(b, a)
  {
  }

  /** Rounds act on the exclusive-or bit by bit. */
  lemma RoundOfXor(a: bv16, b: bv16)
    ensures Round(Xor(a, b)) == Xor(Round(a), Round(b))
  {
    hide Round, Xor, Halve, Feedback;
    RoundInTwo(a);
    RoundInTwo(b);
    RoundInTwo(Xor(a, b));
    HalvesOfXor(a, b);
    FeedbackOfXor(a, b);
    XorsRegroup(Halve(a), Feedback(a), Halve(b), Feedback(b));
  }

  lemma FourRoundsOfXor(a: bv16, b: bv16)
    ensures FourRounds(Xor(a, b)) == Xor(FourRounds(a), FourRounds(b))
  {
    hide Round, Xor;
    RoundOfXor(a, b);
    RoundOfXor(Round(a), Round(b));
    RoundOfXor(Round(Round(a)), Round(Round(b)));
    RoundOfXor(Round(Round(Round(a))), Round(Round(Round(b))));
  }

  lemma ZeroNibbleShifts(x: bv16)
    requires x & 0xf == 0
    ensures FourRounds(x) == x >> 4
  {
  }

  /** A high byte with nothing below it is only shifted down. */
  lemma HighByteOnly(x: bv16)
    ensures FourRounds(FourRounds(x & 0xff00)) == x >> 8
  {
    Nibbles(x);
    hide FourRounds;
    ZeroNibbleShifts(x & 0xff00);
    ZeroNibbleShifts((x & 0xff00) >> 4);
  }

  lemma Nibbles(x: bv16)
    ensures (x & 0xff00) & 0xf == 0 && ((x & 0xff00) >> 4) & 0xf == 0 && ((x & 0xff00) >> 4) >> 4 == x >> 8
  {
  }

  lemma BothBytes(x: bv16)
    ensures x == Xor(x & 0xff00, x & 0xff)
    ensures forall e: bv16 :: Xor(x >> 8, e) == Shifted(x, e)
  {
  }

  lemma RoundsShift(x: bv16)
    ensures FourRounds(FourRounds(x)) == Shifted(x, FourRounds(FourRounds(x & 0xff)))
  {
    BothBytes(x);
    HighByteOnly(x);
    hide FourRounds, Xor, Shifted;
    FourRoundsOfXor(x & 0xff00, x & 0xff);
    FourRoundsOfXor(FourRounds(x & 0xff00), FourRounds(x & 0xff));
  }

  lemma IndexIsLowByte(c: bv16, b: bv8)
    ensures XorByte(c, b) & 0xff == XorByte(0, Index(c, b))
    ensures forall e: bv16 :: Shifted(XorByte(c, b), e) == Shifted(c, e)
  {
    SameHighByte(c, b);
    hide XorByte, Index;
  }

  lemma SameHighByte(c: bv16, b: bv8)
    ensures XorByte(c, b) >> 8 == c >> 8
    ensures XorByte(c, b) & 0xff == XorByte(0, Index(c, b))
  {
  }

  lemma HighByteShiftsOut(c: bv16, b: bv8)
    ensures ByteIn(c, b) == Shifted(c, ByteIn(0, Index(c, b)))
  {
    RoundsShift(XorByte(c, b));
    IndexIsLowByte(c, b);
    hide FourRounds, XorByte, Index, Shifted;
  }

  lemma TableStepIsByteIn(c: bv16, b: bv8)
    ensures TableStep(c, b) == ByteIn(c, b)
  {
    hide Table, ByteIn, Index, Shifted;
    TableIsEightRounds(Index(c, b));
    HighByteShiftsOut(c, b);
  }

  // ----- What the definition detects -----

  /** The high byte after a byte is that of its entry of the table alone. */
  lemma HighByteOfEntry(c: bv16, b: bv8)
    ensures High(ByteIn(c, b)) == High(ByteIn(0, Index(c, b)))
  {
    HighByteShiftsOut(c, b);
    HighByteStays(c, ByteIn(0, Index(c, b)));
    hide ByteIn, High, Shifted, Index;
  }

  lemma HighByteStays(c: bv16, entry: bv16)
    ensures High(Shifted(c, entry)) == High(entry)
  {
  }

  lemma RoundIsInjective(a: bv16, b: bv16)
    requires Round(a) == Round(b)
    ensures a == b
  {
  }

  lemma FourRoundsAreInjective(a: bv16, b: bv16)
    requires FourRounds(a) == FourRounds(b)
    ensures a == b
  {
    hide Round;
    RoundIsInjective(Round(Round(Round(a))), Round(Round(Round(b))));
    RoundIsInjective(Round(Round(a)), Round(Round(b)));
    RoundIsInjective(Round(a), Round(b));
    RoundIsInjective(a, b);
  }

  lemma EightRoundsAreInjective(a: bv16, b: bv16)
    requires FourRounds(FourRounds(a)) == FourRounds(FourRounds(b))
    ensures a == b
  {
    hide FourRounds;
    FourRoundsAreInjective(FourRounds(a), FourRounds(b));
    FourRoundsAreInjective(a, b);
  }

  /** With the same byte, different registers stay different; with the same register, different bytes part them. */
  lemma ByteInIsInjective(c: bv16, d: bv16, x: bv8, y: bv8)
    requires ByteIn(c, x) == ByteIn(d, y)
    ensures x == y <==> c == d
  {
    hide FourRounds, XorByte;
    EightRoundsAreInjective(XorByte(c, x), XorByte(d, y));
    XorCancels(c, d, x, y);
  }

  lemma XorUndone(c: bv16, x: bv8)
    ensures XorByte(XorByte(c, x), x) == c && Index(XorByte(c, x), Low(c)) == x
  {
  }

  lemma XorCancels(c: bv16, d: bv16, x: bv8, y: bv8)
    requires XorByte(c, x) == XorByte(d, y)
    ensures x == y <==> c == d
  {
    hide *;
    XorUndone(c, x);
    XorUndone(d, y);
  }

  /** After two bytes the register determines both of them. */
  lemma TwoBytesAreInjective(c: bv16, x0: bv8, x1: bv8, y0: bv8, y1: bv8)
    requires ByteIn(ByteIn(c, x0), x1) == ByteIn(ByteIn(c, y0), y1)
    ensures x0 == y0 && x1 == y1
  {
    hide FourRounds, XorByte;
    EightRoundsAreInjective(XorByte(ByteIn(c, x0), x1), XorByte(ByteIn(c, y0), y1));
    HighBytesTell(c, x0, y0, x1, y1);
    ByteInIsInjective(ByteIn(c, x0), ByteIn(c, y0), x1, y1);
  }

  lemma HighPart(c: bv16, s: bv16, t: bv16, x: bv8, y: bv8)
    requires XorByte(Shifted(c, s), x) == XorByte(Shifted(c, t), y)
    ensures s >> 8 == t >> 8
  {
  }

  lemma SameIndex(c: bv16, x: bv8, y: bv8)
    requires Index(c, x) == Index(c, y)
    ensures x == y
  {
  }

  /** Different bytes leave different high bytes behind, which the low-byte exclusive-or of the next cannot undo. */
  lemma HighBytesTell(c: bv16, x0: bv8, y0: bv8, x1: bv8, y1: bv8)
    requires XorByte(ByteIn(c, x0), x1) == XorByte(ByteIn(c, y0), y1)
    ensures x0 == y0
  {
    hide *;
    HighByteShiftsOut(c, x0);
    HighByteShiftsOut(c, y0);
    HighPart(c, ByteIn(0, Index(c, x0)), ByteIn(0, Index(c, y0)), x1, y1);
    TableHighBytes(Index(c, x0), Index(c, y0));
    SameIndex(c, x0, y0);
  }

  lemma TableHighBytes(x: bv8, y: bv8)
    requires ByteIn(0, x) >> 8 == ByteIn(0, y) >> 8
    ensures x == y
  {
  }

  lemma {:induction false} Crc16Append(c: bv16, a: seq<bv8>, b: seq<bv8>)
    ensures Crc16(c, a + b) == Crc16(Crc16(c, a), b)
    decreases |a|
  {
    hide ByteIn;
    if a == [] {
      assert a + b == b;
    } else {
      assert (a + b)[1..] == a[1..] + b;
      Crc16Append(ByteIn(c, a[0]), a[1..], b);
    }
  }

  lemma {:induction false} RegistersStayApart(c: bv16, d: bv16, data: seq<bv8>)
    requires c != d
    ensures Crc16(c, data) != Crc16(d, data)
    decreases |data|
  {
    hide ByteIn;
    if data != [] {
      if ByteIn(c, data[0]) == ByteIn(d, data[0]) {
        ByteInIsInjective(c, d, data[0], data[0]);
      }
      RegistersStayApart(ByteIn(c, data[0]), ByteIn(d, data[0]), data[1..]);
    }
  }

  lemma CrcOfOne(c: bv16, x: seq<bv8>)
    requires |x| == 1
    ensures Crc16(c, x) == ByteIn(c, x[0])
  {
    hide ByteIn;
    assert x[1..] == [];
  }

  lemma CrcOfTwo(c: bv16, x: seq<bv8>)
    requires |x| == 2
    ensures Crc16(c, x) == ByteIn(ByteIn(c, x[0]), x[1])
  {
    hide ByteIn;
    CrcOfOne(ByteIn(c, x[0]), x[1..]);
  }

  lemma CrcOfThree(c: bv16, x: seq<bv8>)
    requires |x| == 3
    ensures Crc16(c, x) == ByteIn(ByteIn(ByteIn(c, x[0]), x[1]), x[2])
  {
    hide ByteIn;
    CrcOfTwo(ByteIn(c, x[0]), x[1..]);
  }

  /** The check value of CRC-16/MODBUS: that of the digits 1 to 9. */
  lemma CheckValue()
    ensures Crc16(0xFFFF, [0x31, 0x32, 0x33, 0x34, 0x35, 0x36, 0x37, 0x38, 0x39]) == 0x4B37
  {
    assert ByteIn(0xFFFF, 0x31) == 0x947E && ByteIn(0x947E, 0x32) == 0xF595 && ByteIn(0xF595, 0x33) == 0x7A75;
    assert ByteIn(0x7A75, 0x34) == 0x30BA && ByteIn(0x30BA, 0x35) == 0xA471 && ByteIn(0xA471, 0x36) == 0x32E4;
    assert ByteIn(0x32E4, 0x37) == 0x9D73 && ByteIn(0x9D73, 0x38) == 0x37DD && ByteIn(0x37DD, 0x39) == 0x4B37;
    hide ByteIn;
    CrcOfThree(0xFFFF, [0x31, 0x32, 0x33]);
    CrcOfThree(0x7A75, [0x34, 0x35, 0x36]);
    CrcOfThree(0x32E4, [0x37, 0x38, 0x39]);
    Crc16Append(0xFFFF, [0x31, 0x32, 0x33], [0x34, 0x35, 0x36]);
    Crc16Append(0xFFFF, [0x31, 0x32, 0x33] + [0x34, 0x35, 0x36], [0x37, 0x38, 0x39]);
    assert [0x31, 0x32, 0x33, 0x34, 0x35, 0x36, 0x37, 0x38, 0x39]
        == [0x31 as bv8, 0x32, 0x33] + [0x34, 0x35, 0x36] + [0x37, 0x38, 0x39];
  }

  lemma ShortBurst(c: bv16, x: seq<bv8>, y: seq<bv8>)
    requires |x| == |y| <= 2 && x != y
    ensures Crc16(c, x) != Crc16(c, y)
  {
    hide ByteIn, Crc16;
    if Crc16(c, x) == Crc16(c, y) {
      if |x| == 1 {
        CrcOfOne(c, x);
        CrcOfOne(c, y);
        ByteInIsInjective(c, c, x[0], y[0]);
      } else if |x| == 2 {
        CrcOfTwo(c, x);
        CrcOfTwo(c, y);
        TwoBytesAreInjective(c, x[0], x[1], y[0], y[1]);
      }
    }
  }

  /** A change confined to two adjacent bytes, anywhere in data of any length, changes the result. */
  lemma BurstChangesCrc(c: bv16, before: seq<bv8>, x: seq<bv8>, y: seq<bv8>, behind: seq<bv8>)
    requires |x| == |y| <= 2 && x != y
    ensures Crc16(c, before + x + behind) != Crc16(c, before + y + behind)
  {
    var d := Crc16(c, before);
    Crc16Append(c, before + x, behind);
    Crc16Append(c, before, x);
    Crc16Append(c, before + y, behind);
    Crc16Append(c, before, y);
    ShortBurst(d, x, y);
    RegistersStayApart(Crc16(d, x), Crc16(d, y), behind);
    hide Crc16;
  }

  lemma OwnIndex(c: bv16)
    ensures Index(c, Low(c)) == 0 && Index(Shifted(c, 0), High(c)) == 0
    ensures Shifted(Shifted(c, 0), 0) == 0 && ByteIn(0, 0) == 0
  {
  }

  lemma OwnBytesGiveZero(c: bv16)
    ensures ByteIn(ByteIn(c, Low(c)), High(c)) == 0
  {
    hide *;
    OwnIndex(c);
    HighByteShiftsOut(c, Low(c));
    HighByteShiftsOut(Shifted(c, 0), High(c));
  }

  /** Two bytes after the data leave the register at zero exactly when they are its CRC, low byte first. */
  lemma ResidueIsZero(c: bv16, data: seq<bv8>, lo: bv8, hi: bv8)
    ensures Crc16(c, data + [lo, hi]) == 0 <==> lo == Low(Crc16(c, data)) && hi == High(Crc16(c, data))
  {
    var d := Crc16(c, data);
    Crc16Append(c, data, [lo, hi]);
    CrcOfTwo(d, [lo, hi]);
    OwnBytesGiveZero(d);
    hide ByteIn, Low, High, Crc16;
    if ByteIn(ByteIn(d, lo), hi) == 0 {
      TwoBytesAreInjective(d, lo, hi, Low(d), High(d));
    }
  }

  // ----- The code -----

  function Join(b0: bool, b1: bool, b2: bool, b3: bool): bv8
  {
    (if b0 then 0x1 else 0) | (if b1 then 0x2 else 0) | (if b2 then 0x4 else 0) | (if b3 then 0x8 else 0)
  }

  function JoinNibbles(lo: bv8, hi: bv8): bv8
  {
    lo | (hi << 4)
  }

  function Digit(b: bool): int
  {
    if b then 1 else 0
  }

  function Weigh(b0: bool, b1: bool, b2: bool, b3: bool): (n: int)
    ensures 0 <= n < 16
  {
    Digit(b0) + 2 * Digit(b1) + 4 * Digit(b2) + 8 * Digit(b3)
  }

  /** The binary digits of a number below 16. */
  function NibbleBits(n: int): bv8
  {
    Join(n % 2 == 1, n / 2 % 2 == 1, n / 4 % 2 == 1, n / 8 % 2 == 1)
  }

  function ToBits(b: Byte): bv8
  {
    JoinNibbles(NibbleBits(b as int % 16), NibbleBits(b as int / 16))
  }

  predicate Bit(v: bv8, mask: bv8)
  {
    v & mask != 0
  }

  /** The number a byte's bits make. */
  function FromBits(v: bv8): Byte
  {
    Weigh(Bit(v, 0x01), Bit(v, 0x02), Bit(v, 0x04), Bit(v, 0x08))
    + 16 * Weigh(Bit(v, 0x10), Bit(v, 0x20), Bit(v, 0x40), Bit(v, 0x80))
  }

  lemma WeighDigits(n: int)
    requires 0 <= n < 16
    ensures Weigh(n % 2 == 1, n / 2 % 2 == 1, n / 4 % 2 == 1, n / 8 % 2 == 1) == n
  {
  }

  lemma DigitsOfWeight(b0: bool, b1: bool, b2: bool, b3: bool)
    ensures NibbleBits(Weigh(b0, b1, b2, b3)) == Join(b0, b1, b2, b3)
  {
    hide Join;
  }

  lemma JoinedDigits(b0: bool, b1: bool, b2: bool, b3: bool, b4: bool, b5: bool, b6: bool, b7: bool)
    ensures var v := JoinNibbles(Join(b0, b1, b2, b3), Join(b4, b5, b6, b7));
            && Bit(v, 0x01) == b0 && Bit(v, 0x02) == b1 && Bit(v, 0x04) == b2 && Bit(v, 0x08) == b3
            && Bit(v, 0x10) == b4 && Bit(v, 0x20) == b5 && Bit(v, 0x40) == b6 && Bit(v, 0x80) == b7
  {
  }

  lemma SplitJoined(v: bv8)
    ensures v == JoinNibbles(Join(Bit(v, 0x01), Bit(v, 0x02), Bit(v, 0x04), Bit(v, 0x08)),
                             Join(Bit(v, 0x10), Bit(v, 0x20), Bit(v, 0x40), Bit(v, 0x80)))
  {
  }

  lemma BitsRoundTrip(b: Byte)
    ensures FromBits(ToBits(b)) == b
  {
    hide Join, JoinNibbles, Bit, Weigh, Digit;
    var lo, hi := b as int % 16, b as int / 16;
    WeighDigits(lo);
    WeighDigits(hi);
    JoinedDigits(lo % 2 == 1, lo / 2 % 2 == 1, lo / 4 % 2 == 1, lo / 8 % 2 == 1,
                 hi % 2 == 1, hi / 2 % 2 == 1, hi / 4 % 2 == 1, hi / 8 % 2 == 1);
  }

  lemma NumberRoundTrip(v: bv8)
    ensures ToBits(FromBits(v)) == v
  {
    SplitJoined(v);
    hide Join, JoinNibbles, Bit, NibbleBits, Weigh;
    DigitsOfWeight(Bit(v, 0x01), Bit(v, 0x02), Bit(v, 0x04), Bit(v, 0x08));
    DigitsOfWeight(Bit(v, 0x10), Bit(v, 0x20), Bit(v, 0x40), Bit(v, 0x80));
  }

  function Bits(s: seq<Byte>): (t: seq<bv8>)
    ensures |t| == |s| && forall i | 0 <= i < |s| :: t[i] == ToBits(s[i])
  {
    seq(|s|, i requires 0 <= i < |s| => ToBits(s[i]))
  }

  /** crc16_initial. */
  method Crc16Initial(initial: bv16, data: array<Byte>, length: nat) returns (crc: bv16)
    requires length <= data.Length && length < 0x1_0000
    ensures crc == Crc16(initial, Bits(data[..length]))
  {
    hide TableStep, ByteIn;
    crc := initial;
    var left, next := length, 0;
    ghost var all := Bits(data[..length]);
    assert all[0..] == all;
    while left > 0
      invariant next + left == length
      invariant Crc16(crc, all[next..]) == Crc16(initial, all)
    {
      TableStepIsByteIn(crc, ToBits(data[next]));
      assert all[next..][0] == ToBits(data[next]) && all[next..][1..] == all[next + 1..];
      crc := TableStep(crc, ToBits(data[next]));
      next := next + 1;
      left := left - 1;
    }
  }

  // ----- The result as a number -----

  function HalfOf(c: bv16): Half
  {
    var lo: int, hi: int := FromBits(Low(c)), FromBits(High(c));
    lo + 0x100 * hi
  }

  lemma HalvesOf(c: bv16, d: bv16)
    ensures StoreHalf(HalfOf(c)) == [FromBits(Low(c)), FromBits(High(c))]
    ensures HalfOf(c) == HalfOf(d) ==> c == d
  {
    hide Low, High, ToBits, FromBits;
    NumberRoundTrip(Low(c));
    NumberRoundTrip(Low(d));
    NumberRoundTrip(High(c));
    NumberRoundTrip(High(d));
    LowAndHigh(c, d);
    Peel(FromBits(Low(c)), FromBits(High(c)));
    Peel(FromBits(Low(d)), FromBits(High(d)));
  }

  lemma LowAndHigh(c: bv16, d: bv16)
    ensures Low(c) == Low(d) && High(c) == High(d) ==> c == d
  {
  }

  /** crc16: the check value of some bytes, as the half-word a frame carries. */
  ghost function CrcOf(data: seq<Byte>): Half
  {
    HalfOf(Crc16(0xFFFF, Bits(data)))
  }

  lemma DifferentBits(x: seq<Byte>, y: seq<Byte>)
    requires |x| == |y| && Bits(x) == Bits(y)
    ensures x == y
  {
    hide ToBits, FromBits;
    forall i | 0 <= i < |x| ensures x[i] == y[i] {
      BitsRoundTrip(x[i]);
      BitsRoundTrip(y[i]);
      assert ToBits(x[i]) == Bits(x)[i] == Bits(y)[i] == ToBits(y[i]);
    }
  }

  lemma BitsAppend(a: seq<Byte>, b: seq<Byte>)
    ensures Bits(a + b) == Bits(a) + Bits(b)
  {
    hide ToBits;
  }

  lemma BurstChangesCrcOf(before: seq<Byte>, x: seq<Byte>, y: seq<Byte>, behind: seq<Byte>)
    requires |x| == |y| <= 2 && x != y
    ensures CrcOf(before + x + behind) != CrcOf(before + y + behind)
  {
    BitsAppend(before + x, behind);
    BitsAppend(before, x);
    BitsAppend(before + y, behind);
    BitsAppend(before, y);
    hide Bits, Crc16, HalfOf;
    if Bits(x) == Bits(y) {
      DifferentBits(x, y);
    }
    BurstChangesCrc(0xFFFF, Bits(before), Bits(x), Bits(y), Bits(behind));
    HalvesOf(Crc16(0xFFFF, Bits(before) + Bits(x) + Bits(behind)),
             Crc16(0xFFFF, Bits(before) + Bits(y) + Bits(behind)));
  }
}
