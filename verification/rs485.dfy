/** Modbus RTU: the master's requests for functions 1 to 6, the slave that answers them, and the master's check of
    what comes back. */
module Rs485 {
  import opened Bytes
  import opened Memory
  import opened Crc

  const READ_COILS: Byte := 1
  const READ_DISCRETE_INPUTS: Byte := 2
  const READ_HOLDING_REGISTERS: Byte := 3
  const READ_INPUT_REGISTERS: Byte := 4
  const WRITE_SINGLE_COIL: Byte := 5
  const WRITE_SINGLE_REGISTER: Byte := 6

  const BUFFER_SIZE := 257                       // one ADU and a byte that tells an overflow
  const REQUEST_SIZE := 8
  const START_ADDRESS := 0x4000
  const REGISTER_COUNT := 8

  /** Functions whose frames carry register or coil values; they are not part of this model. */
  predicate CarriesData(fc: Byte)
  {
    fc == 15 || fc == 16 || fc == 23
  }

  predicate Unimplemented(fc: Byte)
  {
    || fc == 7 || fc == 8 || fc == 11 || fc == 12 || fc == 17
    || fc == 20 || fc == 21 || fc == 22 || fc == 24 || fc == 43
  }

  datatype Status =
    | Success
    | SuccessWithErrorCode
    | InvalidSlaveAddress
    | InvalidNumber(fc: Byte)
    | InvalidSingleCoilState
    | UnimplementedFunction
    | UnexpectedFunction
    | TimeoutOrNotResponding
    | InvalidReceiveSlaveAddress
    | UnexpectedReceiveFunction
    | UnexpectedErrorCode(fc: Byte)
    | UnexpectedResponseFunction(fc: Byte)
    | InvalidDataSizeOrDiscrete(fc: Byte)
    | InvalidCrc(fc: Byte)
    | InvalidExceptionCrc(fc: Byte)
    | WriteDiscreteAddressMismatch

  datatype SlaveStatus =
    | SlaveOk
    | DoesNotMatch
    | FunctionNotSupported
    | QuantityOutOfBounds
    | MemoryOutOfBounds
    | CopyTimeout
    | InvalidCrc16

  // ----- Frames -----

  /** The bytes followed by their CRC, low byte first. */
  ghost function WithCrc(s: seq<Byte>): (t: seq<Byte>)
    ensures |t| == |s| + 2
  {
    s + StoreHalf(CrcOf(s))
  }

  /** The two bytes behind the first `n` are the CRC of those. */
  ghost predicate CrcOk(frame: seq<Byte>, n: nat)
    requires n + 2 <= |frame|
  {
    LoadHalf(frame[n..n + 2]) == CrcOf(frame[..n])
  }

  lemma BuiltWithCrc(s: seq<Byte>, frame: seq<Byte>)
    requires |s| + 2 <= |frame| && frame[..|s| + 2] == WithCrc(s)
    ensures CrcOk(frame, |s|) && frame[..|s|] == s
  {
    hide LoadHalf, StoreHalf, CrcOf;
    var t := frame[..|s| + 2];
    assert frame[|s|..|s| + 2] == t[|s|..] == StoreHalf(CrcOf(s));
    assert frame[..|s|] == t[..|s|] == s;
    LoadAfterStoreHalf(CrcOf(s));
  }

  lemma {:induction false} BitsOfPair(s: seq<Byte>, lo: Byte, hi: Byte)
    ensures Bits(s + [lo, hi]) == Bits(s) + [ToBits(lo), ToBits(hi)]
  {
    hide ToBits;
  }

  lemma HalfOfPair(c: bv16, lo: Byte, hi: Byte)
    ensures LoadHalf([lo, hi]) == HalfOf(c) <==> ToBits(lo) == Low(c) && ToBits(hi) == High(c)
  {
    hide ToBits, FromBits, Low, High;
    HalvesOf(c, c);
    BitsRoundTrip(lo);
    BitsRoundTrip(hi);
    NumberRoundTrip(Low(c));
    NumberRoundTrip(High(c));
    PairIsHalf(lo, hi, HalfOf(c));
  }

  lemma PairIsHalf(lo: Byte, hi: Byte, x: Half)
    ensures LoadHalf([lo, hi]) == x <==> [lo, hi] == StoreHalf(x)
  {
    LoadAfterStoreHalf(x);
  }

  /** A frame's CRC is right exactly when the CRC over all of it, its own two bytes included, is zero. */
  lemma CrcOkIffResidueZero(frame: seq<Byte>, n: nat)
    requires n + 2 <= |frame|
    ensures CrcOk(frame, n) <==> Crc16(0xFFFF, Bits(frame[..n + 2])) == 0
  {
    var s, lo, hi := frame[..n], frame[n], frame[n + 1];
    hide Bits, Crc16, ToBits, Low, High, LoadHalf, HalfOf;
    assert frame[..n + 2] == s + [lo, hi];
    assert frame[n..n + 2] == [lo, hi];
    BitsOfPair(s, lo, hi);
    HalfOfPair(Crc16(0xFFFF, Bits(s)), lo, hi);
    ResidueIsZero(0xFFFF, Bits(s), ToBits(lo), ToBits(hi));
  }

  /** A frame with a right CRC, changed in at most two adjacent bytes, the CRC itself included, no longer has one. */
  lemma DamageShows(before: seq<Byte>, x: seq<Byte>, y: seq<Byte>, behind: seq<Byte>, n: nat)
    requires |x| == |y| <= 2 && x != y && |before + x + behind| == n + 2
    requires CrcOk(before + x + behind, n)
    ensures !CrcOk(before + y + behind, n)
  {
    hide CrcOk, Crc16, Bits;
    var good, bad := before + x + behind, before + y + behind;
    assert good[..n + 2] == good && bad[..n + 2] == bad;
    CrcOkIffResidueZero(good, n);
    CrcOkIffResidueZero(bad, n);
    BitsInParts(before, x, behind);
    BitsInParts(before, y, behind);
    if Bits(x) == Bits(y) {
      DifferentBits(x, y);
    }
    BurstChangesCrc(0xFFFF, Bits(before), Bits(x), Bits(y), Bits(behind));
  }

  lemma BitsInParts(a: seq<Byte>, b: seq<Byte>, c: seq<Byte>)
    ensures Bits(a + b + c) == Bits(a) + Bits(b) + Bits(c)
  {
    hide Bits;
    BitsAppend(a + b, c);
    BitsAppend(a, b);
  }

  // ----- Requests -----

  /** What the quantity field says. For coils and discrete inputs it is a count of bytes. */
  function Quantity(fc: Byte, n: Half): Half
  {
    if fc == READ_COILS || fc == READ_DISCRETE_INPUTS then n / 8 + (if n % 8 != 0 then 1 else 0) else n
  }

  /** Eight coils are asked for as one. */
  lemma EightCoilsAskedAsOne()
    ensures RequestStatus(1, READ_COILS, 8) == Success && Quantity(READ_COILS, 8) == 1
  {
  }

  /** The field holds what was asked for exactly where it is not a count of bits, or for a single one. */
  lemma QuantityIffNotBits(slave: Byte, fc: Byte, n: Half)
    requires 1 <= fc <= 6 && RequestStatus(slave, fc, n) == Success
    ensures Quantity(fc, n) == n <==> (fc != READ_COILS && fc != READ_DISCRETE_INPUTS) || n == 1
  {
  }

  function RequestStatus(slave: Byte, fc: Byte, n: Half): Status
    requires !CarriesData(fc)
  {
    if slave > 247 then InvalidSlaveAddress
    else if fc == READ_COILS || fc == READ_DISCRETE_INPUTS then
      if n < 1 || n > 2000 then InvalidNumber(fc) else Success
    else if fc == READ_HOLDING_REGISTERS || fc == READ_INPUT_REGISTERS then
      if n < 1 || n > 125 then InvalidNumber(fc) else Success
    else if fc == WRITE_SINGLE_COIL then
      if n == 0x0000 || n == 0xFF00 then Success else InvalidSingleCoilState
    else if fc == WRITE_SINGLE_REGISTER then Success
    else if Unimplemented(fc) then UnimplementedFunction
    else UnexpectedFunction
  }

  /** Which requests are accepted. */
  lemma AcceptedIff(slave: Byte, fc: Byte, n: Half)
    requires !CarriesData(fc)
    ensures RequestStatus(slave, fc, n) == Success <==>
              && slave <= 247
              && (|| ((fc == 1 || fc == 2) && 1 <= n <= 2000)
                  || ((fc == 3 || fc == 4) && 1 <= n <= 125)
                  || (fc == 5 && (n == 0x0000 || n == 0xFF00))
                  || fc == 6)
  {
  }

  /** What the others are told. */
  lemma RefusedAs(slave: Byte, fc: Byte, n: Half)
    requires !CarriesData(fc)
    ensures slave > 247 ==> RequestStatus(slave, fc, n) == InvalidSlaveAddress
    ensures slave <= 247 && (fc == 1 || fc == 2) && !(1 <= n <= 2000) ==>
              RequestStatus(slave, fc, n) == InvalidNumber(fc)
    ensures slave <= 247 && (fc == 3 || fc == 4) && !(1 <= n <= 125) ==>
              RequestStatus(slave, fc, n) == InvalidNumber(fc)
    ensures slave <= 247 && fc == 5 && n != 0x0000 && n != 0xFF00 ==>
              RequestStatus(slave, fc, n) == InvalidSingleCoilState
    ensures slave <= 247 && (fc == 0 || fc > 6) ==>
              RequestStatus(slave, fc, n)
              == if fc in {7, 8, 11, 12, 17, 20, 21, 22, 24, 43} then UnimplementedFunction else UnexpectedFunction
  {
  }

  ghost function Request(slave: Byte, fc: Byte, memAddress: Half, n: Half): (s: seq<Byte>)
    ensures |s| == REQUEST_SIZE
  {
    WithCrc([slave, fc] + StoreBig(memAddress) + StoreBig(Quantity(fc, n)))
  }

  /** The bytes of a request: address and quantity with the high byte first, then the CRC. */
  lemma RequestBytes(slave: Byte, fc: Byte, memAddress: Half, n: Half)
    ensures var s, q: int := Request(slave, fc, memAddress, n), if fc == 1 || fc == 2 then (n + 7) / 8 else n;
            && s[0] == slave && s[1] == fc && s[2] == memAddress / 0x100 && s[3] == memAddress % 0x100
            && s[4] == q / 0x100 && s[5] == q % 0x100 && CrcOk(s, 6)
  {
    hide CrcOf, CrcOk, WithCrc;
    var s := Request(slave, fc, memAddress, n);
    var body := [slave, fc] + StoreBig(memAddress) + StoreBig(Quantity(fc, n));
    assert s[..8] == s;
    BuiltWithCrc(body, s);
    assert forall i | 0 <= i < 6 :: s[i] == s[..6][i];
  }

  // ----- The slave's answer -----

  datatype Answer = Answer(status: SlaveStatus, bytes: seq<Byte>)

  ghost function ExceptionFrame(slave: Byte, fc: Byte, code: Byte): seq<Byte>
  {
    WithCrc([slave, (0x80 + fc as int) % 0x100, code])
  }

  ghost function RegistersFrame(slave: Byte, rs: seq<Half>): seq<Byte>
    requires |rs| <= REGISTER_COUNT
  {
    WithCrc([slave, READ_HOLDING_REGISTERS, 2 * |rs|] + Big(rs))
  }

  /** What a slave says to the bytes in its buffer: the order of the checks is that of section 6.3 of MODBUS
      Application Protocol Specification V1.1b. An answer without bytes is not sent. */
  ghost function Reply(slave: Byte, rs: seq<Half>, frame: seq<Byte>, locked: bool): Answer
    requires |rs| == REGISTER_COUNT && |frame| >= REQUEST_SIZE
  {
    var fc, start: int, n := frame[1], LoadBig(frame[2..4]), LoadBig(frame[4..6]);
    if frame[0] != slave then Answer(DoesNotMatch, [])
    else if !CrcOk(frame, 6) then Answer(InvalidCrc16, [])
    else if fc != READ_HOLDING_REGISTERS then Answer(FunctionNotSupported, ExceptionFrame(slave, fc, 1))
    else if n < 1 || n > 125 then Answer(QuantityOutOfBounds, ExceptionFrame(slave, fc, 3))
    else if start < START_ADDRESS || start + n > START_ADDRESS + REGISTER_COUNT
      then Answer(MemoryOutOfBounds, ExceptionFrame(slave, fc, 2))
    else if !locked then Answer(CopyTimeout, [])
    else Answer(SlaveOk, RegistersFrame(slave, rs[start - START_ADDRESS..start - START_ADDRESS + n]))
  }

  function Number(high: Byte, low: Byte): int
  {
    0x100 * (high as int) + low as int
  }

  /** Bytes that begin with `head` and then have the CRC of all before it. */
  ghost predicate FrameOf(bytes: seq<Byte>, head: seq<Byte>)
  {
    |bytes| == |head| + 2 && bytes[..|head|] == head && CrcOk(bytes, |head|)
  }

  lemma WithCrcIsFrame(head: seq<Byte>)
    ensures FrameOf(WithCrc(head), head)
  {
    hide CrcOf, CrcOk;
    assert WithCrc(head)[..|head| + 2] == WithCrc(head);
    BuiltWithCrc(head, WithCrc(head));
  }

  /** What a slave answers, whatever arrives: nothing unless it is meant and the CRC is right; exception 1 for any
      function but 3, exception 3 for a quantity of 0 or above 125, exception 2 outside its eight registers; otherwise
      the registers, if it can have them. */
  lemma SlaveAnswers(slave: Byte, rs: seq<Half>, frame: seq<Byte>, locked: bool)
    requires |rs| == REGISTER_COUNT && |frame| >= REQUEST_SIZE
    ensures var answer, first: int, n: int :=
              Reply(slave, rs, frame, locked), Number(frame[2], frame[3]), Number(frame[4], frame[5]);
            && (frame[0] != slave || !CrcOk(frame, 6) ==> answer.bytes == [])
            && (frame[0] == slave && CrcOk(frame, 6) ==>
                  if frame[1] != 3 then FrameOf(answer.bytes, [slave, (frame[1] as int + 0x80) % 0x100, 1])
                  else if n == 0 || n > 125 then FrameOf(answer.bytes, [slave, 0x83, 3])
                  else if first < 0x4000 || first + n > 0x4008 then FrameOf(answer.bytes, [slave, 0x83, 2])
                  else if !locked then answer.bytes == []
                  else FrameOf(answer.bytes, [slave, 3, 2 * n] + Big(rs[first - 0x4000..first - 0x4000 + n])))
  {
    hide CrcOf, CrcOk, WithCrc, Big, FrameOf;
    var first: int, n: int := Number(frame[2], frame[3]), Number(frame[4], frame[5]);
    assert LoadBig(frame[2..4]) == first && LoadBig(frame[4..6]) == n;
    WithCrcIsFrame([slave, (frame[1] as int + 0x80) % 0x100, 1]);
    WithCrcIsFrame([slave, 0x83, 3]);
    WithCrcIsFrame([slave, 0x83, 2]);
    if 1 <= n && 0x4000 <= first && first + n <= 0x4008 {
      WithCrcIsFrame([slave, 3, 2 * n] + Big(rs[first - 0x4000..first - 0x4000 + n]));
    }
  }

  /** And what it reports to its caller. */
  lemma SlaveReports(slave: Byte, rs: seq<Half>, frame: seq<Byte>, locked: bool)
    requires |rs| == REGISTER_COUNT && |frame| >= REQUEST_SIZE
    ensures var status, first: int, n: int :=
              Reply(slave, rs, frame, locked).status, Number(frame[2], frame[3]), Number(frame[4], frame[5]);
            && (status == DoesNotMatch <==> frame[0] != slave)
            && (status == InvalidCrc16 <==> frame[0] == slave && !CrcOk(frame, 6))
            && (frame[0] == slave && CrcOk(frame, 6) ==>
                  && (status == FunctionNotSupported <==> frame[1] != 3)
                  && (status == QuantityOutOfBounds <==> frame[1] == 3 && !(1 <= n <= 125))
                  && (status == MemoryOutOfBounds <==>
                        frame[1] == 3 && 1 <= n <= 125 && !(0x4000 <= first && first + n <= 0x4008))
                  && (status == SlaveOk || status == CopyTimeout <==>
                        frame[1] == 3 && 1 <= n && 0x4000 <= first && first + n <= 0x4008)
                  && (status == SlaveOk ==> locked) && (status == CopyTimeout ==> !locked))
  {
    hide CrcOf, CrcOk, WithCrc, Big;
    var first: int, n: int := Number(frame[2], frame[3]), Number(frame[4], frame[5]);
    assert LoadBig(frame[2..4]) == first && LoadBig(frame[4..6]) == n;
  }

  // ----- The master's check -----

  /** The result of a check; `size` counts registers for functions 3 and 4, bytes otherwise. */
  datatype Outcome = Outcome(status: Status, payload: seq<Byte>, size: nat)

  ghost function CheckException(fc: Byte, buffer: seq<Byte>): Outcome
    requires |buffer| == BUFFER_SIZE
  {
    if !CrcOk(buffer, 3) then Outcome(InvalidExceptionCrc(fc), [], 0)
    else if 0 < buffer[2] < 5 then Outcome(SuccessWithErrorCode, buffer[1..3], 2)
    else Outcome(UnexpectedErrorCode(fc), [], 0)
  }

  /** Whole half-words swapped; an odd byte at the end stays as it is. */
  ghost function ToLittle(s: seq<Byte>): (t: seq<Byte>)
    ensures |t| == |s|
    ensures |s| % 2 == 0 ==> t == Swapped(s)
  {
    var odd := |s| % 2;
    if odd == 0 then Swapped(s) else Swapped(s[..|s| - 1]) + s[|s| - 1..]
  }

  ghost function CheckRegisters(fc: Byte, buffer: seq<Byte>): Outcome
    requires |buffer| == BUFFER_SIZE
  {
    var count: int := buffer[2];
    if count < 2 || count > 250 then Outcome(InvalidDataSizeOrDiscrete(fc), [], 0)
    else if !CrcOk(buffer, 3 + count) then Outcome(InvalidCrc(fc), [], 0)
    else Outcome(Success, ToLittle(buffer[3..3 + count]), count / 2)
  }

  ghost function CheckDiscrete(fc: Byte, buffer: seq<Byte>): Outcome
    requires |buffer| == BUFFER_SIZE
  {
    var count: int := buffer[2];
    if count < 1 || count > 251 then Outcome(InvalidDataSizeOrDiscrete(fc), [], 0)
    else if !CrcOk(buffer, 3 + count) then Outcome(InvalidCrc(fc), [], 0)
    else Outcome(Success, buffer[3..3 + count], count)
  }

  ghost function CheckWriteDiscrete(fc: Byte, memAddress: Half, n: Half, buffer: seq<Byte>): Outcome
    requires |buffer| == BUFFER_SIZE
  {
    if LoadBig(buffer[2..4]) != memAddress then Outcome(WriteDiscreteAddressMismatch, [], 0)
    else if LoadBig(buffer[4..6]) != n then Outcome(InvalidDataSizeOrDiscrete(fc), [], 0)
    else if !CrcOk(buffer, 6) then Outcome(InvalidCrc(fc), [], 0)
    else Outcome(Success, StoreHalf(n), 2)
  }

  ghost function Check(slave: Byte, fc: Byte, memAddress: Half, n: Half, buffer: seq<Byte>): Outcome
    requires |buffer| == BUFFER_SIZE && !CarriesData(fc)
  {
    if buffer[..4] == [0, 0, 0, 0] then Outcome(TimeoutOrNotResponding, [], 0)
    else if slave != buffer[0] then Outcome(InvalidReceiveSlaveAddress, [], 0)
    else if Unimplemented(fc) then Outcome(UnimplementedFunction, [], 0)
    else if fc < 1 || fc > 6 then Outcome(UnexpectedReceiveFunction, [], 0)
    else if buffer[1] == 0x80 + fc then CheckException(fc, buffer)
    else if buffer[1] != fc then Outcome(UnexpectedResponseFunction(fc), [], 0)
    else if fc <= READ_DISCRETE_INPUTS then CheckDiscrete(fc, buffer)
    else if fc <= READ_INPUT_REGISTERS then CheckRegisters(fc, buffer)
    else CheckWriteDiscrete(fc, memAddress, n, buffer)
  }

  /** What the check says to an answer that is missing, of another slave, or of another function. */
  lemma WrongAnswers(slave: Byte, fc: Byte, memAddress: Half, n: Half, buffer: seq<Byte>)
    requires |buffer| == BUFFER_SIZE && 1 <= fc <= 6
    ensures var status, none := Check(slave, fc, memAddress, n, buffer).status, buffer[..4] == [0, 0, 0, 0];
            && (status == TimeoutOrNotResponding <==> none)
            && (status == InvalidReceiveSlaveAddress <==> !none && buffer[0] != slave)
            && (status == UnexpectedResponseFunction(fc) <==>
                  !none && buffer[0] == slave && buffer[1] != fc && buffer[1] != fc as int + 0x80)
  {
    hide CrcOk, LoadBig, ToLittle, StoreHalf;
  }

  /** To a function it never asks with. */
  lemma WrongFunctions(slave: Byte, fc: Byte, memAddress: Half, n: Half, buffer: seq<Byte>)
    requires |buffer| == BUFFER_SIZE && (fc == 0 || fc > 6) && !CarriesData(fc)
    requires buffer[..4] != [0, 0, 0, 0] && buffer[0] == slave
    ensures Check(slave, fc, memAddress, n, buffer).status
         == if fc in {7, 8, 11, 12, 17, 20, 21, 22, 24, 43} then UnimplementedFunction else UnexpectedReceiveFunction
  {
  }

  /** To an exception. */
  lemma ExceptionAnswers(slave: Byte, fc: Byte, memAddress: Half, n: Half, buffer: seq<Byte>)
    requires |buffer| == BUFFER_SIZE && 1 <= fc <= 6 && 1 <= slave
    requires buffer[0] == slave && buffer[1] == fc as int + 0x80
    ensures var outcome := Check(slave, fc, memAddress, n, buffer);
            if !CrcOk(buffer, 3) then outcome == Outcome(InvalidExceptionCrc(fc), [], 0)
            else if 1 <= buffer[2] <= 4 then
              outcome == Outcome(SuccessWithErrorCode, [fc as int + 0x80, buffer[2]], 2)
            else outcome == Outcome(UnexpectedErrorCode(fc), [], 0)
  {
    hide CrcOk;
    NotAllZero(buffer);
    assert buffer[1..3] == [buffer[1], buffer[2]];
  }

  /** To an answer of functions 1 to 4: its byte count, its CRC, its data; registers come in the target's order. */
  lemma DataAnswers(slave: Byte, fc: Byte, memAddress: Half, n: Half, buffer: seq<Byte>)
    requires |buffer| == BUFFER_SIZE && 1 <= fc <= 4 && 1 <= slave && buffer[0] == slave && buffer[1] == fc
    ensures var outcome, count: int := Check(slave, fc, memAddress, n, buffer), buffer[2];
            if fc <= 2 then
              if count < 1 || count > 251 then outcome == Outcome(InvalidDataSizeOrDiscrete(fc), [], 0)
              else if !CrcOk(buffer, 3 + count) then outcome == Outcome(InvalidCrc(fc), [], 0)
              else outcome == Outcome(Success, buffer[3..3 + count], count)
            else
              if count < 2 || count > 250 then outcome == Outcome(InvalidDataSizeOrDiscrete(fc), [], 0)
              else if !CrcOk(buffer, 3 + count) then outcome == Outcome(InvalidCrc(fc), [], 0)
              else
                && outcome.status == Success && outcome.size == count / 2 && |outcome.payload| == count
                && forall i | 0 <= i < count ::
                     outcome.payload[i]
                     == buffer[3 + (if i % 2 == 1 then i - 1 else if i + 1 < count then i + 1 else i)]
  {
    hide CrcOk, ToLittle;
    NotAllZero(buffer);
    if fc > 2 && 2 <= buffer[2] <= 250 && CrcOk(buffer, 3 + buffer[2] as int) {
      var s, payload := buffer[3..3 + buffer[2] as int], Check(slave, fc, memAddress, n, buffer).payload;
      assert payload == ToLittle(s);
      forall i | 0 <= i < |s|
        ensures payload[i] == buffer[3 + (if i % 2 == 1 then i - 1 else if i + 1 < |s| then i + 1 else i)]
      {
        ToLittleAt(s, i);
      }
    }
  }

  lemma ToLittleAt(s: seq<Byte>, i: nat)
    requires i < |s|
    ensures ToLittle(s)[i] == s[if i % 2 == 1 then i - 1 else if i + 1 < |s| then i + 1 else i]
  {
    if |s| % 2 == 1 {
      OddToLittleAt(s, i);
    } else {
      NeighbourInside(|s|, i);
      hide Swapped;
    }
  }

  lemma OddToLittleAt(s: seq<Byte>, i: nat)
    requires i < |s| && |s| % 2 == 1
    ensures ToLittle(s)[i] == s[if i % 2 == 1 then i - 1 else if i + 1 < |s| then i + 1 else i]
  {
    var even := s[..|s| - 1];
    if i < |even| {
      NeighbourInside(|even|, i);
      assert ToLittle(s)[i] == Swapped(even)[i] == even[if i % 2 == 0 then i + 1 else i - 1];
      hide *;
    } else {
      assert i == |s| - 1 && i % 2 == 0;
      hide Swapped;
    }
  }

  lemma NeighbourInside(n: nat, i: nat)
    requires n % 2 == 0 && i < n
    ensures i % 2 == 0 ==> i + 1 < n
  {
  }

  /** To the echo of a write. */
  lemma EchoAnswers(slave: Byte, fc: Byte, memAddress: Half, n: Half, buffer: seq<Byte>)
    requires |buffer| == BUFFER_SIZE && 5 <= fc <= 6 && 1 <= slave && buffer[0] == slave && buffer[1] == fc
    ensures var outcome := Check(slave, fc, memAddress, n, buffer);
            if Number(buffer[2], buffer[3]) != memAddress then
              outcome == Outcome(WriteDiscreteAddressMismatch, [], 0)
            else if Number(buffer[4], buffer[5]) != n then
              outcome == Outcome(InvalidDataSizeOrDiscrete(fc), [], 0)
            else if !CrcOk(buffer, 6) then outcome == Outcome(InvalidCrc(fc), [], 0)
            else outcome == Outcome(Success, [n % 0x100, n / 0x100], 2)
  {
    hide CrcOk;
    NotAllZero(buffer);
    assert buffer[2..4] == [buffer[2], buffer[3]] && buffer[4..6] == [buffer[4], buffer[5]];
  }

  /** Status bytes, as a slave with coils or discrete inputs sends them, are handed over as they are. */
  lemma StatusBytesRead(slave: Byte, fc: Byte, memAddress: Half, n: Half, bits: seq<Byte>, tail: seq<Byte>)
    requires 1 <= slave && 1 <= fc <= 2 && 1 <= |bits| <= 251 && 5 + |bits| + |tail| == BUFFER_SIZE
    ensures var buffer := WithCrc([slave, fc, |bits|] + bits) + tail;
            && |buffer| == BUFFER_SIZE
            && Check(slave, fc, memAddress, n, buffer) == Outcome(Success, bits, |bits|)
  {
    hide CrcOf, CrcOk, WithCrc, Check;
    DataFrameParts([slave, fc, |bits|], bits, tail);
    DataAnswers(slave, fc, memAddress, n, WithCrc([slave, fc, |bits|] + bits) + tail);
  }

  /** So are registers, of either kind and as many as fit, in the target's byte order. */
  lemma AnyRegistersRead(slave: Byte, fc: Byte, memAddress: Half, n: Half, rs: seq<Half>, tail: seq<Byte>)
    requires 1 <= slave && 3 <= fc <= 4 && 1 <= |rs| <= 125 && 5 + 2 * |rs| + |tail| == BUFFER_SIZE
    ensures var buffer := WithCrc([slave, fc, 2 * |rs|] + Big(rs)) + tail;
            && |buffer| == BUFFER_SIZE
            && Check(slave, fc, memAddress, n, buffer) == Outcome(Success, Little(rs), |rs|)
  {
    hide CrcOf, CrcOk, WithCrc, Big, Little, Swapped, ToLittle, CheckRegisters;
    var buffer := WithCrc([slave, fc, 2 * |rs|] + Big(rs)) + tail;
    DataFrameParts([slave, fc, 2 * |rs|], Big(rs), tail);
    RegisterAnswer(slave, fc, memAddress, n, buffer);
    RegistersFrom(fc, rs, buffer);
  }

  lemma RegisterAnswer(slave: Byte, fc: Byte, memAddress: Half, n: Half, buffer: seq<Byte>)
    requires |buffer| == BUFFER_SIZE && 1 <= slave && 3 <= fc <= 4 && buffer[0] == slave && buffer[1] == fc
    ensures Check(slave, fc, memAddress, n, buffer) == CheckRegisters(fc, buffer)
  {
    hide CheckRegisters;
    NotAllZero(buffer);
  }

  lemma RegistersFrom(fc: Byte, rs: seq<Half>, buffer: seq<Byte>)
    requires |buffer| == BUFFER_SIZE && 1 <= |rs| <= 125 && buffer[2] == 2 * |rs|
    requires buffer[3..3 + 2 * |rs|] == Big(rs) && CrcOk(buffer, 3 + 2 * |rs|)
    ensures CheckRegisters(fc, buffer) == Outcome(Success, Little(rs), |rs|)
  {
    hide CrcOk, Big, Little, Swapped, ToLittle;
    SwappedRegisters(rs);
  }

  /** And the echo of a write gives the value written. */
  lemma EchoRead(slave: Byte, fc: Byte, memAddress: Half, n: Half, tail: seq<Byte>)
    requires 1 <= slave && 5 <= fc <= 6 && 8 + |tail| == BUFFER_SIZE
    ensures var buffer := WithCrc([slave, fc] + StoreBig(memAddress) + StoreBig(n)) + tail;
            && |buffer| == BUFFER_SIZE
            && Check(slave, fc, memAddress, n, buffer) == Outcome(Success, [n % 0x100, n / 0x100], 2)
  {
    hide CrcOf, CrcOk, WithCrc, Check;
    var s := [slave, fc] + StoreBig(memAddress) + StoreBig(n);
    var buffer := WithCrc(s) + tail;
    assert buffer[..8] == WithCrc(s);
    BuiltWithCrc(s, buffer);
    assert forall i | 0 <= i < 6 :: buffer[i] == buffer[..6][i];
    EchoAnswers(slave, fc, memAddress, n, buffer);
  }

  lemma DataFrameParts(head: seq<Byte>, body: seq<Byte>, tail: seq<Byte>)
    requires |head| == 3
    ensures var buffer := WithCrc(head + body) + tail;
            && |buffer| == 5 + |body| + |tail|
            && buffer[0] == head[0] && buffer[1] == head[1] && buffer[2] == head[2]
            && buffer[3..3 + |body|] == body && CrcOk(buffer, 3 + |body|)
  {
    hide CrcOf, CrcOk, WithCrc;
    var s := head + body;
    var buffer := WithCrc(s) + tail;
    assert buffer[..|s| + 2] == WithCrc(s);
    BuiltWithCrc(s, buffer);
    HeadAndBody(buffer, head, body);
  }

  lemma NotAllZero(buffer: seq<Byte>)
    requires |buffer| >= 4 && buffer[0] != 0
    ensures buffer[..4] != [0, 0, 0, 0]
  {
    assert buffer[..4][0] != 0;
  }

  // ----- End to end -----

  lemma RequestReads(slave: Byte, fc: Byte, memAddress: Half, n: Half, frame: seq<Byte>)
    requires |frame| >= REQUEST_SIZE && frame[..REQUEST_SIZE] == Request(slave, fc, memAddress, n)
    ensures frame[0] == slave && frame[1] == fc && CrcOk(frame, 6)
    ensures LoadBig(frame[2..4]) == memAddress && LoadBig(frame[4..6]) == Quantity(fc, n)
  {
    hide CrcOf, LoadBig, StoreBig, Quantity, CrcOk;
    var q := Quantity(fc, n);
    var s := [slave, fc] + StoreBig(memAddress) + StoreBig(q);
    BuiltWithCrc(s, frame);
    LoadAfterStoreBig(memAddress);
    LoadAfterStoreBig(q);
    assert frame[0] == frame[..6][0] && frame[1] == frame[..6][1];
    assert frame[2..4] == frame[..6][2..4] == StoreBig(memAddress);
    assert frame[4..6] == frame[..6][4..6] == StoreBig(q);
  }

  lemma ExceptionReads(slave: Byte, fc: Byte, code: Byte, tail: seq<Byte>)
    requires 1 <= slave && 1 <= fc < 0x80 && 0 < code < 5
    requires 5 + |tail| == BUFFER_SIZE
    ensures var buffer := ExceptionFrame(slave, fc, code) + tail;
            && |buffer| == BUFFER_SIZE && buffer[0] == slave && buffer[1] == 0x80 + fc
            && CheckException(fc, buffer) == Outcome(SuccessWithErrorCode, [0x80 + fc as int, code], 2)
  {
    hide CrcOf, CrcOk;
    var s: seq<Byte> := [slave, 0x80 + fc as int, code];
    var buffer := ExceptionFrame(slave, fc, code) + tail;
    assert buffer[..5] == WithCrc(s);
    BuiltWithCrc(s, buffer);
    assert buffer[0] == buffer[..3][0] && buffer[1] == buffer[..3][1] && buffer[2] == buffer[..3][2];
    assert buffer[1..3] == [0x80 + fc as int, code];
  }

  lemma RegistersFrameParts(slave: Byte, rs: seq<Half>, tail: seq<Byte>)
    requires |rs| <= REGISTER_COUNT
    ensures var buffer := RegistersFrame(slave, rs) + tail;
            && |buffer| == 5 + 2 * |rs| + |tail|
            && buffer[0] == slave && buffer[1] == READ_HOLDING_REGISTERS && buffer[2] == 2 * |rs|
            && buffer[3..3 + 2 * |rs|] == Big(rs) && CrcOk(buffer, 3 + 2 * |rs|)
  {
    hide CrcOf, CrcOk, Swapped, Big, Little, WithCrc;
    var head: seq<Byte> := [slave, READ_HOLDING_REGISTERS, 2 * |rs|];
    var s := head + Big(rs);
    var buffer := RegistersFrame(slave, rs) + tail;
    assert buffer[..|s| + 2] == WithCrc(s);
    BuiltWithCrc(s, buffer);
    HeadAndBody(buffer, head, Big(rs));
  }

  lemma RegistersRead(slave: Byte, rs: seq<Half>, tail: seq<Byte>)
    requires 1 <= slave && 1 <= |rs| <= REGISTER_COUNT && 5 + 2 * |rs| + |tail| == BUFFER_SIZE
    ensures var buffer := RegistersFrame(slave, rs) + tail;
            && |buffer| == BUFFER_SIZE && buffer[0] == slave && buffer[1] == READ_HOLDING_REGISTERS
            && CheckRegisters(READ_HOLDING_REGISTERS, buffer) == Outcome(Success, Little(rs), |rs|)
  {
    hide CrcOf, CrcOk, Swapped, Big, Little, WithCrc, ToLittle, RegistersFrame;
    RegistersFrameParts(slave, rs, tail);
    SwappedRegisters(rs);
  }

  lemma HeadAndBody(buffer: seq<Byte>, head: seq<Byte>, body: seq<Byte>)
    requires |head| == 3 && |head + body| <= |buffer| && buffer[..|head + body|] == head + body
    ensures buffer[0] == head[0] && buffer[1] == head[1] && buffer[2] == head[2]
    ensures buffer[3..3 + |body|] == body
  {
    var s := buffer[..|head + body|];
    assert s[0] == buffer[0] && s[1] == buffer[1] && s[2] == buffer[2];
    assert buffer[3..3 + |body|] == s[3..] == body;
  }

  /** The addressed registers exist. */
  predicate InRange(memAddress: Half, n: Half)
  {
    START_ADDRESS <= memAddress && memAddress as int + n as int <= START_ADDRESS + REGISTER_COUNT
  }

  /** In-range Read Holding Registers returns exactly those registers, out-of-range exception 2, any other function
      exception 1. */
  ghost predicate AsPromised(fc: Byte, memAddress: Half, n: Half, rs: seq<Half>, outcome: Outcome)
    requires |rs| == REGISTER_COUNT
  {
    if fc != READ_HOLDING_REGISTERS then
      outcome.status == SuccessWithErrorCode && outcome.payload == [(0x80 + fc as int) % 0x100, 1] && outcome.size == 2
    else if !InRange(memAddress, n) then
      outcome.status == SuccessWithErrorCode && outcome.payload == [0x83, 2] && outcome.size == 2
    else
      var i: int := memAddress - START_ADDRESS;
      && outcome.status == Success && outcome.size == n && |outcome.payload| == 2 * n as int
      && Registers(outcome.payload) == rs[i..i + n as int]
  }

  /** A receive buffer after `bytes` have arrived over what was in it, as far as they fit. */
  ghost function Received(stale: seq<Byte>, bytes: seq<Byte>): (buffer: seq<Byte>)
    ensures |buffer| == |stale|
  {
    if |bytes| <= |stale| then bytes + stale[|bytes|..] else bytes[..|stale|]
  }

  /** What the master makes of one request, whatever else is left in either buffer. */
  ghost function Exchanged(slave: Byte, fc: Byte, memAddress: Half, n: Half, rs: seq<Half>, rest: seq<Byte>,
                           stale: seq<Byte>): Outcome
    requires |rs| == REGISTER_COUNT && |stale| == BUFFER_SIZE && !CarriesData(fc)
  {
    var answer := Reply(slave, rs, Request(slave, fc, memAddress, n) + rest, true).bytes;
    Check(slave, fc, memAddress, n, Received(stale, answer))
  }

  /** Every request the master accepts for functions 1 to 6, delivered intact to the slave it names, gets an answer
      that the master accepts, whatever else is left in either buffer. */
  lemma EndToEnd(slave: Byte, fc: Byte, memAddress: Half, n: Half, rs: seq<Half>, rest: seq<Byte>, stale: seq<Byte>)
    requires 1 <= slave && 1 <= fc <= 6 && RequestStatus(slave, fc, n) == Success
    requires |rs| == REGISTER_COUNT && |stale| == BUFFER_SIZE
    ensures var answer := Reply(slave, rs, Request(slave, fc, memAddress, n) + rest, true).bytes;
            && 0 < |answer| <= BUFFER_SIZE
            && AsPromised(fc, memAddress, n, rs, Check(slave, fc, memAddress, n, Received(stale, answer)))
  {
    hide WithCrc, Little, Registers, Check, Reply, Received, Request, ExceptionFrame, RegistersFrame;
    Answered(slave, fc, memAddress, n, rs, rest);
    if fc != READ_HOLDING_REGISTERS {
      ExceptionArrives(slave, fc, memAddress, n, 1, stale);
    } else if !InRange(memAddress, n) {
      ExceptionArrives(slave, fc, memAddress, n, 2, stale);
    } else {
      var i: int := memAddress - START_ADDRESS;
      RegistersArrive(slave, memAddress, n, rs[i..i + n as int], stale);
      RegistersOfLittle(rs[i..i + n as int]);
      LittleLength(rs[i..i + n as int]);
    }
  }

  /** What the slave makes of a request that the master has accepted. */
  lemma Answered(slave: Byte, fc: Byte, memAddress: Half, n: Half, rs: seq<Half>, rest: seq<Byte>)
    requires 1 <= fc <= 6 && RequestStatus(slave, fc, n) == Success && |rs| == REGISTER_COUNT
    ensures var answer := Reply(slave, rs, Request(slave, fc, memAddress, n) + rest, true).bytes;
            if fc != READ_HOLDING_REGISTERS then answer == ExceptionFrame(slave, fc, 1)
            else if !InRange(memAddress, n) then answer == ExceptionFrame(slave, fc, 2)
            else
              var i: int := memAddress - START_ADDRESS;
              answer == RegistersFrame(slave, rs[i..i + n as int])
  {
    hide CrcOk, LoadBig, Request, Reply, InRange;
    var frame := Request(slave, fc, memAddress, n) + rest;
    assert frame[..REQUEST_SIZE] == Request(slave, fc, memAddress, n);
    RequestReads(slave, fc, memAddress, n, frame);
    OrderOfTests(slave, fc, memAddress, n, rs, frame);
  }

  lemma OrderOfTests(slave: Byte, fc: Byte, memAddress: Half, n: Half, rs: seq<Half>, frame: seq<Byte>)
    requires |rs| == REGISTER_COUNT && (fc == READ_HOLDING_REGISTERS ==> 1 <= n <= 125)
    requires |frame| >= REQUEST_SIZE && frame[0] == slave && frame[1] == fc && CrcOk(frame, 6)
    requires LoadBig(frame[2..4]) == memAddress && (fc == READ_HOLDING_REGISTERS ==> LoadBig(frame[4..6]) == n)
    ensures var answer := Reply(slave, rs, frame, true).bytes;
            if fc != READ_HOLDING_REGISTERS then answer == ExceptionFrame(slave, fc, 1)
            else if !InRange(memAddress, n) then answer == ExceptionFrame(slave, fc, 2)
            else
              var i: int := memAddress - START_ADDRESS;
              answer == RegistersFrame(slave, rs[i..i + n as int])
  {
    hide CrcOk, LoadBig, ExceptionFrame, RegistersFrame;
  }

  lemma ExceptionArrives(slave: Byte, fc: Byte, memAddress: Half, n: Half, code: Byte, stale: seq<Byte>)
    requires 1 <= slave && 1 <= fc <= 6 && 0 < code < 5 && |stale| == BUFFER_SIZE
    ensures var answer := ExceptionFrame(slave, fc, code);
            && 0 < |answer| <= BUFFER_SIZE
            && Check(slave, fc, memAddress, n, Received(stale, answer))
               == Outcome(SuccessWithErrorCode, [0x80 + fc as int, code], 2)
  {
    hide CheckException, CheckRegisters, CheckDiscrete, CheckWriteDiscrete, ExceptionFrame;
    ExceptionSize(slave, fc, code);
    ExceptionReads(slave, fc, code, stale[5..]);
    NotAllZero(Received(stale, ExceptionFrame(slave, fc, code)));
  }

  lemma RegistersArrive(slave: Byte, memAddress: Half, n: Half, rs: seq<Half>, stale: seq<Byte>)
    requires 1 <= slave && 1 <= |rs| <= REGISTER_COUNT && |stale| == BUFFER_SIZE
    ensures var answer := RegistersFrame(slave, rs);
            && 0 < |answer| <= BUFFER_SIZE
            && Check(slave, READ_HOLDING_REGISTERS, memAddress, n, Received(stale, answer))
               == Outcome(Success, Little(rs), |rs|)
  {
    hide CheckException, CheckRegisters, CheckDiscrete, CheckWriteDiscrete, RegistersFrame, Little;
    RegistersSize(slave, rs);
    RegistersRead(slave, rs, stale[5 + 2 * |rs|..]);
    NotAllZero(Received(stale, RegistersFrame(slave, rs)));
  }

  /** In numbers: a master that asks slave 1 to 247 for registers it has gets exactly those registers. */
  lemma RegistersComeBack(slave: Byte, memAddress: Half, n: Half, rs: seq<Half>, rest: seq<Byte>, stale: seq<Byte>)
    requires 1 <= slave <= 247 && 0x4000 <= memAddress && 1 <= n && memAddress as int + n as int <= 0x4008
    requires |rs| == REGISTER_COUNT && |stale| == BUFFER_SIZE
    ensures RequestStatus(slave, 3, n) == Success
    ensures var i: int := memAddress - 0x4000;
            Exchanged(slave, 3, memAddress, n, rs, rest, stale) == Outcome(Success, Little(rs[i..i + n as int]), n)
  {
    AcceptedIff(slave, 3, n);
    hide RequestStatus, Reply, Check, Registers, Little, Request, Received, AsPromised;
    EndToEnd(slave, 3, memAddress, n, rs, rest, stale);
    PromiseInNumbers(3, memAddress, n, rs, Exchanged(slave, 3, memAddress, n, rs, rest, stale));
  }

  lemma ExceptionSize(slave: Byte, fc: Byte, code: Byte)
    ensures |ExceptionFrame(slave, fc, code)| == 5
  {
  }

  lemma RegistersSize(slave: Byte, rs: seq<Half>)
    requires |rs| <= REGISTER_COUNT
    ensures |RegistersFrame(slave, rs)| == 5 + 2 * |rs|
  {
  }

  lemma LittleLength(rs: seq<Half>)
    ensures |Little(rs)| == 2 * |rs|
  {
  }

  /** A request damaged in at most two adjacent bytes is never answered. */
  lemma DamagedRequestIsNotAnswered(slave: Byte, fc: Byte, memAddress: Half, n: Half, rs: seq<Half>, locked: bool,
                                    receiver: Byte, before: seq<Byte>, x: seq<Byte>, y: seq<Byte>, behind: seq<Byte>)
    requires |rs| == REGISTER_COUNT && |x| == |y| <= 2 && x != y
    requires before + x + behind == Request(slave, fc, memAddress, n)
    ensures Reply(receiver, rs, before + y + behind, locked).bytes == []
  {
    hide CrcOf, CrcOk, LoadBig, StoreBig, WithCrc, Request, ExceptionFrame, RegistersFrame;
    var good := before + x + behind;
    assert good[..REQUEST_SIZE] == good;
    RequestReads(slave, fc, memAddress, n, good);
    DamageShows(before, x, y, behind, 6);
  }

  // ----- Damaged answers -----

  predicate Accepted(outcome: Outcome)
  {
    outcome.status.Success? || outcome.status.SuccessWithErrorCode?
  }

  /** Behind how many bytes the check looks for the CRC: bytes 1 and 2 of the answer itself say so. */
  function CrcPlace(fc: Byte, buffer: seq<Byte>): (place: nat)
    requires |buffer| == BUFFER_SIZE && 1 <= fc <= 6
    ensures place >= 3
  {
    if buffer[1] == 0x80 + fc as int then 3 else if fc <= READ_INPUT_REGISTERS then 3 + buffer[2] as nat else 6
  }

  lemma ExceptionIsAccepted(slave: Byte, fc: Byte, memAddress: Half, n: Half, buffer: seq<Byte>)
    requires |buffer| == BUFFER_SIZE && 1 <= fc <= 6 && 1 <= slave
    requires buffer[0] == slave && buffer[1] == 0x80 + fc as int && 0 < buffer[2] < 5 && CrcOk(buffer, 3)
    ensures Accepted(Check(slave, fc, memAddress, n, buffer))
  {
    hide CrcOk;
    NotAllZero(buffer);
  }

  lemma DataIsAccepted(slave: Byte, fc: Byte, memAddress: Half, n: Half, buffer: seq<Byte>)
    requires |buffer| == BUFFER_SIZE && 1 <= fc <= READ_INPUT_REGISTERS && 1 <= slave
    requires buffer[0] == slave && buffer[1] == fc && 2 <= buffer[2] <= 250 && CrcOk(buffer, 3 + buffer[2] as int)
    ensures Accepted(Check(slave, fc, memAddress, n, buffer))
  {
    hide CrcOk, ToLittle;
    NotAllZero(buffer);
  }

  lemma EchoIsAccepted(slave: Byte, fc: Byte, buffer: seq<Byte>)
    requires |buffer| == BUFFER_SIZE && WRITE_SINGLE_COIL <= fc <= WRITE_SINGLE_REGISTER && 1 <= slave
    requires buffer[0] == slave && buffer[1] == fc && CrcOk(buffer, 6)
    ensures Accepted(Check(slave, fc, LoadBig(buffer[2..4]), LoadBig(buffer[4..6]), buffer))
  {
    hide CrcOk, LoadBig, StoreHalf;
    NotAllZero(buffer);
  }

  lemma AcceptedHasCrc(slave: Byte, fc: Byte, memAddress: Half, n: Half, buffer: seq<Byte>)
    requires |buffer| == BUFFER_SIZE && 1 <= fc <= 6
    requires Accepted(Check(slave, fc, memAddress, n, buffer))
    ensures CrcPlace(fc, buffer) + 2 <= BUFFER_SIZE && CrcOk(buffer, CrcPlace(fc, buffer))
    ensures buffer[0] == slave && (buffer[1] == fc || buffer[1] == 0x80 + fc)
  {
    hide CrcOk, LoadBig, StoreHalf, ToLittle;
  }

  lemma CrcOkOfFrame(frame: seq<Byte>, n: nat)
    requires n + 2 <= |frame|
    ensures CrcOk(frame, n) <==> CrcOk(frame[..n + 2], n)
  {
    hide LoadHalf, CrcOf;
    assert frame[..n + 2][n..n + 2] == frame[n..n + 2] && frame[..n + 2][..n] == frame[..n];
  }

  /** An answer damaged in at most two adjacent bytes is refused, unless the damage moves the place where the CRC is
      looked for. */
  lemma DamagedAnswerIsRefused(slave: Byte, fc: Byte, memAddress: Half, n: Half, before: seq<Byte>, x: seq<Byte>,
                               y: seq<Byte>, behind: seq<Byte>)
    requires 1 <= fc <= 6 && |x| == |y| <= 2 && x != y && |before + x + behind| == BUFFER_SIZE
    requires Accepted(Check(slave, fc, memAddress, n, before + x + behind))
    requires |before + x| <= CrcPlace(fc, before + x + behind) + 2
    requires CrcPlace(fc, before + y + behind) == CrcPlace(fc, before + x + behind)
    ensures !Accepted(Check(slave, fc, memAddress, n, before + y + behind))
  {
    hide CrcOk, Check, CrcPlace;
    var good, bad := before + x + behind, before + y + behind;
    var place := CrcPlace(fc, good);
    AcceptedHasCrc(slave, fc, memAddress, n, good);
    var rest := behind[..place + 2 - |before + x|];
    assert good[..place + 2] == before + x + rest && bad[..place + 2] == before + y + rest;
    CrcOkOfFrame(good, place);
    CrcOkOfFrame(bad, place);
    DamageShows(before, x, y, rest, place);
    if Accepted(Check(slave, fc, memAddress, n, bad)) {
      AcceptedHasCrc(slave, fc, memAddress, n, bad);
    }
  }

  /** In particular when it leaves bytes 1 and 2 alone. */
  lemma DamageBehindTheHeadIsRefused(slave: Byte, fc: Byte, memAddress: Half, n: Half, before: seq<Byte>,
                                     x: seq<Byte>, y: seq<Byte>, behind: seq<Byte>)
    requires 1 <= fc <= 6 && |x| == |y| <= 2 && x != y && |before + x + behind| == BUFFER_SIZE
    requires Accepted(Check(slave, fc, memAddress, n, before + x + behind))
    requires |before + x| <= 1 || 3 <= |before| <= |before + x| <= CrcPlace(fc, before + x + behind) + 2
    ensures !Accepted(Check(slave, fc, memAddress, n, before + y + behind))
  {
    hide Check;
    DamagedAnswerIsRefused(slave, fc, memAddress, n, before, x, y, behind);
  }

  // With function 5 no damage can move the place: the bytes behind an exception's code are its CRC, and the high one of
  // the two would have to be that of a value a coil can be set to.

  lemma EntriesWithEndBytes(i: bv8)
    ensures High(ByteIn(0, i)) == 0 ==> i == 0
    ensures High(ByteIn(0, i)) == 0xFF ==> i == 0x54
  {
  }

  lemma BeforeTheCode(slave: bv8)
    ensures var low := Low(ByteIn(ByteIn(0xFFFF, slave), 0x85)); (low < 1 || low > 4) && (low < 0x50 || low > 0x57)
  {
  }

  lemma CodeMovesLittle(low: bv8, code: bv8)
    requires 1 <= code <= 4 && (low < 1 || low > 4) && (low < 0x50 || low > 0x57)
    ensures code ^ low != 0 && code ^ low != 0x54
  {
  }

  lemma HighByteOfException(slave: bv8, code: bv8)
    requires 1 <= code <= 4
    ensures var high := High(ByteIn(ByteIn(ByteIn(0xFFFF, slave), 0x85), code)); high != 0 && high != 0xFF
  {
    var c := ByteIn(ByteIn(0xFFFF, slave), 0x85);
    BeforeTheCode(slave);
    CodeMovesLittle(Low(c), code);
    HighByteOfEntry(c, code);
    EntriesWithEndBytes(Index(c, code));
    hide ByteIn, High, Low;
    assert Index(c, code) == code ^ Low(c);
  }

  lemma CodesAsBits(code: Byte)
    requires 1 <= code <= 4
    ensures 1 <= ToBits(code) <= 4 && ToBits(0x85) == 0x85 && ToBits(0) == 0 && ToBits(0xFF) == 0xFF
  {
  }

  /** The high byte of the CRC of a slave's exception to function 5 is never 0 or 0xFF. */
  lemma ExceptionIsNoCoil(slave: Byte, code: Byte)
    requires 1 <= code <= 4
    ensures var high := CrcOf([slave, 0x85, code]) / 0x100; high != 0 && high != 0xFF
  {
    var c := ExceptionRegister(slave, code);
    HalfHigh(c);
    EndBytes(High(c));
    hide Crc16, Bits, HalfOf, High, FromBits;
  }

  lemma ExceptionRegister(slave: Byte, code: Byte) returns (c: bv16)
    requires 1 <= code <= 4
    ensures c == Crc16(0xFFFF, Bits([slave, 0x85, code])) && High(c) != 0 && High(c) != 0xFF
  {
    CodesAsBits(code);
    hide ByteIn, High, ToBits, Crc16;
    var bits := [ToBits(slave), 0x85, ToBits(code)];
    assert Bits([slave, 0x85, code]) == bits;
    CrcOfThree(0xFFFF, bits);
    HighByteOfException(ToBits(slave), ToBits(code));
    c := Crc16(0xFFFF, bits);
  }

  lemma HalfHigh(c: bv16)
    ensures HalfOf(c) / 0x100 == FromBits(High(c))
  {
    hide High, Low, FromBits;
  }

  lemma EndBytes(v: bv8)
    ensures FromBits(v) == 0 ==> v == 0
    ensures FromBits(v) == 0xFF ==> v == 0xFF
  {
    NumberRoundTrip(v);
    CodesAsBits(1);
    hide ToBits, FromBits;
  }

  lemma CoilReadings(slave: Byte, memAddress: Half, n: Half, buffer: seq<Byte>)
    requires |buffer| == BUFFER_SIZE && Accepted(Check(slave, WRITE_SINGLE_COIL, memAddress, n, buffer))
    ensures buffer[0] == slave && (buffer[1] == WRITE_SINGLE_COIL || buffer[1] == 0x85)
    ensures buffer[1] == 0x85 ==> 0 < buffer[2] < 5 && CrcOk(buffer, 3)
    ensures buffer[1] == WRITE_SINGLE_COIL ==> LoadBig(buffer[4..6]) == n
  {
    hide CrcOk, LoadBig, StoreHalf;
  }

  /** The two bytes behind an exception's code do not begin the echo of a coil. */
  lemma ExceptionOrEcho(slave: Byte, n: Half, buffer: seq<Byte>)
    requires |buffer| == BUFFER_SIZE && buffer[0] == slave && buffer[1] == 0x85 && 0 < buffer[2] < 5
    requires CrcOk(buffer, 3) && RequestStatus(slave, WRITE_SINGLE_COIL, n) == Success
    ensures LoadBig([buffer[4], buffer[5]]) != n
  {
    ExceptionIsNoCoil(slave, buffer[2]);
    hide CrcOf;
    assert buffer[..3] == [slave, 0x85, buffer[2]];
    assert buffer[3..5] == [buffer[3], buffer[4]];
  }

  lemma NoExceptionForAnEcho(slave: Byte, memAddress: Half, n: Half, one: seq<Byte>, other: seq<Byte>)
    requires |one| == |other| == BUFFER_SIZE && one[3..] == other[3..] && one[1] == 0x85 && other[1] != 0x85
    requires RequestStatus(slave, WRITE_SINGLE_COIL, n) == Success
    ensures !Accepted(Check(slave, WRITE_SINGLE_COIL, memAddress, n, one))
            || !Accepted(Check(slave, WRITE_SINGLE_COIL, memAddress, n, other))
  {
    hide Check, CrcOk, LoadBig, RequestStatus;
    if Accepted(Check(slave, WRITE_SINGLE_COIL, memAddress, n, one))
       && Accepted(Check(slave, WRITE_SINGLE_COIL, memAddress, n, other)) {
      CoilReadings(slave, memAddress, n, one);
      CoilReadings(slave, memAddress, n, other);
      assert other[4] == other[3..][1] == one[3..][1] == one[4] && other[5] == other[3..][2] == one[3..][2] == one[5];
      assert other[4..6] == [one[4], one[5]];
      ExceptionOrEcho(slave, n, one);
    }
  }

  /** So with function 5 every answer to an accepted request is refused once it is damaged in at most two adjacent
      bytes. */
  lemma DamagedCoilAnswerIsRefused(slave: Byte, memAddress: Half, n: Half, before: seq<Byte>, x: seq<Byte>,
                                   y: seq<Byte>, behind: seq<Byte>)
    requires RequestStatus(slave, WRITE_SINGLE_COIL, n) == Success
    requires |x| == |y| <= 2 && x != y && |before + x + behind| == BUFFER_SIZE
    requires Accepted(Check(slave, WRITE_SINGLE_COIL, memAddress, n, before + x + behind))
    requires |before + x| <= CrcPlace(WRITE_SINGLE_COIL, before + x + behind) + 2
    ensures !Accepted(Check(slave, WRITE_SINGLE_COIL, memAddress, n, before + y + behind))
  {
    hide Check, RequestStatus;
    var good, bad := before + x + behind, before + y + behind;
    if (good[1] == 0x85) == (bad[1] == 0x85) {
      DamagedAnswerIsRefused(slave, WRITE_SINGLE_COIL, memAddress, n, before, x, y, behind);
    } else {
      SameBehind(before, x, y, behind);
      if good[1] == 0x85 {
        NoExceptionForAnEcho(slave, memAddress, n, good, bad);
      } else {
        NoExceptionForAnEcho(slave, memAddress, n, bad, good);
      }
    }
  }

  lemma SameBehind(before: seq<Byte>, x: seq<Byte>, y: seq<Byte>, behind: seq<Byte>)
    requires |x| == |y| <= 2 && |before + x + behind| == BUFFER_SIZE
    requires (before + x + behind)[1] != (before + y + behind)[1]
    ensures (before + x + behind)[3..] == (before + y + behind)[3..]
  {
  }

  /** An accepted answer to an accepted request is damaged in adjacent bytes, and the check accepts what it has
      become. */
  ghost predicate Fools(slave: Byte, fc: Byte, memAddress: Half, n: Half, before: seq<Byte>, x: seq<Byte>, y: seq<Byte>,
                        behind: seq<Byte>)
    requires 1 <= fc <= 6
  {
    && |x| == |y| && x != y && |before + x + behind| == BUFFER_SIZE && RequestStatus(slave, fc, n) == Success
    && Accepted(Check(slave, fc, memAddress, n, before + x + behind))
    && |before + x| <= CrcPlace(fc, before + x + behind) + 2
    && Accepted(Check(slave, fc, memAddress, n, before + y + behind))
  }

  /** Damage of `size` bytes from byte `p` on can fool the master, for some request, answer and damage. */
  ghost predicate CanFool(slave: Byte, fc: Byte, p: nat, size: nat)
    requires 1 <= fc <= 6
  {
    exists memAddress, n, before, x, y, behind ::
      |before| == p && |x| == size && Fools(slave, fc, memAddress, n, before, x, y, behind)
  }

  /** Damage in at most two adjacent bytes can fool the master exactly when it reaches byte 1, which tells an exception
      from an answer, or the byte count of an answer that has one, and never with function 5. */
  lemma FoolsIff(slave: Byte, fc: Byte, p: nat, size: nat)
    requires 1 <= slave <= 247 && 1 <= fc <= 6 && size <= 2
    ensures CanFool(slave, fc, p, size) <==>
              && fc != WRITE_SINGLE_COIL
              && (p <= 1 < p + size || (fc <= READ_INPUT_REGISTERS && p <= 2 < p + size))
  {
    hide Fools;
    forall memAddress, n, before, x, y, behind
      | |before| == p && |x| == size && Fools(slave, fc, memAddress, n, before, x, y, behind)
      ensures fc != WRITE_SINGLE_COIL
      ensures p <= 1 < p + size || (fc <= READ_INPUT_REGISTERS && p <= 2 < p + size)
    {
      FooledInTheHead(slave, fc, memAddress, n, before, x, y, behind);
    }
    if fc <= READ_INPUT_REGISTERS && p <= 1 < p + size {
      FoolByException(slave, fc, p, size);
    } else if fc <= READ_INPUT_REGISTERS && p <= 2 < p + size {
      FoolByCount(slave, fc, p, size);
    } else if fc == WRITE_SINGLE_REGISTER && p <= 1 < p + size {
      FoolByWriteException(slave, p, size);
    }
  }

  lemma FooledInTheHead(slave: Byte, fc: Byte, memAddress: Half, n: Half, before: seq<Byte>, x: seq<Byte>,
                        y: seq<Byte>, behind: seq<Byte>)
    requires 1 <= fc <= 6 && |x| <= 2 && Fools(slave, fc, memAddress, n, before, x, y, behind)
    ensures fc != WRITE_SINGLE_COIL
    ensures |before| <= 1 < |before + x| || (fc <= READ_INPUT_REGISTERS && |before| <= 2 < |before + x|)
  {
    hide Check, RequestStatus;
    if fc == WRITE_SINGLE_COIL {
      DamagedCoilAnswerIsRefused(slave, memAddress, n, before, x, y, behind);
    } else if !(|before| <= 1 < |before + x|) && !(fc <= READ_INPUT_REGISTERS && |before| <= 2 < |before + x|) {
      DamagedAnswerIsRefused(slave, fc, memAddress, n, before, x, y, behind);
    }
  }

  lemma ThreeParts(s: seq<Byte>, p: nat, q: nat)
    requires p <= q <= |s|
    ensures s[..p] + s[p..q] + s[q..] == s
  {
  }

  lemma Cut(good: seq<Byte>, at: nat, b: Byte, p: nat, size: nat)
    returns (before: seq<Byte>, x: seq<Byte>, y: seq<Byte>, behind: seq<Byte>)
    requires p <= at < p + size <= |good| && b != good[at]
    ensures |before| == p && |x| == |y| == size && x != y
    ensures before + x + behind == good && before + y + behind == good[at := b]
  {
    var bad := good[at := b];
    before, x, y, behind := good[..p], good[p..p + size], bad[p..p + size], good[p + size..];
    ThreeParts(good, p, p + size);
    ThreeParts(bad, p, p + size);
    assert bad[..p] == before && bad[p + size..] == behind;
    assert x[at - p] != y[at - p];
  }

  /** One changed byte is damage of any stretch around it. */
  lemma Widened(slave: Byte, fc: Byte, memAddress: Half, n: Half, good: seq<Byte>, at: nat, b: Byte, p: nat, size: nat)
    requires 1 <= fc <= 6 && |good| == BUFFER_SIZE && RequestStatus(slave, fc, n) == Success
    requires p <= at < p + size <= CrcPlace(fc, good) + 2 && p + size <= BUFFER_SIZE && b != good[at]
    requires Accepted(Check(slave, fc, memAddress, n, good)) && Accepted(Check(slave, fc, memAddress, n, good[at := b]))
    ensures CanFool(slave, fc, p, size)
  {
    hide Check, CrcPlace, RequestStatus;
    var before, x, y, behind := Cut(good, at, b, p, size);
    assert Fools(slave, fc, memAddress, n, before, x, y, behind);
  }

  /** An answer that contains, from its start on and but for byte `p`, another one with its CRC. */
  ghost function Planted(short: seq<Byte>, p: nat, b: Byte, more: seq<Byte>): (buffer: seq<Byte>)
    requires p < |short| && |short| + |more| + 4 <= BUFFER_SIZE
    ensures |buffer| == BUFFER_SIZE
  {
    var long := WithCrc((WithCrc(short) + more)[p := b]);
    long + seq(BUFFER_SIZE - |long|, _ => 0)
  }

  lemma BothCrcs(short: seq<Byte>, p: nat, b: Byte, more: seq<Byte>)
    requires p < |short| && |short| + |more| + 4 <= BUFFER_SIZE
    ensures CrcOk(Planted(short, p, b, more), |short| + |more| + 2)
    ensures CrcOk(Planted(short, p, b, more)[p := short[p]], |short|)
  {
    hide CrcOk, WithCrc;
    var long, buffer := (WithCrc(short) + more)[p := b], Planted(short, p, b, more);
    PlantedBytes(short, p, b, more);
    BuiltWithCrc(long, buffer);
    BuiltWithCrc(short, buffer[p := short[p]]);
  }

  lemma PlantedBytes(short: seq<Byte>, p: nat, b: Byte, more: seq<Byte>)
    requires p < |short| && |short| + |more| + 4 <= BUFFER_SIZE
    ensures var long, buffer := (WithCrc(short) + more)[p := b], Planted(short, p, b, more);
            buffer[..|long| + 2] == WithCrc(long) && buffer[p := short[p]][..|short| + 2] == WithCrc(short)
  {
    var long, buffer := (WithCrc(short) + more)[p := b], Planted(short, p, b, more);
    assert WithCrc(long)[..|long|] == long && WithCrc(short)[p] == short[p];
    hide WithCrc;
    assert buffer[..|long| + 2] == WithCrc(long);
    forall i | 0 <= i < |short| + 2 ensures buffer[p := short[p]][i] == WithCrc(short)[i] {
      assert buffer[i] == WithCrc(long)[..|long|][i];
    }
  }

  /** The byte count 4 read as 2: the second register is the CRC of an answer of one. */
  lemma FoolByCount(slave: Byte, fc: Byte, p: nat, size: nat)
    requires 1 <= slave <= 247 && 1 <= fc <= READ_INPUT_REGISTERS && p <= 2 < p + size && size <= 2
    ensures CanFool(slave, fc, p, size)
  {
    hide WithCrc, CrcOk, Planted, Check, CrcPlace, CanFool;
    var good, bad := TwoCounts(slave, fc);
    DataIsAccepted(slave, fc, 0, 2, good);
    DataIsAccepted(slave, fc, 0, 2, bad);
    Widened(slave, fc, 0, 2, good, 2, 2, p, size);
  }

  lemma TwoCounts(slave: Byte, fc: Byte) returns (good: seq<Byte>, bad: seq<Byte>)
    ensures |good| == BUFFER_SIZE && bad == good[2 := 2]
    ensures good[0] == bad[0] == slave && good[1] == bad[1] == fc && good[2] == 4
    ensures CrcOk(good, 7) && CrcOk(bad, 5)
  {
    hide WithCrc, CrcOk, Planted;
    var short := [slave, fc, 2, 0, 0];
    good := Planted(short, 2, 4, []);
    bad := good[2 := short[2]];
    BothCrcs(short, 2, 4, []);
    FirstBytes(short, 2, 4, []);
  }

  /** An answer of one register read as an exception: the register is the CRC of that exception. */
  lemma FoolByException(slave: Byte, fc: Byte, p: nat, size: nat)
    requires 1 <= slave <= 247 && 1 <= fc <= READ_INPUT_REGISTERS && p <= 1 < p + size && size <= 2
    ensures CanFool(slave, fc, p, size)
  {
    hide WithCrc, CrcOk, Planted, Check, CrcPlace, CanFool;
    var good, bad := TwoReadings(slave, fc, 2, []);
    DataIsAccepted(slave, fc, 0, 1, good);
    ExceptionIsAccepted(slave, fc, 0, 1, bad);
    Widened(slave, fc, 0, 1, good, 1, 0x80 + fc as int, p, size);
  }

  /** A frame that is right as an answer to `fc` and, but for byte 1, as an exception. */
  lemma TwoReadings(slave: Byte, fc: Byte, code: Byte, more: seq<Byte>) returns (good: seq<Byte>, bad: seq<Byte>)
    requires 1 <= fc <= 6 && |more| <= 1
    ensures good == Planted([slave, 0x80 + fc as int, code], 1, fc, more) && bad == good[1 := 0x80 + fc as int]
    ensures good[0] == bad[0] == slave && good[1] == fc && good[2] == bad[2] == code
    ensures CrcOk(good, 5 + |more|) && CrcOk(bad, 3)
  {
    hide WithCrc, CrcOk, Planted;
    var short: seq<Byte> := [slave, 0x80 + fc as int, code];
    good := Planted(short, 1, fc, more);
    bad := good[1 := short[1]];
    BothCrcs(short, 1, fc, more);
    FirstBytes(short, 1, fc, more);
  }

  /** The echo of a register write read as an exception: the address and the value hold the code and its CRC. */
  lemma FoolByWriteException(slave: Byte, p: nat, size: nat)
    requires 1 <= slave <= 247 && p <= 1 < p + size && size <= 2
    ensures CanFool(slave, WRITE_SINGLE_REGISTER, p, size)
  {
    hide WithCrc, CrcOk, Planted, Check, CrcPlace, LoadBig, CanFool;
    var good, bad := TwoReadings(slave, WRITE_SINGLE_REGISTER, 1, [0]);
    var memAddress, n := LoadBig(good[2..4]), LoadBig(good[4..6]);
    EchoIsAccepted(slave, WRITE_SINGLE_REGISTER, good);
    ExceptionIsAccepted(slave, WRITE_SINGLE_REGISTER, memAddress, n, bad);
    Widened(slave, WRITE_SINGLE_REGISTER, memAddress, n, good, 1, 0x86, p, size);
  }

  lemma FirstBytes(short: seq<Byte>, p: nat, b: Byte, more: seq<Byte>)
    requires p < |short| && |short| + |more| + 4 <= BUFFER_SIZE
    ensures forall i | 0 <= i < |short| :: Planted(short, p, b, more)[i] == if i == p then b else short[i]
  {
  }

  // ----- The code -----

  /** crc16 of the first bytes of a buffer, stored behind them. */
  method AppendCrc(buffer: array<Byte>, n: nat)
    requires n + 2 <= buffer.Length && n < 0x1_0000
    modifies buffer
    ensures buffer[..n + 2] == WithCrc(old(buffer[..n])) && buffer[n + 2..] == old(buffer[n + 2..])
  {
    hide Crc16, Bits, HalfOf, StoreHalf;
    var crc := Crc16Initial(0xFFFF, buffer, n);
    Put(buffer, n, StoreHalf(HalfOf(crc)));
  }

  /** The check of a CRC that lies behind the first bytes. */
  method CheckCrc(buffer: array<Byte>, n: nat) returns (ok: bool)
    requires n + 2 <= buffer.Length && n < 0x1_0000
    ensures ok <==> CrcOk(buffer[..], n)
  {
    hide Crc16, Bits, HalfOf, LoadHalf;
    var crc := Crc16Initial(0xFFFF, buffer, n);
    ok := LoadHalf(buffer[n..n + 2]) == HalfOf(crc);
    assert buffer[..][n..n + 2] == buffer[n..n + 2] && buffer[..][..n] == buffer[..n];
  }

  class Master {
    const buffer: array<Byte>                    // modbus_master_buffer
    var address: Byte
    var fc: Byte
    var memAddress: Half
    var n: Half

    constructor ()
      ensures fresh(buffer) && buffer.Length == BUFFER_SIZE
    {
      buffer := new Byte[BUFFER_SIZE](_ => 0);
      address, fc, memAddress, n := 0, 0, 0, 0;
    }

    /** The body the request labels share. */
    method BuildRequest(fc': Byte, memAddress': Half, quantity: Half)
      requires buffer.Length == BUFFER_SIZE
      modifies buffer
      ensures buffer[..REQUEST_SIZE] == WithCrc([old(buffer[0]), fc'] + StoreBig(memAddress') + StoreBig(quantity))
      ensures buffer[REQUEST_SIZE..] == old(buffer[REQUEST_SIZE..])
    {
      hide WithCrc, StoreBig;
      buffer[1] := fc';
      ghost var first := buffer[..2];
      assert first == [old(buffer[0]), fc'];
      SwapAndMove(buffer, 2, memAddress');
      assert buffer[..2] == first;
      assert buffer[2..4] == StoreBig(memAddress');
      ghost var second := buffer[..4];
      assert second == first + StoreBig(memAddress');
      SwapAndMove(buffer, 4, quantity);
      assert buffer[..6] == [old(buffer[0]), fc'] + StoreBig(memAddress') + StoreBig(quantity);
      AppendCrc(buffer, 6);
    }

    /** master_prepare_to_send, without the functions that carry data. */
    method PrepareToSend(slave: Byte, fc': Byte, memAddress': Half, n': Half) returns (status: Status, size: nat)
      requires buffer.Length == BUFFER_SIZE && !CarriesData(fc')
      modifies buffer
      ensures status == RequestStatus(slave, fc', n')
      ensures status == Success ==> size == REQUEST_SIZE && buffer[..size] == Request(slave, fc', memAddress', n')
      ensures status != Success ==> buffer[1..] == old(buffer[1..])
    {
      hide WithCrc, StoreBig;
      size := 0;
      if slave > 247 {
        return InvalidSlaveAddress, 0;
      }
      buffer[0] := slave;
      if fc' == READ_COILS || fc' == READ_DISCRETE_INPUTS {
        if n' < 1 || n' > 2000 {
          return InvalidNumber(fc'), 0;
        }
        var m := n' / 8;
        if n' % 8 != 0 {
          m := m + 1;
        }
        BuildRequest(fc', memAddress', m);
      } else if fc' == READ_HOLDING_REGISTERS || fc' == READ_INPUT_REGISTERS {
        if n' < 1 || n' > 125 {
          return InvalidNumber(fc'), 0;
        }
        BuildRequest(fc', memAddress', n');
      } else if fc' == WRITE_SINGLE_COIL {
        if n' == 0x0000 || n' == 0xFF00 {
          BuildRequest(fc', memAddress', n');
        } else {
          return InvalidSingleCoilState, 0;
        }
      } else if fc' == WRITE_SINGLE_REGISTER {
        BuildRequest(fc', memAddress', n');
      } else if Unimplemented(fc') {
        return UnimplementedFunction, 0;
      } else {
        return UnexpectedFunction, 0;
      }
      status, size := Success, REQUEST_SIZE;
    }

    /** The data a successful check hands over. */
    method CopyOut(from: nat, size: nat) returns (data: array<Byte>)
      requires from + size <= buffer.Length
      ensures fresh(data) && data[..] == buffer[from..from + size]
    {
      data := new Byte[size](_ => 0);
      forall i | 0 <= i < size {
        data[i] := buffer[from + i];
      }
    }

    method CheckReceiveException() returns (status: Status, data: array?<Byte>, dataSize: nat)
      requires buffer.Length == BUFFER_SIZE
      ensures Handed(CheckException(fc, buffer[..]), status, data, dataSize)
    {
      hide CrcOk;
      data, dataSize := null, 0;
      var ok := CheckCrc(buffer, 3);
      if !ok {
        return InvalidExceptionCrc(fc), null, 0;
      }
      if buffer[2] > 0 && buffer[2] < 5 {
        data := CopyOut(1, 2);
        assert buffer[..][1..3] == buffer[1..3];
        return SuccessWithErrorCode, data, 2;
      }
      status := UnexpectedErrorCode(fc);
    }

    method CheckReceiveRegisters() returns (status: Status, data: array?<Byte>, dataSize: nat)
      requires buffer.Length == BUFFER_SIZE
      ensures Handed(CheckRegisters(fc, buffer[..]), status, data, dataSize)
    {
      hide CrcOk, ToLittle, SwappedSoFar;
      data, dataSize := null, 0;
      var count: int := buffer[2];
      if count < 2 || count > 250 {
        return InvalidDataSizeOrDiscrete(fc), null, 0;
      }
      var ok := CheckCrc(buffer, 3 + count);
      if !ok {
        return InvalidCrc(fc), null, 0;
      }
      data := CopyOut(3, count);
      ghost var was := data[..];
      dataSize := count / 2;
      SwapArrayFast(data, 0, dataSize);
      SwappedIsToLittle(data[..], was, dataSize);
      assert buffer[..][3..3 + count] == buffer[3..3 + count];
      status := Success;
    }

    method CheckReceiveDiscrete() returns (status: Status, data: array?<Byte>, dataSize: nat)
      requires buffer.Length == BUFFER_SIZE
      ensures Handed(CheckDiscrete(fc, buffer[..]), status, data, dataSize)
    {
      hide CrcOk;
      data, dataSize := null, 0;
      var count: int := buffer[2];
      if count < 1 || count > 251 {
        return InvalidDataSizeOrDiscrete(fc), null, 0;
      }
      var ok := CheckCrc(buffer, 3 + count);
      if !ok {
        return InvalidCrc(fc), null, 0;
      }
      data := CopyOut(3, count);
      assert buffer[..][3..3 + count] == buffer[3..3 + count];
      status, dataSize := Success, count;
    }

    method CheckReceiveWriteDiscrete(uninitialised: Word) returns (status: Status, data: array?<Byte>, dataSize: nat)
      requires buffer.Length == BUFFER_SIZE
      ensures Handed(CheckWriteDiscrete(fc, memAddress, n, buffer[..]), status, data, dataSize)
    {
      hide CrcOk, LoadBig, StoreHalf;
      data, dataSize := null, 0;
      assert buffer[..][2..4] == buffer[2..4] && buffer[..][4..6] == buffer[4..6];
      var same := SwapAndCompare(buffer[2..4], memAddress);
      if !same {
        return WriteDiscreteAddressMismatch, null, 0;
      }
      var value := ReadAndSwap(buffer[4..6], uninitialised);
      if n != value {
        return InvalidDataSizeOrDiscrete(fc), null, 0;
      }
      var ok := CheckCrc(buffer, 6);
      if !ok {
        return InvalidCrc(fc), null, 0;
      }
      data := new Byte[2](_ => 0);
      Put(data, 0, StoreHalf(value));
      status, dataSize := Success, 2;
    }

    /** master_check_receive, without the functions that carry data. */
    method CheckReceive(uninitialised: Word) returns (status: Status, data: array?<Byte>, dataSize: nat)
      requires buffer.Length == BUFFER_SIZE && !CarriesData(fc)
      ensures Handed(Check(address, fc, memAddress, n, buffer[..]), status, data, dataSize)
    {
      hide CheckException, CheckRegisters, CheckDiscrete, CheckWriteDiscrete, LoadWord, StoreWord;
      data, dataSize := null, 0;
      assert buffer[..][..4] == buffer[..4];
      ZeroWord(buffer[..4]);
      if LoadWord(buffer[..4]) == 0 {
        return TimeoutOrNotResponding, null, 0;
      }
      if address != buffer[0] {
        return InvalidReceiveSlaveAddress, null, 0;
      }
      if Unimplemented(fc) {
        return UnimplementedFunction, null, 0;
      }
      if fc < 1 || fc > 6 {
        return UnexpectedReceiveFunction, null, 0;
      }
      if buffer[1] == 0x80 + fc {
        status, data, dataSize := CheckReceiveException();
      } else if buffer[1] != fc {
        status := UnexpectedResponseFunction(fc);
      } else if fc <= READ_DISCRETE_INPUTS {
        status, data, dataSize := CheckReceiveDiscrete();
      } else if fc <= READ_INPUT_REGISTERS {
        status, data, dataSize := CheckReceiveRegisters();
      } else {
        status, data, dataSize := CheckReceiveWriteDiscrete(uninitialised);
      }
    }
  }

  /** What the check returns through its pointers: no data unless it succeeded. */
  ghost predicate Handed(outcome: Outcome, status: Status, data: array?<Byte>, dataSize: nat)
    reads data
  {
    && status == outcome.status && dataSize == outcome.size
    && (data != null <==> status.Success? || status.SuccessWithErrorCode?)
    && (data != null ==> data[..] == outcome.payload)
  }

  lemma ZeroWord(s: seq<Byte>)
    requires |s| == 4
    ensures LoadWord(s) == 0 <==> s == [0, 0, 0, 0]
  {
    LoadAfterStore(0);
  }

  lemma SwappedIsToLittle(now: seq<Byte>, was: seq<Byte>, halves: nat)
    requires halves == |was| / 2 && SwappedSoFar(now, was, 0, halves)
    ensures now == ToLittle(was)
  {
    SwappedStretch(now, was, 0, halves);
    hide Swapped, SwappedSoFar;
    assert was[..0] == [];
    assert was[2 * halves..] == if |was| % 2 == 0 then [] else was[|was| - 1..];
    assert was[0..2 * halves] == if |was| % 2 == 0 then was else was[..|was| - 1];
  }

  class Slave {
    const buffer: array<Byte>                    // modbus_slave_buffer
    const area: array<Byte>                      // rs485_slave_holding_register_memory_area
    const readOnly: array<Byte>                  // its copy
    const address: Byte

    constructor (address: Byte)
      ensures Valid() && fresh(buffer) && fresh(area) && fresh(readOnly) && this.address == address
    {
      buffer := new Byte[BUFFER_SIZE](_ => 0);
      area := new Byte[2 * REGISTER_COUNT](_ => 0);
      readOnly := new Byte[2 * REGISTER_COUNT](_ => 0);
      this.address := address;
    }

    ghost predicate Valid()
    {
      && buffer.Length == BUFFER_SIZE && area.Length == readOnly.Length == 2 * REGISTER_COUNT
      && buffer != area && buffer != readOnly && area != readOnly
    }

    ghost function HoldingRegisters(): (rs: seq<Half>)
      requires Valid()
      reads area
      ensures |rs| == REGISTER_COUNT
    {
      Registers(area[..])
    }

    /** _set_slave_pdu_read_error_exception. */
    method SetErrorException(fc: Byte, code: Byte) returns (size: nat)
      requires Valid()
      modifies buffer
      ensures size == 5 && buffer[..size] == ExceptionFrame(old(buffer[0]), fc, code)
    {
      hide WithCrc;
      buffer[1] := (0x80 + fc as int) % 0x100;
      buffer[2] := code;
      assert buffer[..3] == [buffer[0], buffer[1], buffer[2]];
      AppendCrc(buffer, 3);
      size := 5;
    }

    /** One store of the copying loop: what is already in the buffer stays, and the bytes follow it swapped. The
        first of an odd start goes through a register of its own. */
    method Emit(dst: nat, ghost head: seq<Byte>, ghost done: seq<Byte>, bytes: seq<Byte>, first: bool,
                uninitialised: Word)
      requires Valid() && dst == 3 + |done| && dst + |bytes| <= buffer.Length && |head| == 3
      requires |done| % 2 == 0 && (|bytes| == 2 || |bytes| == 4)
      requires buffer[..dst] == head + Swapped(done)
      modifies buffer
      ensures buffer[..dst + |bytes|] == head + Swapped(done + bytes)
    {
      hide Swapped, LoadWord, StoreWord, StoreBig, LoadHalf;
      SwappedAppend(done, bytes);
      if |bytes| == 4 {
        SwapAndMoveTwo(buffer, dst, LoadWord(bytes));
      } else if first {
        SwapAndMoveUnaligned(buffer, dst, bytes, uninitialised);
      } else {
        BigIsSwappedHalf(bytes);
        SwapAndMove(buffer, dst, LoadHalf(bytes));
      }
    }

    /** The answer so far: three bytes, then the registers from `start` up to `next`, each high byte first. */
    ghost predicate Copied(head: seq<Byte>, start: nat, next: nat)
      requires Valid() && start <= next <= REGISTER_COUNT
      reads buffer, readOnly
    {
      buffer[..3 + 2 * (next - start)] == head + Swapped(readOnly[2 * start..2 * next])
    }

    /** The registers from `start` on, swapped into the answer: one alone if `start` is odd, then by pairs, then the
        one left over. */
    method CopyRegisters(start: nat, number: nat, uninitialised: Word)
      requires Valid() && start + number <= REGISTER_COUNT && 1 <= number
      modifies buffer
      ensures Copied(old(buffer[..3]), start, start + number)
    {
      hide Copied, Swapped;
      ghost var head := buffer[..3];
      NothingCopied(start);
      var next, left: nat := start, number;
      if start % 2 == 1 {
        EmitFrom(start, next, 1, head, true, uninitialised);
        next, left := next + 1, left - 1;
      }
      while left > 1
        invariant start <= next && next + left == start + number && Copied(head, start, next)
      {
        EmitFrom(start, next, 2, head, false, uninitialised);
        next, left := next + 2, left - 2;
      }
      if left == 1 {
        EmitFrom(start, next, 1, head, false, uninitialised);
      }
    }

    lemma NothingCopied(start: nat)
      requires Valid() && start <= REGISTER_COUNT
      ensures Copied(buffer[..3], start, start)
    {
      EmptySwap();
      assert readOnly[2 * start..2 * start] == [];
    }

    /** The next one or two registers. */
    method EmitFrom(start: nat, next: nat, count: nat, ghost head: seq<Byte>, first: bool, uninitialised: Word)
      requires Valid() && 1 <= count <= 2 && |head| == 3
      requires start <= next && next + count <= REGISTER_COUNT && Copied(head, start, next)
      modifies buffer
      ensures Copied(head, start, next + count)
    {
      hide Swapped;
      ghost var done := readOnly[2 * start..2 * next];
      var bytes := readOnly[2 * next..2 * (next + count)];
      assert |done| == 2 * (next - start) && |bytes| == 2 * count;
      assert done + bytes == readOnly[2 * start..2 * (next + count)];
      Emit(3 + 2 * (next - start), head, done, bytes, first, uninitialised);
    }

    /** The addressed registers, copied from the shared area under its lock. */
    method CopyArea(start: nat, number: nat)
      requires Valid() && start + number <= REGISTER_COUNT
      modifies readOnly
      ensures readOnly[2 * start..2 * (start + number)] == area[2 * start..2 * (start + number)]
    {
      Put(readOnly, 2 * start, area[2 * start..2 * (start + number)]);
    }

    method SetByteCount(count: nat, ghost head: seq<Byte>, ghost payload: seq<Byte>)
      requires Valid() && |head| == 3 && count == |payload| <= 2 * REGISTER_COUNT
      requires buffer[..3 + count] == head + payload
      modifies buffer
      ensures buffer[..3 + count] == [head[0], head[1], count] + payload && buffer[0] == head[0]
    {
      ghost var before := buffer[..3 + count];
      assert before[0] == head[0] && before[1] == head[1] && before[3..] == payload;
      buffer[2] := count;
      assert buffer[..3 + count] == [buffer[0], buffer[1], buffer[2]] + before[3..];
    }

    /** The positive answer, from the copy of the registers to the CRC. */
    method SetRegisters(start: nat, number: nat, uninitialised: Word) returns (size: nat)
      requires Valid() && start + number <= REGISTER_COUNT && 1 <= number && buffer[1] == READ_HOLDING_REGISTERS
      modifies readOnly, buffer
      ensures size == 5 + 2 * number
      ensures buffer[..size] == RegistersFrame(old(buffer[0]), HoldingRegisters()[start..start + number])
    {
      hide WithCrc, Swapped, Little, Big, Registers;
      CopyArea(start, number);
      ghost var rs := HoldingRegisters()[start..start + number];
      AreaSlice(start, number);
      CopyRegisters(start, number, uninitialised);
      SwappedRegisters(rs);
      SetByteCount(2 * number, old(buffer[..3]), Big(rs));
      AppendCrc(buffer, 3 + 2 * number);
      size := 5 + 2 * number;
    }

    lemma AreaSlice(start: nat, number: nat)
      requires Valid() && start + number <= REGISTER_COUNT
      ensures area[2 * start..2 * (start + number)] == Little(HoldingRegisters()[start..start + number])
    {
      LittleSlice(HoldingRegisters(), start, number);
      assert area[..][2 * start..2 * (start + number)] == area[2 * start..2 * (start + number)];
    }

    /** slave_send_resp; `locked` is whether the area's lock was had in time. */
    method SendResp(locked: bool, uninitialised: Word) returns (status: SlaveStatus, sent: bool, size: nat)
      requires Valid()
      modifies buffer, readOnly
      ensures var answer := Reply(address, HoldingRegisters(), old(buffer[..]), locked);
              && status == answer.status
              && (sent <==> answer.bytes != [])
              && (sent ==> size <= buffer.Length && buffer[..size] == answer.bytes)
    {
      hide CrcOk, LoadBig, ExceptionFrame, RegistersFrame, Registers, WithCrc;
      sent, size := false, 0;
      if buffer[0] != address {
        return DoesNotMatch, false, 0;
      }
      var ok := CheckCrc(buffer, 6);
      if !ok {
        return InvalidCrc16, false, 0;
      }
      assert buffer[..][2..4] == buffer[2..4] && buffer[..][4..6] == buffer[4..6];
      var fc := buffer[1];
      if fc != READ_HOLDING_REGISTERS {
        size := SetErrorException(fc, 1);
        ExceptionSize(address, fc, 1);
        return FunctionNotSupported, true, size;
      }
      var number: Half := ReadAndSwap(buffer[4..6], uninitialised);
      if number > 125 || number < 1 {
        size := SetErrorException(fc, 3);
        ExceptionSize(address, fc, 3);
        return QuantityOutOfBounds, true, size;
      }
      var start: Half := ReadAndSwap(buffer[2..4], uninitialised);
      if start < START_ADDRESS || start as int + number as int > START_ADDRESS + REGISTER_COUNT {
        size := SetErrorException(fc, 2);
        ExceptionSize(address, fc, 2);
        return MemoryOutOfBounds, true, size;
      }
      if !locked {
        return CopyTimeout, false, 0;
      }
      var first: int := start - START_ADDRESS;
      size := SetRegisters(first, number, uninitialised);
      RegistersSize(address, HoldingRegisters()[first..first + number as int]);
      status, sent := SlaveOk, true;
    }
  }

  /** One exchange over a wire that delivers: the slave's receiver fills its buffer, and the master's, whose first
      word the receive interrupt has cleared, is filled by the answer. */
  method Deliver(master: Master, slave: Slave, fc: Byte, memAddress: Half, n: Half, uninitialised: Word)
    returns (status: Status, data: array?<Byte>, dataSize: nat)
    requires master.buffer.Length == BUFFER_SIZE && slave.Valid()
    requires master.buffer != slave.buffer && master.buffer != slave.area && master.buffer != slave.readOnly
    requires 1 <= slave.address && 1 <= fc <= 6
    modifies master, master.buffer, slave.buffer, slave.readOnly
    ensures if RequestStatus(slave.address, fc, n) != Success then
              status == RequestStatus(slave.address, fc, n) && data == null
            else
              data != null
              && AsPromised(fc, memAddress, n, slave.HoldingRegisters(), Outcome(status, data[..], dataSize))
    ensures slave.HoldingRegisters() == old(slave.HoldingRegisters())
  {
    hide CrcOk, WithCrc, Request, Reply, Check, AsPromised, Registers, RequestStatus;
    ghost var rs := slave.HoldingRegisters();
    master.address, master.fc, master.memAddress, master.n := slave.address, fc, memAddress, n;
    var size: nat;
    status, size := master.PrepareToSend(slave.address, fc, memAddress, n);
    data, dataSize := null, 0;
    if status != Success {
      return;
    }
    Put(slave.buffer, 0, master.buffer[..size]);
    ghost var frame := slave.buffer[..];
    assert frame[..REQUEST_SIZE] == Request(slave.address, fc, memAddress, n);
    var slaveStatus, sent, answered := slave.SendResp(true, uninitialised);
    assert frame == Request(slave.address, fc, memAddress, n) + frame[REQUEST_SIZE..];
    Put(master.buffer, 0, [0, 0, 0, 0]);
    ghost var stale := master.buffer[..];
    EndToEnd(slave.address, fc, memAddress, n, rs, frame[REQUEST_SIZE..], stale);
    Put(master.buffer, 0, slave.buffer[..answered]);
    assert master.buffer[..] == Received(stale, slave.buffer[..answered]);
    status, data, dataSize := master.CheckReceive(uninitialised);
    PromiseHasData(fc, memAddress, n, rs, Check(slave.address, fc, memAddress, n, master.buffer[..]));
  }

  /** What comes of it, in numbers: which requests are sent at all, and what each of them brings back. */
  method Exchange(master: Master, slave: Slave, fc: Byte, memAddress: Half, n: Half, uninitialised: Word)
    returns (status: Status, data: array?<Byte>, dataSize: nat)
    requires master.buffer.Length == BUFFER_SIZE && slave.Valid()
    requires master.buffer != slave.buffer && master.buffer != slave.area && master.buffer != slave.readOnly
    requires 1 <= slave.address && 1 <= fc <= 6
    modifies master, master.buffer, slave.buffer, slave.readOnly
    ensures if RequestStatus(slave.address, fc, n) != Success then
              status == RequestStatus(slave.address, fc, n) && data == null
            else
              data != null
              && AsPromised(fc, memAddress, n, slave.HoldingRegisters(), Outcome(status, data[..], dataSize))
    ensures slave.HoldingRegisters() == old(slave.HoldingRegisters())
    ensures slave.address <= 247 && fc == 3 && 1 <= n
            && 0x4000 <= memAddress && memAddress as int + n as int <= 0x4008 ==>
              var i: int := memAddress - 0x4000;
              && status == Success && data != null && dataSize == n && data.Length == 2 * n as int
              && Registers(data[..]) == old(slave.HoldingRegisters())[i..i + n as int]
    ensures slave.address <= 247 && fc == 3 && 1 <= n <= 125
            && (memAddress < 0x4000 || memAddress as int + n as int > 0x4008) ==>
              status == SuccessWithErrorCode && data != null && data[..] == [0x83, 2]
    ensures slave.address <= 247 && ((fc <= 2 && 1 <= n <= 2000) || (fc == 4 && 1 <= n <= 125) || fc == 6
                                     || (fc == 5 && (n == 0x0000 || n == 0xFF00))) ==>
              status == SuccessWithErrorCode && data != null && data[..] == [0x80 + fc as int, 1]
    ensures slave.address > 247 ==> status == InvalidSlaveAddress && data == null
  {
    AcceptedIff(slave.address, fc, n);
    RefusedAs(slave.address, fc, n);
    hide RequestStatus, AsPromised, Registers;
    status, data, dataSize := Deliver(master, slave, fc, memAddress, n, uninitialised);
    if RequestStatus(slave.address, fc, n) == Success {
      PromiseInNumbers(fc, memAddress, n, slave.HoldingRegisters(), Outcome(status, data[..], dataSize));
    }
  }

  lemma PromiseInNumbers(fc: Byte, memAddress: Half, n: Half, rs: seq<Half>, o: Outcome)
    requires |rs| == REGISTER_COUNT && 1 <= fc <= 6 && AsPromised(fc, memAddress, n, rs, o)
    ensures fc != 3 ==> o.status == SuccessWithErrorCode && o.payload == [0x80 + fc as int, 1]
    ensures fc == 3 && (memAddress < 0x4000 || memAddress as int + n as int > 0x4008) ==>
              o.status == SuccessWithErrorCode && o.payload == [0x83, 2]
    ensures fc == 3 && 0x4000 <= memAddress && memAddress as int + n as int <= 0x4008 ==>
              var i: int := memAddress - 0x4000;
              && o.status == Success && o.size == n && |o.payload| == 2 * n as int
              && Registers(o.payload) == rs[i..i + n as int]
  {
    hide Registers;
  }

  lemma PromiseHasData(fc: Byte, memAddress: Half, n: Half, rs: seq<Half>, outcome: Outcome)
    requires |rs| == REGISTER_COUNT && AsPromised(fc, memAddress, n, rs, outcome)
    ensures outcome.status == Success || outcome.status == SuccessWithErrorCode
  {
    hide Registers;
  }

  lemma EmptySwap()
    ensures Swapped([]) == []
  {
  }

  lemma BigIsSwappedHalf(s: seq<Byte>)
    requires |s| == 2
    ensures StoreBig(LoadHalf(s)) == Swapped(s)
  {
  }
}
