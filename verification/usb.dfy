/** USB transfers in packets: the packet memory, bulk IN transfers of the CDC class and the data stage of endpoint 0. */
module Usb {
  import opened Bytes
  import opened Memory

  const MAX_PACKET := 64                         // of endpoint 0 and of the CDC data endpoint

  type Packet = seq<Byte>

  // ----- What goes over the bus -----

  /** Data cut into full packets and what is left; no data at all is one empty packet. */
  ghost function Packets(data: seq<Byte>): (ps: seq<Packet>)
    ensures ps != []
    decreases |data|
  {
    if |data| <= MAX_PACKET then [data] else [data[..MAX_PACKET]] + Packets(data[MAX_PACKET..])
  }

  ghost function Joined(ps: seq<Packet>): seq<Byte>
  {
    if ps == [] then [] else ps[0] + Joined(ps[1..])
  }

  ghost function ZeroPacket(wanted: bool): seq<Packet>
  {
    if wanted then [[]] else []
  }

  /** A bulk transfer of the CDC class. */
  ghost function CdcPackets(data: seq<Byte>): seq<Packet>
  {
    Packets(data) + ZeroPacket(|data| > 0 && |data| % MAX_PACKET == 0)
  }

  /** The data stage of a control read for which the host has asked for `wLength` bytes. */
  ghost function ControlPackets(data: seq<Byte>, wLength: nat): seq<Packet>
  {
    Packets(data) + ZeroPacket(|data| >= MAX_PACKET && |data| % MAX_PACKET == 0 && |data| < wLength)
  }

  lemma {:induction false} PacketsHoldTheData(data: seq<Byte>)
    ensures Joined(Packets(data)) == data
    decreases |data|
  {
    if |data| <= MAX_PACKET {
      assert Packets(data) == [data];
      assert Joined([data]) == data + Joined([]);
    } else {
      PacketsHoldTheData(data[MAX_PACKET..]);
      assert data == data[..MAX_PACKET] + data[MAX_PACKET..];
    }
  }

  /** Every packet but the last is full, and the last is full exactly when the data is a positive multiple of
      packets. */
  lemma {:induction false} OnlyTheLastIsShort(data: seq<Byte>)
    ensures var ps := Packets(data);
            && (forall i | 0 <= i < |ps| - 1 :: |ps[i]| == MAX_PACKET)
            && |ps[|ps| - 1]| <= MAX_PACKET
            && (|ps[|ps| - 1]| == MAX_PACKET <==> |data| > 0 && |data| % MAX_PACKET == 0)
    decreases |data|
  {
    if |data| > MAX_PACKET {
      var rest := Packets(data[MAX_PACKET..]);
      OnlyTheLastIsShort(data[MAX_PACKET..]);
      assert |data[MAX_PACKET..]| % MAX_PACKET == |data| % MAX_PACKET;
      var ps := Packets(data);
      assert ps == [data[..MAX_PACKET]] + rest;
      assert ps[|ps| - 1] == rest[|rest| - 1];
      forall i | 0 <= i < |ps| - 1 ensures |ps[i]| == MAX_PACKET {
        if i > 0 {
          assert ps[i] == rest[i - 1];
        }
      }
    }
  }

  lemma {:induction false} JoinedAppend(a: seq<Packet>, b: seq<Packet>)
    ensures Joined(a + b) == Joined(a) + Joined(b)
  {
    if a == [] {
      assert a + b == b;
    } else {
      assert (a + b)[0] == a[0] && (a + b)[1..] == a[1..] + b;
      JoinedAppend(a[1..], b);
      JoinedFirst(a);
      JoinedFirst(a + b);
      hide Joined;
    }
  }

  lemma JoinedFirst(ps: seq<Packet>)
    requires ps != []
    ensures Joined(ps) == ps[0] + Joined(ps[1..])
  {
  }

  /** A CDC transfer is the buffer, and ends with its one short packet, as section 5.8.3 of the USB 2.0 specification
      asks: the host can tell where it ends. */
  lemma CdcTransferIsDelimited(data: seq<Byte>)
    ensures var ps := CdcPackets(data);
            && ps != [] && Joined(ps) == data
            && (forall i | 0 <= i < |ps| - 1 :: |ps[i]| == 64) && |ps[|ps| - 1]| < 64
  {
    PacketsHoldTheData(data);
    OnlyTheLastIsShort(data);
    hide Packets;
    JoinedAppend(Packets(data), ZeroPacket(true));
    assert Joined([[]]) == [] + Joined([]);
    assert Packets(data) + [] == Packets(data);
  }

  /** A data stage is the buffer, and ends with a short packet unless the host has all it asked for (section 5.5.3). */
  lemma DataStageIsDelimited(data: seq<Byte>, wLength: nat)
    requires |data| <= wLength
    ensures var ps := ControlPackets(data, wLength);
            && ps != [] && Joined(ps) == data
            && (forall i | 0 <= i < |ps| - 1 :: |ps[i]| == 64) && |ps[|ps| - 1]| <= 64
            && (|ps[|ps| - 1]| == 64 ==> |data| == wLength)
  {
    PacketsHoldTheData(data);
    OnlyTheLastIsShort(data);
    hide Packets;
    JoinedAppend(Packets(data), ZeroPacket(true));
    assert Joined([[]]) == [] + Joined([]);
    assert Packets(data) + [] == Packets(data);
  }

  lemma {:induction false} PacketCount(data: seq<Byte>)
    ensures |Packets(data)| == if data == [] then 1 else (|data| + MAX_PACKET - 1) / MAX_PACKET
    decreases |data|
  {
    if |data| > MAX_PACKET {
      PacketCount(data[MAX_PACKET..]);
    }
  }

  /** How many packets there are, and when the last one is empty: a zero-length packet closes exactly the transfers that
      need one. */
  lemma ZeroPacketRule(data: seq<Byte>, wLength: nat)
    ensures var ps := CdcPackets(data);
            |ps| == |data| / 64 + 1 && (ps[|ps| - 1] == [] <==> |data| % 64 == 0)
    ensures var ps := ControlPackets(data, wLength);
            && |ps| == (if data == [] then 1 else if |data| < wLength then |data| / 64 + 1 else (|data| + 63) / 64)
            && (ps[|ps| - 1] == [] <==> data == [] || (|data| % 64 == 0 && |data| < wLength))
  {
    PacketCount(data);
    LastPacket(data);
    hide Packets;
  }

  lemma {:induction false} LastPacket(data: seq<Byte>)
    ensures Packets(data)[|Packets(data)| - 1] == [] <==> data == []
    decreases |data|
  {
    if |data| > MAX_PACKET {
      LastPacket(data[MAX_PACKET..]);
    }
  }

  /** What goes out for a CDC transfer of up to 32 bits of length: the length handed on has 16. */
  ghost function CdcTransfer(data: seq<Byte>): seq<Packet>
  {
    Packets(data[..|data| % 0x1_0000]) + ZeroPacket(|data| > 0 && |data| % MAX_PACKET == 0)
  }

  /** Of what goes out only the length's low 16 bits count: it is the whole buffer if and only if its length has no
      more than these. */
  lemma TransferIsWholeIff(data: seq<Byte>)
    ensures Joined(CdcTransfer(data)) == data[..|data| % 0x1_0000]
    ensures Joined(CdcTransfer(data)) == data <==> |data| < 0x1_0000
    ensures CdcTransfer(data) == CdcPackets(data) <==> |data| < 0x1_0000
  {
    var part := data[..|data| % 0x1_0000];
    PacketsHoldTheData(part);
    CdcTransferIsDelimited(data);
    assert |data| < 0x1_0000 ==> part == data;
    hide Packets;
    JoinedAppend(Packets(part), ZeroPacket(true));
    assert Joined([[]]) == [] + Joined([]);
    assert Packets(part) + [] == Packets(part);
  }

  /** Of 65536 bytes none goes out, only an empty packet and another to close the transfer. */
  lemma LongTransferIsEmpty(data: seq<Byte>)
    requires |data| == 0x1_0000
    ensures CdcTransfer(data) == [[], []]
  {
    assert data[..0] == [];
  }

  // ----- The packet memory -----

  /** The bytes of a packet in the memory, two to a half-word. */
  ghost function PacketAt(pma: seq<Half>, at: nat, n: nat): (p: Packet)
    requires at + (n + 1) / 2 <= |pma|
    ensures |p| == n
  {
    Little(pma[at..at + (n + 1) / 2])[..n]
  }

  lemma {:induction false} LittleAppend(a: seq<Half>, x: Half)
    ensures Little(a + [x]) == Little(a) + StoreHalf(x)
  {
    hide StoreHalf;
    if a == [] {
      assert a + [x] == [x];
      assert [x][1..] == [];
    } else {
      LittleAppend(a[1..], x);
      assert (a + [x])[1..] == a[1..] + [x];
    }
  }

  /** USB_WritePMA; it reads one byte beyond a buffer of odd length. */
  method WritePMA(mem: array<Byte>, buf: nat, pma: array<Half>, at: nat, n: nat)
    requires buf + (n + 1) / 2 * 2 <= mem.Length && at + (n + 1) / 2 <= pma.Length
    modifies pma
    ensures PacketAt(pma[..], at, n) == mem[buf..buf + n]
    ensures pma[..at] == old(pma[..at]) && pma[at + (n + 1) / 2..] == old(pma[at + (n + 1) / 2..])
  {
    hide Little, StoreHalf, LoadHalf;
    var count := (n + 1) / 2;
    ghost var words, bytes := count, mem[..];
    var from, word := buf, at;
    EmptyLittle();
    assert pma[at..at] == [] && bytes[buf..buf] == [];
    while count > 0
      invariant 0 <= count <= words && word + count == at + words && from == buf + 2 * (word - at)
      invariant Little(pma[at..word]) == bytes[buf..from]
      invariant pma[..at] == old(pma[..at]) && pma[at + words..] == old(pma[at + words..])
    {
      ghost var before := pma[at..word];
      var value := LoadHalf([mem[from], mem[from + 1]]);
      LittleAppend(before, value);
      TwoMore(bytes, buf, from);
      pma[word] := value;
      assert pma[at..word + 1] == before + [value];
      word := word + 1;
      from := from + 2;
      count := count - 1;
    }
    assert pma[..][at..at + words] == pma[at..at + words];
    assert bytes[buf..buf + 2 * words][..n] == mem[buf..buf + n];
  }

  lemma TwoMore(s: seq<Byte>, from: nat, to: nat)
    requires from <= to && to + 2 <= |s|
    ensures s[from..to + 2] == s[from..to] + [s[to], s[to + 1]]
  {
  }

  lemma EmptyLittle()
    ensures Little([]) == []
  {
  }

  lemma {:induction false} LittleAt(rs: seq<Half>, i: nat)
    requires i < |rs|
    ensures Little(rs)[2 * i] == rs[i] % 0x100 && Little(rs)[2 * i + 1] == rs[i] / 0x100
  {
    if i > 0 {
      LittleAt(rs[1..], i - 1);
    }
  }

  /** USB_ReadPMA. */
  method ReadPMA(mem: array<Byte>, buf: nat, pma: array<Half>, at: nat, n: nat)
    requires buf + n <= mem.Length && at + (n + 1) / 2 <= pma.Length
    modifies mem
    ensures mem[buf..buf + n] == PacketAt(pma[..], at, n)
    ensures mem[..buf] == old(mem[..buf]) && mem[buf + n..] == old(mem[buf + n..])
  {
    hide Little;
    ghost var rs := pma[..][at..at + (n + 1) / 2];
    ghost var bytes := Little(rs);
    var count := n / 2;
    var to, word := buf, at;
    while count > 0
      invariant 0 <= count <= n / 2 && word + count == at + n / 2 && to == buf + 2 * (word - at)
      invariant forall i | 0 <= i < to - buf :: mem[buf + i] == bytes[i]
      invariant mem[..buf] == old(mem[..buf]) && mem[buf + n..] == old(mem[buf + n..])
    {
      LittleAt(rs, word - at);
      var value: Half := pma[word];
      mem[to] := value % 0x100;
      mem[to + 1] := value / 0x100;
      word := word + 1;
      to := to + 2;
      count := count - 1;
    }
    if n % 2 != 0 {
      LittleAt(rs, word - at);
      var value: Half := pma[word];
      mem[to] := value % 0x100;
    }
    assert forall i | 0 <= i < n :: mem[buf + i] == bytes[i];
  }

  /** What is written to the packet memory is what is read back. */
  method WriteThenRead(mem: array<Byte>, buf: nat, pma: array<Half>, at: nat, n: nat, back: array<Byte>)
    requires buf + (n + 1) / 2 * 2 <= mem.Length && at + (n + 1) / 2 <= pma.Length && n <= back.Length && back != mem
    modifies pma, back
    ensures back[..n] == mem[buf..buf + n]
  {
    WritePMA(mem, buf, pma, at, n);
    ReadPMA(back, 0, pma, at, n);
    assert back[0..n] == back[..n];
  }

  // ----- Transfers -----

  /** One single-buffered IN endpoint: its transfer, and the packet that waits in the packet memory for the host. */
  class InEndpoint {
    const mem: array<Byte>                       // where transfer buffers are
    const pma: array<Half>
    const pmaAddress: nat
    var xferBuff: nat
    var xferLen: nat
    var txCount: nat
    var armed: bool                              // the endpoint's transmit status is VALID

    constructor (mem: array<Byte>, pma: array<Half>, pmaAddress: nat)
      requires pmaAddress + MAX_PACKET / 2 <= pma.Length
      ensures Valid() && !armed && this.mem == mem && this.pma == pma && this.pmaAddress == pmaAddress
    {
      this.mem, this.pma, this.pmaAddress := mem, pma, pmaAddress;
      xferBuff, xferLen, txCount, armed := 0, 0, 0, false;
    }

    /** The packet memory has room for a packet, and while one waits the rest of the transfer is in memory. */
    ghost predicate Valid()
      reads this
    {
      pmaAddress + MAX_PACKET / 2 <= pma.Length && txCount <= MAX_PACKET && (armed ==> InMemory())
    }

    /** A byte can be read behind the transfer's last. */
    ghost predicate InMemory()
      reads this
    {
      xferBuff + xferLen < mem.Length
    }

    ghost function Waiting(): Packet
      requires Valid()
      reads this, pma
    {
      PacketAt(pma[..], pmaAddress, txCount)
    }

    /** What is left of the transfer, the waiting packet included. */
    ghost function Left(): seq<Byte>
      requires InMemory()
      reads this, mem
    {
      mem[xferBuff..xferBuff + xferLen]
    }

    /** USB_EPStartXfer for an IN endpoint. */
    method StartXfer()
      requires Valid() && InMemory()
      modifies this`txCount, this`armed, pma
      ensures Valid() && armed && Waiting() == Packets(Left())[0] && txCount == |Waiting()|
    {
      var len := if xferLen > MAX_PACKET then MAX_PACKET else xferLen;
      FirstPacket(Left());
      assert Left()[..len] == mem[xferBuff..xferBuff + len];
      hide Packets, PacketAt;
      WritePMA(mem, xferBuff, pma, pmaAddress, len);
      txCount := len;
      armed := true;
    }

    /** HAL_PCD_EP_Transmit. */
    method Transmit(buf: nat, len: nat)
      requires Valid() && buf + len < mem.Length
      modifies this, pma
      ensures Valid() && armed && Left() == mem[buf..buf + len] && Waiting() == Packets(Left())[0]
      ensures xferBuff == buf && xferLen == len && txCount == |Waiting()|
    {
      xferBuff := buf;
      xferLen := len;
      StartXfer();
    }
  }

  lemma FirstPacket(data: seq<Byte>)
    ensures Packets(data)[0] == data[..if |data| > MAX_PACKET then MAX_PACKET else |data|]
    ensures Packets(data)[1..] == if |data| > MAX_PACKET then Packets(data[MAX_PACKET..]) else []
  {
  }

  lemma OneTaken(sent: seq<Packet>, ps: seq<Packet>, zero: seq<Packet>, goal: seq<Packet>)
    requires ps != [] && sent + (ps + zero) == goal
    ensures (sent + [ps[0]]) + (ps[1..] + zero) == goal && |sent| + 1 <= |goal|
  {
    assert ps == [ps[0]] + ps[1..];
  }

  lemma NoneLeft(sent: seq<Packet>, zero: seq<Packet>)
    ensures sent + ([] + zero) == sent + zero
  {
  }

  lemma OnlyZeroPacket(sent: seq<Packet>)
    ensures Packets([]) == [[]] && ZeroPacket(false) == []
    ensures sent + ([] + ZeroPacket(true)) == sent + (Packets([]) + ZeroPacket(false))
    ensures sent + ([] + ZeroPacket(false)) == sent
  {
  }

  datatype UsbStatus = UsbOk | UsbBusy | UsbFail

  /** The CDC class's transmissions. `sent` are the packets the host has taken, `goal` what they must come to be. */
  class Cdc {
    const ep: InEndpoint
    const classData: bool                        // pClassData is not NULL
    var txState: bool
    var totalLength: nat
    ghost var sent: seq<Packet>
    ghost var goal: seq<Packet>

    constructor (ep: InEndpoint, classData: bool)
      requires ep.Valid() && !ep.armed
      ensures Valid() && this.ep == ep && this.classData == classData && !txState && sent == []
    {
      this.ep, this.classData := ep, classData;
      txState, totalLength := false, 0;
      sent, goal := [], [];
    }

    /** The packets still to be taken. */
    ghost function Plan(): seq<Packet>
      requires ep.InMemory()
      reads this, ep, ep.mem
    {
      Packets(ep.Left()) + ZeroPacket(totalLength > 0 && totalLength % MAX_PACKET == 0)
    }

    ghost predicate Valid()
      reads this, ep, ep.mem, ep.pma
    {
      && ep.Valid() && ep.armed == txState
      && (txState ==>
            && classData && ep.Waiting() == Packets(ep.Left())[0] && ep.txCount == |ep.Waiting()|
            && sent + Plan() == goal)
    }

    /** USBD_CDC_TransmitPacket, for the buffer and the length that have been set. */
    method TransmitPacket(buf: nat, length: nat) returns (status: UsbStatus)
      requires Valid() && buf + length < ep.mem.Length
      modifies this, ep, ep.pma
      ensures Valid() && sent == old(sent)
      ensures status == if !classData then UsbFail else if old(txState) then UsbBusy else UsbOk
      ensures status == UsbOk ==> txState && goal == sent + CdcTransfer(ep.mem[buf..buf + length])
      ensures status != UsbOk ==> txState == old(txState) && goal == old(goal)
    {
      hide Packets, PacketAt;
      if classData {
        if !txState {
          txState := true;
          totalLength := length;
          ep.Transmit(buf, length % 0x1_0000);
          goal := sent + CdcTransfer(ep.mem[buf..buf + length]);
          assert ep.mem[buf..buf + length][..length % 0x1_0000] == ep.Left();
          status := UsbOk;
        } else {
          status := UsbBusy;
        }
      } else {
        status := UsbFail;
      }
    }

    /** USBD_CDC_DataIn. */
    method DataIn()
      requires ep.Valid() && ep.mem.Length > 0 && !ep.armed && txState && classData
      requires sent + ZeroPacket(totalLength > 0 && totalLength % MAX_PACKET == 0) == goal
      modifies this`txState, this`totalLength, ep, ep.pma
      ensures Valid() && (!txState ==> sent == goal)
    {
      hide PacketAt;
      if totalLength > 0 && totalLength % MAX_PACKET == 0 {
        totalLength := 0;
        ep.Transmit(0, 0);
      } else {
        txState := false;
      }
    }

    /** The host has taken the waiting packet: the IN path of PCD_EP_ISR_Handler for a single-buffered endpoint. */
    method InComplete()
      requires Valid() && txState
      modifies this`txState, this`totalLength, this`sent, ep, ep.pma
      ensures Valid() && sent == old(sent) + [old(ep.Waiting())] && |sent| <= |goal|
      ensures !txState ==> sent == goal
    {
      hide Packets, PacketAt, ZeroPacket;
      FirstPacket(ep.Left());
      OneTaken(sent, Packets(ep.Left()), ZeroPacket(totalLength > 0 && totalLength % MAX_PACKET == 0), goal);
      NoneLeft(sent + [ep.Waiting()], ZeroPacket(totalLength > 0 && totalLength % MAX_PACKET == 0));
      ghost var rest := ep.Left();
      sent := sent + [ep.Waiting()];
      ep.armed := false;
      var txPctSize := ep.txCount;
      if ep.xferLen > txPctSize {
        ep.xferLen := ep.xferLen - txPctSize;
      } else {
        ep.xferLen := 0;
      }
      if ep.xferLen == 0 {
        DataIn();
      } else {
        ep.xferBuff := ep.xferBuff + txPctSize;
        assert ep.Left() == rest[MAX_PACKET..];
        ep.StartXfer();
      }
    }

    /** The host takes packets until the class is ready again: it has had exactly the transfer. */
    method RunTransfer(buf: nat, length: nat)
      requires Valid() && classData && !txState && buf + length < ep.mem.Length
      modifies this, ep, ep.pma
      ensures Valid() && !txState && sent == old(sent) + CdcTransfer(ep.mem[buf..buf + length])
      ensures length < 0x1_0000 ==> sent == old(sent) + CdcPackets(ep.mem[buf..buf + length])
    {
      hide CdcPackets, CdcTransfer, Packets, PacketAt;
      TransferIsWholeIff(ep.mem[buf..buf + length]);
      var _ := TransmitPacket(buf, length);
      ghost var all := goal;
      while txState
        invariant Valid() && goal == all && (!txState ==> sent == goal)
        decreases |all| - |sent|
      {
        GoalAhead();
        InComplete();
      }
    }

    lemma GoalAhead()
      requires Valid() && txState
      ensures |sent| < |goal|
    {
    }
  }

  datatype Ep0State = Ep0Idle | DataInStage | StatusOut

  /** The data stage of a control read on endpoint 0. */
  class Control {
    const ep: InEndpoint
    var ep0State: Ep0State
    var totalLength: nat
    var remLength: nat
    var ep0DataLen: nat                          // the host's wLength
    var outReady: bool                           // the OUT endpoint is prepared to receive
    var inStalled: bool
    ghost var sent: seq<Packet>
    ghost var goal: seq<Packet>
    ghost var statusStages: nat

    constructor (ep: InEndpoint)
      requires ep.Valid() && !ep.armed
      ensures Valid() && this.ep == ep && ep0State == Ep0Idle && statusStages == 0
    {
      this.ep := ep;
      ep0State, totalLength, remLength, ep0DataLen := Ep0Idle, 0, 0, 0;
      outReady, inStalled := false, false;
      sent, goal, statusStages := [], [], 0;
    }

    ghost predicate WantsZero()
      reads this`totalLength, this`ep0DataLen
    {
      totalLength % MAX_PACKET == 0 && totalLength >= MAX_PACKET && totalLength < ep0DataLen
    }

    ghost function Plan(): seq<Packet>
      requires ep.InMemory()
      reads this, ep, ep.mem
    {
      Packets(ep.Left()) + ZeroPacket(WantsZero())
    }

    ghost predicate Valid()
      reads this, ep, ep.mem, ep.pma
    {
      && ep.Valid() && ep.armed == (ep0State == DataInStage)
      && (ep0State == DataInStage ==>
            && ep.Waiting() == Packets(ep.Left())[0] && ep.txCount == |ep.Waiting()| && sent + Plan() == goal
            && (remLength > MAX_PACKET || ep.xferLen > MAX_PACKET ==> remLength == ep.xferLen)
            && !inStalled)
      && (ep0State == StatusOut ==> outReady && inStalled)
    }

    /** USBD_CtlSendData for a request whose wLength has been noted; a stalled endpoint becomes valid again. */
    method CtlSendData(buf: nat, len: Half, wLength: Half)
      requires Valid() && ep0State != DataInStage && buf + len < ep.mem.Length
      modifies this, ep, ep.pma
      ensures Valid() && ep0State == DataInStage && sent == [] && statusStages == old(statusStages)
      ensures goal == ControlPackets(ep.mem[buf..buf + len], wLength)
    {
      hide Packets, PacketAt, ZeroPacket;
      ep0DataLen := wLength;
      ep0State := DataInStage;
      totalLength := len;
      remLength := len;
      inStalled := false;
      ep.Transmit(buf, len);
      sent := [];
      goal := ControlPackets(ep.mem[buf..buf + len], wLength);
    }

    /** USBD_LL_DataInStage for endpoint 0 in its data stage; `pdata` is where the next packet starts. The CDC class
        asks for no call of its own. */
    method DataInStage0(pdata: nat)
      requires ep.Valid() && ep.mem.Length > 0 && ep0State == DataInStage && !ep.armed && !inStalled
      requires remLength > MAX_PACKET ==> pdata + (remLength - MAX_PACKET) < ep.mem.Length
      requires sent + ((if remLength > MAX_PACKET then Packets(ep.mem[pdata..pdata + (remLength - MAX_PACKET)]) else [])
               + ZeroPacket(WantsZero())) == goal
      modifies this`remLength, this`ep0DataLen, this`ep0State, this`statusStages, this`outReady, this`inStalled, ep,
               ep.pma
      ensures outReady && (inStalled <==> ep0State == StatusOut)
      ensures Valid() && (ep0State == DataInStage || ep0State == StatusOut)
      ensures statusStages == old(statusStages) + (if ep0State == StatusOut then 1 else 0)
      ensures ep0State == StatusOut ==> sent == goal
    {
      hide PacketAt, Packets, ZeroPacket;
      OnlyZeroPacket(sent);
      if remLength > MAX_PACKET {
        remLength := remLength - MAX_PACKET;
        ep.Transmit(pdata, remLength);
        outReady := true;
      } else {
        if totalLength % MAX_PACKET == 0 && totalLength >= MAX_PACKET && totalLength < ep0DataLen {
          ep.Transmit(0, 0);
          assert ep.Left() == [];
          ep0DataLen := 0;
          outReady := true;
        } else {
          inStalled := true;
          CtlReceiveStatus();
        }
      }
    }

    /** USBD_CtlReceiveStatus. */
    method CtlReceiveStatus()
      modifies this`ep0State, this`statusStages, this`outReady
      ensures ep0State == StatusOut && statusStages == old(statusStages) + 1 && outReady
    {
      ep0State := StatusOut;
      outReady := true;
      statusStages := statusStages + 1;
    }

    /** The host has taken the waiting packet: the endpoint 0 IN path of PCD_EP_ISR_Handler. */
    method InComplete()
      requires Valid() && ep0State == DataInStage
      modifies this`remLength, this`ep0DataLen, this`ep0State, this`statusStages, this`outReady, this`inStalled,
               this`sent, ep, ep.pma
      ensures Valid() && sent == old(sent) + [old(ep.Waiting())] && |sent| <= |goal| && outReady
      ensures ep0State == DataInStage || ep0State == StatusOut
      ensures statusStages == old(statusStages) + (if ep0State == StatusOut then 1 else 0)
      ensures ep0State == StatusOut ==> sent == goal
    {
      hide Packets, PacketAt, ZeroPacket, WantsZero;
      FirstPacket(ep.Left());
      OneTaken(sent, Packets(ep.Left()), ZeroPacket(WantsZero()), goal);
      ghost var rest := ep.Left();
      sent := sent + [ep.Waiting()];
      ep.armed := false;
      var xferCount := ep.txCount;
      ep.xferBuff := ep.xferBuff + xferCount;
      assert ep.mem[ep.xferBuff..ep.xferBuff + (|rest| - xferCount)] == rest[xferCount..];
      DataInStage0(ep.xferBuff);
    }

    /** The host takes packets until the status stage: it has had exactly the data stage, and one status stage
        follows. */
    method RunDataStage(buf: nat, len: Half, wLength: Half)
      requires Valid() && ep0State != DataInStage && buf + len < ep.mem.Length
      modifies this, ep, ep.pma
      ensures Valid() && ep0State == StatusOut && statusStages == old(statusStages) + 1
      ensures sent == ControlPackets(ep.mem[buf..buf + len], wLength)
    {
      hide ControlPackets, Packets, PacketAt;
      CtlSendData(buf, len, wLength);
      ghost var all := goal;
      while ep0State == DataInStage
        invariant Valid() && goal == all && (ep0State == DataInStage || ep0State == StatusOut)
        invariant statusStages == old(statusStages) + (if ep0State == StatusOut then 1 else 0)
        invariant ep0State == StatusOut ==> sent == goal
        decreases |all| - |sent|
      {
        GoalAhead();
        InComplete();
      }
    }

    lemma GoalAhead()
      requires Valid() && ep0State == DataInStage
      ensures |sent| < |goal|
    {
    }
  }
}
