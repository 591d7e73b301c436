/** Stream and message buffers as one caller sees them: a byte ring, and the framing on top of it. */
module StreamBuffers {
  import opened Bytes
  import opened Ring

  datatype Kind = Stream | Batching | MessageKind

  class StreamBuffer {
    const pucBuffer: array<Byte>
    const kind: Kind
    const xTriggerLevelBytes: nat
    var xTail: nat
    var xHead: nat
    ghost var messages: seq<Message>             // of a message buffer, those not yet received

    ghost function Stored(): (s: seq<Byte>)
      requires xTail < pucBuffer.Length && xHead < pucBuffer.Length
      reads this, pucBuffer
    {
      Slice(pucBuffer[..], xTail, Used(xTail, xHead, pucBuffer.Length))
    }

    ghost predicate Valid()
      reads this, pucBuffer
    {
      && xTail < pucBuffer.Length && xHead < pucBuffer.Length <= LONGEST
      && (kind == MessageKind ==> Stored() == Frames(messages))
    }

    constructor (size: nat, kind: Kind, trigger: nat)
      requires 0 < size <= LONGEST
      ensures Valid() && Stored() == [] && messages == [] && fresh(pucBuffer)
      ensures pucBuffer.Length == size && this.kind == kind
    {
      pucBuffer := new Byte[size](_ => 0);
      this.kind := kind;
      xTriggerLevelBytes := trigger;
      xTail, xHead := 0, 0;
      messages := [];
    }

    /** prvBytesInBuffer. */
    method BytesInBuffer() returns (count: nat)
      requires Valid()
      ensures count == |Stored()|
    {
      count := ToSize(pucBuffer.Length + xHead);
      count := ToSize(count - xTail);
      if count >= pucBuffer.Length {
        count := count - pucBuffer.Length;
      }
    }

    /** xStreamBufferSpacesAvailable, when nothing else runs between its reads. */
    method SpacesAvailable() returns (space: nat)
      requires Valid()
      ensures space == pucBuffer.Length - 1 - |Stored()|
    {
      space := ToSize(pucBuffer.Length + xTail);
      space := ToSize(space - xHead);
      space := ToSize(space - 1);
      if space >= pucBuffer.Length {
        space := space - pucBuffer.Length;
      }
    }

    /** prvWriteBytesToBuffer: one copy up to the end of the storage, a second from its start. */
    method WriteBytesToBuffer(data: seq<Byte>, head: nat) returns (head': nat)
      requires 0 < |data| <= pucBuffer.Length && head < pucBuffer.Length
      modifies pucBuffer
      ensures head' == Wrap(head + |data|, pucBuffer.Length)
      ensures Slice(pucBuffer[..], head, |data|) == data
      ensures var rest := pucBuffer.Length - |data|;
              Slice(pucBuffer[..], head', rest) == Slice(old(pucBuffer[..]), head', rest)
    {
      var count := |data|;
      var firstLength := if pucBuffer.Length - head < count then pucBuffer.Length - head else count;
      forall i | 0 <= i < firstLength {
        pucBuffer[head + i] := data[i];
      }
      if count > firstLength {
        forall i | 0 <= i < count - firstLength {
          pucBuffer[i] := data[firstLength + i];
        }
      }
      head' := head + count;
      if head' >= pucBuffer.Length {
        head' := head' - pucBuffer.Length;
      }
    }

    /** prvReadBytesFromBuffer, into a fresh copy. */
    method ReadBytesFromBuffer(count: nat, tail: nat) returns (data: seq<Byte>, tail': nat)
      requires 0 < count <= pucBuffer.Length && tail < pucBuffer.Length
      ensures data == Slice(pucBuffer[..], tail, count)
      ensures tail' == Wrap(tail + count, pucBuffer.Length)
    {
      var firstLength := if pucBuffer.Length - tail < count then pucBuffer.Length - tail else count;
      data := pucBuffer[tail..tail + firstLength];
      if count > firstLength {
        data := data + pucBuffer[..count - firstLength];
      }
      tail' := tail + count;
      if tail' >= pucBuffer.Length {
        tail' := tail' - pucBuffer.Length;
      }
    }

    /** Bytes written at `head`, which may be ahead of the published one, follow what lies before it. */
    method AppendBytes(data: seq<Byte>, head: nat) returns (head': nat)
      requires xTail < pucBuffer.Length && head < pucBuffer.Length
      requires 0 < |data| && Used(xTail, head, pucBuffer.Length) + |data| < pucBuffer.Length
      modifies pucBuffer
      ensures head' < pucBuffer.Length
      ensures Used(xTail, head', pucBuffer.Length) == Used(xTail, head, pucBuffer.Length) + |data|
      ensures var u := Used(xTail, head, pucBuffer.Length);
              && Slice(pucBuffer[..], xTail, u) == old(Slice(pucBuffer[..], xTail, u))
              && Slice(pucBuffer[..], xTail, u + |data|) == old(Slice(pucBuffer[..], xTail, u)) + data
    {
      hide Slice;
      ghost var before, u := pucBuffer[..], Used(xTail, head, pucBuffer.Length);
      head' := WriteBytesToBuffer(data, head);
      UsedAfterWrite(xTail, head, pucBuffer.Length, |data|);
      StoredAfterWrite(before, pucBuffer[..], xTail, head, |data|);
      SliceSplit(pucBuffer[..], xTail, u + |data|, u);
      assert Slice(pucBuffer[..], xTail, u + |data|)[..u] == Slice(pucBuffer[..], xTail, u);
    }

    /** prvWriteMessageToBuffer: a whole message or none of it, and as much of a stream as fits. */
    method WriteMessageToBuffer(txData: seq<Byte>, space: nat, requiredSpace: nat) returns (written: nat)
      requires Valid() && |txData| < 0x1_0000_0000
      requires space <= pucBuffer.Length - 1 - |Stored()|
      requires kind == MessageKind ==> requiredSpace == |txData| + LENGTH_BYTES
      modifies this`xHead, this`messages, pucBuffer
      ensures Valid()
      ensures kind == MessageKind ==>
                && written == (if space >= requiredSpace then |txData| else 0)
                && messages == if written > 0 then old(messages) + [txData] else old(messages)
      ensures kind != MessageKind ==>
                && written == (if |txData| < space then |txData| else space)
                && Stored() == old(Stored()) + txData[..written]
    {
      hide Slice, Used, Frames;
      var nextHead := xHead;
      written := |txData|;
      ghost var header := [];
      if kind == MessageKind {
        if space >= requiredSpace {
          header := StoreWord(|txData|);
          nextHead := AppendBytes(StoreWord(|txData|), nextHead);
        } else {
          written := 0;
        }
      } else {
        written := if |txData| < space then |txData| else space;
      }
      if written != 0 {
        ghost var all := old(Stored()) + header;
        assert Slice(pucBuffer[..], xTail, |all|) == all;
        var head' := AppendBytes(txData[..written], nextHead);
        xHead := head';
        assert Stored() == all + txData[..written];
        if kind == MessageKind {
          assert txData[..written] == txData;
          FramesAppend(messages, txData);
          assert all + txData == old(Stored()) + Frame(txData);
          messages := messages + [txData];
        }
      } else {
        assert Stored() == old(Stored());
      }
    }

    /** Bytes read at `tail`, which may be ahead of the published one, leave the rest of what is stored. */
    method TakeBytes(count: nat, tail: nat) returns (data: seq<Byte>, tail': nat)
      requires tail < pucBuffer.Length && xHead < pucBuffer.Length
      requires 0 < count <= Used(tail, xHead, pucBuffer.Length)
      ensures tail' < pucBuffer.Length
      ensures Used(tail', xHead, pucBuffer.Length) == Used(tail, xHead, pucBuffer.Length) - count
      ensures var all := Slice(pucBuffer[..], tail, Used(tail, xHead, pucBuffer.Length));
              && data == all[..count]
              && Slice(pucBuffer[..], tail', Used(tail', xHead, pucBuffer.Length)) == all[count..]
    {
      hide Slice;
      ghost var u := Used(tail, xHead, pucBuffer.Length);
      data, tail' := ReadBytesFromBuffer(count, tail);
      UsedAfterRead(tail, xHead, pucBuffer.Length, count);
      SliceSplit(pucBuffer[..], tail, u, count);
    }

    /** prvReadMessageFromBuffer: the next message when it fits the caller's buffer, or what a stream holds. */
    method ReadMessageFromBuffer(bufferLength: nat, bytesAvailable: nat) returns (received: seq<Byte>)
      requires Valid() && bytesAvailable == |Stored()|
      requires kind == MessageKind ==> bytesAvailable > LENGTH_BYTES
      modifies this`xTail, this`messages
      ensures Valid()
      ensures kind == MessageKind ==>
                && old(messages) != []
                && if |old(messages)[0]| <= bufferLength
                   then received == old(messages)[0] && messages == old(messages)[1..]
                   else received == [] && messages == old(messages) && xTail == old(xTail)
      ensures kind != MessageKind ==>
                && received == old(Stored())[..if bufferLength < bytesAvailable then bufferLength else bytesAvailable]
                && Stored() == old(Stored())[|received|..]
    {
      hide Slice, Used, Frames;
      var nextTail := xTail;
      var nextLength, available := bufferLength, bytesAvailable;
      ghost var all := Stored();
      ghost var skipped := 0;
      if kind == MessageKind {
        NotEmpty(messages);
        FirstFrame(messages);
        var lengthBytes;
        lengthBytes, nextTail := TakeBytes(LENGTH_BYTES, nextTail);
        skipped := LENGTH_BYTES;
        nextLength := LoadWord(lengthBytes);
        available := available - LENGTH_BYTES;
        if nextLength > bufferLength {
          nextLength := 0;
        }
      }
      received := [];
      var count := if nextLength < available then nextLength else available;
      if count != 0 {
        var tail';
        received, tail' := TakeBytes(count, nextTail);
        xTail := tail';
        Parts(all, skipped, count);
        if kind == MessageKind {
          messages := messages[1..];
        }
      }
    }

    /** Whether xStreamBufferSend can take `n` bytes of a message now. */
    ghost predicate RoomFor(n: nat)
      requires Valid()
      reads this, pucBuffer
    {
      |Stored()| + n + LENGTH_BYTES <= pucBuffer.Length - 1
    }

    /** xStreamBufferSend without a block time. */
    method Send(txData: seq<Byte>) returns (written: nat)
      requires Valid() && |txData| + LENGTH_BYTES < 0x1_0000_0000
      modifies this`xHead, this`messages, pucBuffer
      ensures Valid()
      ensures kind == MessageKind ==>
                && written == (if old(RoomFor(|txData|)) then |txData| else 0)
                && messages == if written > 0 then old(messages) + [txData] else old(messages)
      ensures kind != MessageKind ==>
                && written <= |txData| && Stored() == old(Stored()) + txData[..written]
                && (written < |txData| ==> |Stored()| == pucBuffer.Length - 1)
    {
      hide Slice, Used, Frames;
      var requiredSpace := |txData|;
      if kind == MessageKind {
        requiredSpace := requiredSpace + LENGTH_BYTES;
      } else if requiredSpace > pucBuffer.Length - 1 {
        requiredSpace := pucBuffer.Length - 1;
      }
      var space := SpacesAvailable();
      written := WriteMessageToBuffer(txData, space, requiredSpace);
    }

    /** xStreamBufferReceive without a block time: nothing is read until more than the threshold is there. */
    method Receive(bufferLength: nat) returns (received: seq<Byte>)
      requires Valid()
      modifies this`xTail, this`messages
      ensures Valid()
      ensures kind == MessageKind ==>
                if old(messages) != [] && |old(messages)[0]| <= bufferLength
                then received == old(messages)[0] && messages == old(messages)[1..]
                else received == [] && messages == old(messages) && Stored() == old(Stored())
      ensures kind != MessageKind ==> old(Stored()) == received + Stored() && |received| <= bufferLength
      ensures var n, least := |old(Stored())|, if kind == Batching then xTriggerLevelBytes else 0;
              kind != MessageKind ==>
                |received| == if n <= least then 0 else if bufferLength < n then bufferLength else n
    {
      hide Slice, Used, Frames;
      var threshold :=
        match kind
        case MessageKind => LENGTH_BYTES
        case Batching => xTriggerLevelBytes
        case Stream => 0;
      var bytesAvailable := BytesInBuffer();
      received := [];
      NotEmpty(messages);
      if messages != [] {
        FirstFrame(messages);
      }
      if bytesAvailable > threshold {
        received := ReadMessageFromBuffer(bufferLength, bytesAvailable);
      }
    }

    /** xStreamBufferNextMessageLengthBytes. */
    method NextMessageLength() returns (n: nat)
      requires Valid()
      ensures n == if kind != MessageKind || messages == [] then 0 else |messages[0]|
    {
      if kind != MessageKind {
        return 0;
      }
      hide Slice, Used, Frames;
      var bytesAvailable := BytesInBuffer();
      NotEmpty(messages);
      if messages != [] {
        FirstFrame(messages);
      }
      n := 0;
      if bytesAvailable > LENGTH_BYTES {
        SliceSplit(pucBuffer[..], xTail, bytesAvailable, LENGTH_BYTES);
        var lengthBytes, _ := ReadBytesFromBuffer(LENGTH_BYTES, xTail);
        assert lengthBytes == Stored()[..LENGTH_BYTES];
        n := LoadWord(lengthBytes);
      }
    }
  }

  lemma Parts(all: seq<Byte>, skip: nat, count: nat)
    requires skip + count <= |all|
    ensures all[skip..][count..] == all[skip + count..]
    ensures all[skip..][..count] == all[skip..skip + count]
  {
  }
}
