/** One writer and one reader on a stream or message buffer, interleaved at each load, each byte copied,
    and each publication of an index. Neither takes a lock. */
module StreamSteps {
  import opened Bytes
  import opened Ring

  /** What a writer is doing. `tail` is a value of xTail it loaded, possibly out of date by now. */
  datatype Writer =
    | Resting
    | LoadingTail(data: seq<Byte>)                       // about to load xOriginalTail
    | LoadingIndices(data: seq<Byte>, original: nat)     // about to load xTail again, and its own xHead
    | CheckingTail(data: seq<Byte>, original: nat, tail: nat)
    | Copying(bytes: seq<Byte>, copied: set<nat>, data: seq<Byte>, publish: bool)

  /** What a reader is doing. `available` was computed from a head that may have moved on since. */
  datatype Reader =
    | Waiting
    | LoadingHead(room: nat)
    | ReadingLength(room: nat, available: nat, got: map<nat, Byte>)
    | Taking(skip: nat, count: nat, got: map<nat, Byte>)

  datatype State = State(
    messages: bool,                                      // sbFLAGS_IS_MESSAGE_BUFFER
    batch: nat,                                          // of a batching buffer its trigger level, otherwise 0
    buffer: seq<Byte>, tail: nat, head: nat,
    writer: Writer, reader: Reader,
    sent: seq<Byte>, received: seq<Byte>,                // every byte published, every byte released
    sentMessages: seq<Message>, receivedMessages: seq<Message>)

  datatype Step =
    | BeginSend(data: seq<Byte>)
    | LoadTail
    | LoadIndices
    | CheckTail(retry: bool)                             // a blocking send may go round again
    | CopyIn(k: nat)
    | PublishHead
    | BeginReceive(room: nat)
    | LoadHead
    | CopyLength(k: nat)
    | DecodeLength
    | CopyOut(k: nat)
    | PublishTail

  function Min(a: nat, b: nat): nat
  {
    if a < b then a else b
  }

  /** prvWriteMessageToBuffer up to the point where the bytes are copied. */
  ghost function StartCopy(messages: bool, data: seq<Byte>, space: nat): Writer
    requires |data| < 0x1_0000_0000
  {
    if messages then
      if space < |data| + LENGTH_BYTES then Resting
      else Copying(Frame(data), {}, data, data != [])
    else
      var n := Min(|data|, space);
      if n == 0 then Resting else Copying(data[..n], {}, data[..n], true)
  }

  /** prvReadMessageFromBuffer once the number of bytes available is known. */
  function StartRead(messages: bool, batch: nat, room: nat, available: nat): Reader
  {
    if messages then
      if available > LENGTH_BYTES then ReadingLength(room, available, map[]) else Waiting
    else
      if available > batch && room > 0 then Taking(0, Min(room, available), map[]) else Waiting
  }

  function Assemble(got: map<nat, Byte>, n: nat): (s: seq<Byte>)
    requires forall i | 0 <= i < n :: i in got
    ensures |s| == n && forall i | 0 <= i < n :: s[i] == got[i]
  {
    seq(n, i requires 0 <= i < n => got[i])
  }

  ghost predicate Shape(s: State)
  {
    && s.tail < |s.buffer| && s.head < |s.buffer| <= LONGEST
    && match s.writer {
         case LoadingTail(data) => |data| < 0x1_0000_0000
         case LoadingIndices(data, original) => |data| < 0x1_0000_0000 && original < |s.buffer|
         case CheckingTail(data, original, tail) => |data| < 0x1_0000_0000 && tail < |s.buffer|
         case _ => true
       }
  }

  ghost predicate Enabled(s: State, step: Step)
    requires Shape(s)
  {
    match step
    case BeginSend(data) => s.writer.Resting? && |data| < 0x1_0000_0000
    case LoadTail => s.writer.LoadingTail?
    case LoadIndices => s.writer.LoadingIndices?
    case CheckTail(_) => s.writer.CheckingTail?
    case CopyIn(k) => s.writer.Copying? && k < |s.writer.bytes| && k !in s.writer.copied
    case PublishHead => s.writer.Copying? && forall k | 0 <= k < |s.writer.bytes| :: k in s.writer.copied
    case BeginReceive(room) => s.reader.Waiting?
    case LoadHead => s.reader.LoadingHead?
    case CopyLength(k) => s.reader.ReadingLength? && k < LENGTH_BYTES && k !in s.reader.got
    case DecodeLength => s.reader.ReadingLength? && forall k | 0 <= k < LENGTH_BYTES :: k in s.reader.got
    case CopyOut(k) => s.reader.Taking? && k < s.reader.count && k !in s.reader.got
    case PublishTail => s.reader.Taking? && forall k | 0 <= k < s.reader.count :: k in s.reader.got
  }

  /** Offsets a step uses stay within one lap; Inv makes sure of it. */
  ghost predicate InLap(s: State, step: Step)
    requires Shape(s) && Enabled(s, step)
  {
    match step
    case CopyIn(k) => s.head + k < 2 * |s.buffer|
    case PublishHead => s.head + |s.writer.bytes| < 2 * |s.buffer|
    case CopyLength(k) => s.tail + k < 2 * |s.buffer|
    case CopyOut(k) => s.tail + s.reader.skip + k < 2 * |s.buffer|
    case PublishTail => s.tail + s.reader.skip + s.reader.count < 2 * |s.buffer|
    case _ => true
  }

  ghost function AfterPublishTail(s: State): State
    requires Shape(s) && Enabled(s, PublishTail) && InLap(s, PublishTail)
  {
    var r, length := s.reader, |s.buffer|;
    var data := Assemble(r.got, r.count);
    s.(tail := Wrap(s.tail + r.skip + r.count, length), reader := Waiting,
       received := s.received + Slice(s.buffer, s.tail, Min(r.skip, length)) + data,
       receivedMessages := if s.messages && 0 < |data| < 0x1_0000_0000
                           then s.receivedMessages + [data] else s.receivedMessages)
  }

  ghost function Next(s: State, step: Step): State
    requires Shape(s) && Enabled(s, step) && InLap(s, step)
  {
    var length := |s.buffer|;
    match step
    case BeginSend(data) => s.(writer := LoadingTail(data))
    case LoadTail => s.(writer := LoadingIndices(s.writer.data, s.tail))
    case LoadIndices => s.(writer := CheckingTail(s.writer.data, s.writer.original, s.tail))
    case CheckTail(retry) =>
      if retry || s.writer.original != s.tail then s.(writer := LoadingTail(s.writer.data))
      else s.(writer := StartCopy(s.messages, s.writer.data, SpaceFrom(s.writer.tail, s.head, length)))
    case CopyIn(k) =>
      s.(buffer := s.buffer[Wrap(s.head + k, length) := s.writer.bytes[k]],
         writer := Copying(s.writer.bytes, s.writer.copied + {k}, s.writer.data, s.writer.publish))
    case PublishHead =>
      if s.writer.publish then
        s.(head := Wrap(s.head + |s.writer.bytes|, length), writer := Resting,
           sent := s.sent + s.writer.bytes,
           sentMessages := if s.messages && 0 < |s.writer.data| < 0x1_0000_0000
                           then s.sentMessages + [s.writer.data] else s.sentMessages)
      else s.(writer := Resting)
    case BeginReceive(room) => s.(reader := LoadingHead(room))
    case LoadHead => s.(reader := StartRead(s.messages, s.batch, s.reader.room, BytesFrom(s.tail, s.head, length)))
    case CopyLength(k) =>
      var byte := s.buffer[Wrap(s.tail + k, length)];
      s.(reader := ReadingLength(s.reader.room, s.reader.available, s.reader.got[k := byte]))
    case DecodeLength =>
      var n := LoadWord(Assemble(s.reader.got, LENGTH_BYTES));
      var available := if s.reader.available > LENGTH_BYTES then s.reader.available - LENGTH_BYTES else 0;
      var count := if n > s.reader.room then 0 else Min(n, available);
      s.(reader := if count == 0 then Waiting else Taking(LENGTH_BYTES, count, map[]))
    case CopyOut(k) =>
      s.(reader := Taking(s.reader.skip, s.reader.count,
                          s.reader.got[k := s.buffer[Wrap(s.tail + s.reader.skip + k, length)]]))
    case PublishTail => AfterPublishTail(s)
  }

  // ----- What every step keeps -----

  ghost function Unread(s: State): seq<Byte>
    requires Shape(s)
  {
    Slice(s.buffer, s.tail, Used(s.tail, s.head, |s.buffer|))
  }

  ghost predicate WriterInv(s: State)
    requires Shape(s)
  {
    var u, length := Used(s.tail, s.head, |s.buffer|), |s.buffer|;
    match s.writer
    case CheckingTail(data, original, tail) => u <= Used(tail, s.head, length)
    case Copying(bytes, copied, data, publish) =>
      && 0 < |bytes| && u + |bytes| < length
      && (forall k | k in copied :: k < |bytes| && s.buffer[Wrap(s.head + k, length)] == bytes[k])
      && (publish ==> if s.messages then 0 < |data| < 0x1_0000_0000 && bytes == Frame(data) else bytes == data)
    case _ => true
  }

  /** The message a reader is in the middle of: the first one not yet received. */
  ghost predicate Facing(s: State, length: nat)
  {
    && |s.receivedMessages| < |s.sentMessages|
    && |s.sentMessages[|s.receivedMessages|]| == length
  }

  ghost predicate ReaderInv(s: State)
    requires Shape(s)
  {
    var unread := Unread(s);
    match s.reader
    case ReadingLength(room, available, got) =>
      && s.messages && available <= |unread|
      && |s.receivedMessages| < |s.sentMessages|
      && available >= LENGTH_BYTES + |s.sentMessages[|s.receivedMessages|]|
      && forall k | k in got :: k < LENGTH_BYTES && got[k] == unread[k]
    case Taking(skip, count, got) =>
      && 0 < count && skip + count <= |unread|
      && skip == (if s.messages then LENGTH_BYTES else 0)
      && (s.messages ==> Facing(s, count))
      && forall k | k in got :: k < count && got[k] == unread[skip + k]
    case _ => true
  }

  ghost predicate MessageInv(s: State)
    requires Shape(s)
  {
    s.messages ==>
      && s.receivedMessages <= s.sentMessages
      && Unread(s) == Frames(s.sentMessages[|s.receivedMessages|..])
  }

  /** Nothing is lost, invented or overwritten: what was sent is what was received, then what is still stored. */
  ghost predicate Inv(s: State)
  {
    && Shape(s)
    && s.sent == s.received + Unread(s)
    && WriterInv(s) && ReaderInv(s) && MessageInv(s)
  }

  lemma InvInLap(s: State, step: Step)
    requires Inv(s) && Enabled(s, step)
    ensures InLap(s, step)
  {
  }

  ghost function Initial(messages: bool, batch: nat, buffer: seq<Byte>): State
  {
    State(messages, batch, buffer, 0, 0, Resting, Waiting, [], [], [], [])
  }

  lemma InitialInv(messages: bool, batch: nat, buffer: seq<Byte>)
    requires 0 < |buffer| <= LONGEST
    ensures Inv(Initial(messages, batch, buffer))
  {
  }

  lemma LoadsKeepInv(s: State, step: Step)
    requires Inv(s) && Enabled(s, step) && InLap(s, step)
    requires step.BeginSend? || step.LoadTail? || step.LoadIndices? || step.BeginReceive?
    ensures Inv(Next(s, step))
  {
    hide Slice, Frames;
  }

  lemma CheckTailKeepsInv(s: State, retry: bool)
    requires Inv(s) && s.writer.CheckingTail?
    ensures Inv(Next(s, CheckTail(retry)))
  {
    CheckedTailFits(s, retry);
    ReaderOnly(s, Next(s, CheckTail(retry)));
    hide Slice, Used, Frames, Frame, WriterInv, ReaderInv, MessageInv, Unread, StartCopy;
  }

  /** Whatever the writer starts to copy fits where nothing unread lies. */
  lemma CheckedTailFits(s: State, retry: bool)
    requires Inv(s) && s.writer.CheckingTail?
    ensures WriterInv(Next(s, CheckTail(retry)))
  {
    hide Slice, Frames, ReaderInv, MessageInv, Unread;
  }

  lemma ReaderOnly(s: State, s': State)
    requires Shape(s) && Shape(s') && s' == s.(writer := s'.writer)
    ensures Unread(s') == Unread(s) && ReaderInv(s') == ReaderInv(s) && MessageInv(s') == MessageInv(s)
  {
    hide Slice, Used, Frames;
  }

  lemma LoadHeadKeepsInv(s: State)
    requires Inv(s) && s.reader.LoadingHead?
    ensures Inv(Next(s, LoadHead))
  {
    hide Slice, Frames;
    if s.messages {
      var ms := s.sentMessages[|s.receivedMessages|..];
      NotEmpty(ms);
      if ms != [] {
        FirstFrame(ms);
      }
    }
  }

  /** The writer only ever writes where nothing unread lies. */
  lemma CopyInKeepsInv(s: State, k: nat)
    requires Inv(s) && Enabled(s, CopyIn(k))
    ensures InLap(s, CopyIn(k)) && Inv(Next(s, CopyIn(k)))
    ensures Unread(Next(s, CopyIn(k))) == Unread(s)
  {
    hide Frames;
    var s' := Next(s, CopyIn(k));
    assert Unread(s') == Unread(s);
  }

  lemma CopyLengthKeepsInv(s: State, k: nat)
    requires Inv(s) && Enabled(s, CopyLength(k))
    ensures InLap(s, CopyLength(k)) && Inv(Next(s, CopyLength(k)))
  {
    hide Slice, Frames, Used, WriterInv, MessageInv;
    var s' := Next(s, CopyLength(k));
    assert s'.reader.got[k] == Unread(s)[k];
    assert ReaderInv(s');
    assert WriterInv(s') == WriterInv(s) && MessageInv(s') == MessageInv(s) by { WriterOnly(s, s'); }
  }

  lemma CopyOutKeepsInv(s: State, k: nat)
    requires Inv(s) && Enabled(s, CopyOut(k))
    ensures InLap(s, CopyOut(k)) && Inv(Next(s, CopyOut(k)))
  {
    hide Slice, Frames, Used, WriterInv, MessageInv;
    var s' := Next(s, CopyOut(k));
    assert s'.reader.got[k] == Unread(s)[s.reader.skip + k];
    assert ReaderInv(s');
    assert WriterInv(s') == WriterInv(s) && MessageInv(s') == MessageInv(s) by { WriterOnly(s, s'); }
  }

  /** What a reader has copied so far is nobody else's concern. */
  lemma WriterOnly(s: State, s': State)
    requires Shape(s) && s' == s.(reader := s'.reader)
    ensures WriterInv(s') == WriterInv(s) && MessageInv(s') == MessageInv(s)
  {
  }

  lemma DecodeKeepsInv(s: State)
    requires Inv(s) && Enabled(s, DecodeLength)
    ensures Inv(Next(s, DecodeLength))
    ensures Next(s, DecodeLength).reader ==
            var n := |s.sentMessages[|s.receivedMessages|]|;
            if n > s.reader.room then Waiting else Taking(LENGTH_BYTES, n, map[])
  {
    hide Slice, Frames;
    var ms := s.sentMessages[|s.receivedMessages|..];
    FirstFrame(ms);
    assert Assemble(s.reader.got, LENGTH_BYTES) == Unread(s)[..LENGTH_BYTES];
  }

  lemma UnreadGrows(s: State)
    requires Inv(s) && Enabled(s, PublishHead) && s.writer.publish
    ensures InLap(s, PublishHead)
    ensures Unread(Next(s, PublishHead)) == Unread(s) + s.writer.bytes
    ensures Used(s.tail, Next(s, PublishHead).head, |s.buffer|) == |Unread(s)| + |s.writer.bytes|
  {
    WriterHasRoom(s);
    hide Slice, Used, Wrap, Inv, Frames, Frame;
    ReadableGrows(s.buffer, s.tail, s.head, |s.writer.bytes|);
  }

  lemma WriterHasRoom(s: State)
    requires Inv(s) && Enabled(s, PublishHead)
    ensures var u, n := Used(s.tail, s.head, |s.buffer|), |s.writer.bytes|;
            u + n < |s.buffer| && Slice(s.buffer, s.head, n) == s.writer.bytes
  {
    hide Frames, Frame, ReaderInv, MessageInv, Unread, Used;
  }

  lemma PublishedFrames(s: State)
    requires Inv(s) && s.writer.Copying? && s.writer.publish && s.messages
    ensures Frames((s.sentMessages + [s.writer.data])[|s.receivedMessages|..]) == Unread(s) + s.writer.bytes
  {
    hide Slice, Frames, ReaderInv, Frame;
    FramesAppend(s.sentMessages[|s.receivedMessages|..], s.writer.data);
    assert (s.sentMessages + [s.writer.data])[|s.receivedMessages|..]
        == s.sentMessages[|s.receivedMessages|..] + [s.writer.data];
  }

  /** A reader in the middle of something is not disturbed by more bytes and messages behind it. */
  lemma ReaderSeesMore(s: State, s': State)
    requires Shape(s) && Shape(s') && s'.reader == s.reader && s'.messages == s.messages
    requires Unread(s) <= Unread(s') && s'.receivedMessages == s.receivedMessages
    requires s.sentMessages <= s'.sentMessages && ReaderInv(s)
    ensures ReaderInv(s')
  {
    hide Slice, Used, Unread;
  }

  lemma PublishHeadKeepsInv(s: State)
    requires Inv(s) && Enabled(s, PublishHead)
    ensures InLap(s, PublishHead) && Inv(Next(s, PublishHead))
  {
    InvInLap(s, PublishHead);
    if s.writer.publish {
      UnreadGrows(s);
      MessagesGrow(s);
    } else {
      SameBytes(s);
    }
    hide Slice, Frames, Frame, Used, ReaderInv, Wrap, Unread, MessageInv;
    ReaderSeesMore(s, Next(s, PublishHead));
  }

  lemma MessagesGrow(s: State)
    requires Inv(s) && Enabled(s, PublishHead) && InLap(s, PublishHead) && s.writer.publish
    ensures MessageInv(Next(s, PublishHead))
  {
    UnreadGrows(s);
    if s.messages {
      PublishedFrames(s);
    }
    hide Slice, Frames, Frame, Used, ReaderInv, Wrap, Unread;
  }

  lemma SameBytes(s: State)
    requires Shape(s) && Enabled(s, PublishHead) && InLap(s, PublishHead) && !s.writer.publish
    ensures Unread(Next(s, PublishHead)) == Unread(s)
    ensures MessageInv(s) ==> MessageInv(Next(s, PublishHead))
  {
  }

  lemma AssembleIs(got: map<nat, Byte>, n: nat, all: seq<Byte>, skip: nat)
    requires skip + n <= |all|
    requires forall k | 0 <= k < n :: k in got && got[k] == all[skip + k]
    ensures Assemble(got, n) == all[skip..skip + n]
  {
  }

  lemma JoinThree(r: seq<Byte>, u: seq<Byte>, i: nat, j: nat)
    requires i <= j <= |u|
    ensures r + u[..i] + u[i..j] + u[j..] == r + u
  {
  }

  lemma ReaderTakes(s: State)
    requires Inv(s) && Enabled(s, PublishTail)
    ensures var r, unread := s.reader, Unread(s);
            && r.skip + r.count <= |unread|
            && forall k | 0 <= k < r.count :: k in r.got && r.got[k] == unread[r.skip + k]
  {
    hide Slice, Used, Wrap, Frames, WriterInv, MessageInv, Facing;
  }

  /** What a reader hands over is exactly the front of what is unread, past the length it skipped. */
  lemma TakenBytes(s: State)
    requires Inv(s) && Enabled(s, PublishTail) && InLap(s, PublishTail)
    ensures var r := s.reader;
            && Assemble(r.got, r.count) == Unread(s)[r.skip..r.skip + r.count]
            && Unread(AfterPublishTail(s)) == Unread(s)[r.skip + r.count..]
            && AfterPublishTail(s).received + Unread(AfterPublishTail(s)) == s.received + Unread(s)
            && Used(AfterPublishTail(s).tail, s.head, |s.buffer|) == |Unread(s)| - r.skip - r.count
  {
    TakenIsFront(s);
    UnreadShrinks(s);
    hide Inv, Unread, Assemble, Slice, Used, Wrap;
    JoinThree(s.received, Unread(s), s.reader.skip, s.reader.skip + s.reader.count);
  }

  lemma TakenIsFront(s: State)
    requires Inv(s) && Enabled(s, PublishTail)
    ensures var r := s.reader;
            && r.skip + r.count <= |Unread(s)|
            && Assemble(r.got, r.count) == Unread(s)[r.skip..r.skip + r.count]
  {
    ReaderTakes(s);
    hide Inv, Unread, Assemble;
    AssembleIs(s.reader.got, s.reader.count, Unread(s), s.reader.skip);
  }

  lemma TailMoves(s: State)
    requires Shape(s) && Enabled(s, PublishTail) && InLap(s, PublishTail)
    ensures var after := AfterPublishTail(s);
            && after.tail == Wrap(s.tail + s.reader.skip + s.reader.count, |s.buffer|)
            && after.buffer == s.buffer && after.head == s.head
  {
    hide Assemble, Slice;
  }

  lemma UnreadShrinks(s: State)
    requires Inv(s) && Enabled(s, PublishTail) && InLap(s, PublishTail)
    ensures var r, u := s.reader, Used(s.tail, s.head, |s.buffer|);
            && r.skip + r.count <= u == |Unread(s)|
            && Unread(AfterPublishTail(s)) == Unread(s)[r.skip + r.count..]
            && Slice(s.buffer, s.tail, r.skip) == Unread(s)[..r.skip]
            && Used(AfterPublishTail(s).tail, s.head, |s.buffer|) == u - r.skip - r.count
  {
    ReaderTakes(s);
    TailMoves(s);
    hide Inv, Slice, Used, Wrap, AfterPublishTail;
    SliceAfterRead(s.buffer, s.tail, s.head, s.reader.skip, s.reader.count);
  }

  lemma TakenMessage(s: State)
    requires Inv(s) && Enabled(s, PublishTail) && s.messages
    ensures var r, m := s.reader, s.sentMessages[|s.receivedMessages|];
            && r.count == |m| && Unread(s)[r.skip..r.skip + r.count] == m
            && Unread(s)[r.skip + r.count..] == Frames(s.sentMessages[|s.receivedMessages| + 1..])
  {
    hide Slice, Frames, WriterInv;
    var ms := s.sentMessages[|s.receivedMessages|..];
    FirstFrame(ms);
    assert ms[1..] == s.sentMessages[|s.receivedMessages| + 1..];
  }

  lemma MessagesAfterTaking(s: State)
    requires Inv(s) && Enabled(s, PublishTail) && InLap(s, PublishTail)
    ensures MessageInv(AfterPublishTail(s))
  {
    hide Slice, Frames, Used, Assemble, Unread, WriterInv, Wrap;
    TakenBytes(s);
    if s.messages {
      TakenMessage(s);
    }
  }

  /** A count of used space taken earlier still over-estimates once the reader has moved on. */
  lemma StaleStays(s: State)
    requires Inv(s) && Enabled(s, PublishTail) && InLap(s, PublishTail)
    ensures WriterInv(AfterPublishTail(s))
  {
    hide Slice, Frames, Frame, Used, Assemble, MessageInv, Wrap;
    TakenBytes(s);
  }

  lemma PublishTailKeepsInv(s: State)
    requires Inv(s) && Enabled(s, PublishTail)
    ensures InLap(s, PublishTail) && Inv(Next(s, PublishTail))
  {
    hide Slice, Frames, Used, Assemble, Unread, WriterInv, Facing, Wrap, MessageInv;
    InvInLap(s, PublishTail);
    TakenBytes(s);
    StaleStays(s);
    MessagesAfterTaking(s);
  }

  // ----- Whole runs -----

  ghost predicate Moves(s: State, step: Step, s': State)
  {
    Shape(s) && Enabled(s, step) && InLap(s, step) && s' == Next(s, step)
  }

  lemma StepKeepsInv(s: State, step: Step)
    requires Inv(s) && Enabled(s, step)
    ensures InLap(s, step) && Inv(Next(s, step))
  {
    hide *;
    match step {
      case CheckTail(retry) => ChecksOnly(s, step); CheckTailKeepsInv(s, retry);
      case CopyIn(k) => CopyInKeepsInv(s, k);
      case PublishHead => PublishHeadKeepsInv(s);
      case LoadHead => ChecksOnly(s, step); LoadHeadKeepsInv(s);
      case CopyLength(k) => CopyLengthKeepsInv(s, k);
      case DecodeLength => ChecksOnly(s, step); DecodeKeepsInv(s);
      case CopyOut(k) => CopyOutKeepsInv(s, k);
      case PublishTail => PublishTailKeepsInv(s);
      case _ => ChecksOnly(s, step); LoadsKeepInv(s, step);
    }
  }

  lemma ChecksOnly(s: State, step: Step)
    requires Inv(s) && Enabled(s, step)
    ensures Shape(s) && InLap(s, step)
    ensures step.CheckTail? ==> s.writer.CheckingTail?
    ensures step.LoadHead? ==> s.reader.LoadingHead?
  {
    InvInLap(s, step);
  }

  /** A run of the writer and the reader from an empty buffer. */
  ghost predicate Run(run: seq<State>, steps: seq<Step>)
  {
    && |run| == |steps| + 1
    && 0 < |run[0].buffer| <= LONGEST && run[0] == Initial(run[0].messages, run[0].batch, run[0].buffer)
    && forall i | 0 <= i < |steps| :: Moves(run[i], steps[i], run[i + 1])
  }

  lemma {:induction false} RunKeepsInv(run: seq<State>, steps: seq<Step>, n: nat)
    requires Run(run, steps) && n < |run|
    ensures Inv(run[n])
  {
    hide Inv, Next, Initial, Enabled, InLap;
    if n == 0 {
      InitialInv(run[0].messages, run[0].batch, run[0].buffer);
    } else {
      RunKeepsInv(run, steps, n - 1);
      assert Moves(run[n - 1], steps[n - 1], run[n]);
      StepKeepsInv(run[n - 1], steps[n - 1]);
    }
  }

  /** However the two are interleaved, the bytes received are a prefix of the bytes sent, and the messages
      received are whole, in order, and a prefix of those sent. */
  lemma RunDelivers(run: seq<State>, steps: seq<Step>)
    requires Run(run, steps)
    ensures var end := run[|steps|];
            && end.received <= end.sent
            && (end.messages ==> end.receivedMessages <= end.sentMessages)
  {
    RunKeepsInv(run, steps, |steps|);
    hide Run, WriterInv, ReaderInv, Frames, Slice;
  }

  /** The space a send goes by, even from an index out of date, is never more than there is; nor are the bytes a
      receive goes by. */
  lemma StaleCountsAreSafe(s: State)
    requires Inv(s)
    ensures s.writer.CheckingTail? ==>
              SpaceFrom(s.writer.tail, s.head, |s.buffer|) <= |s.buffer| - 1 - |Unread(s)|
    ensures s.reader.ReadingLength? ==> s.reader.available <= |Unread(s)|
    ensures s.reader.Taking? ==> s.reader.skip + s.reader.count <= |Unread(s)|
  {
    hide Frames, Frame;
  }

  /** A message is only ever taken whole: a reader holding bytes holds the front message and nothing else. */
  lemma ReaderHoldsWholeMessage(s: State)
    requires Inv(s) && s.messages && Enabled(s, PublishTail)
    ensures Assemble(s.reader.got, s.reader.count) == s.sentMessages[|s.receivedMessages|]
  {
    hide Slice, Frames, Used;
    InvInLap(s, PublishTail);
    TakenBytes(s);
    TakenMessage(s);
  }

  /** A writer that is not going to publish anything. */
  ghost predicate Refused(s: State)
  {
    s.writer.Resting? || (s.writer.Copying? && !s.writer.publish)
  }

  lemma RefusedAtOnce(s: State)
    requires Inv(s) && s.messages && s.writer.CheckingTail? && s.writer.original == s.tail
    requires s.writer.data == [] || |s.writer.data| + LENGTH_BYTES > SpaceFrom(s.writer.tail, s.head, |s.buffer|)
    ensures Refused(Next(s, CheckTail(false))) && SameSent(s, Next(s, CheckTail(false)))
  {
    hide Slice, Frames, Frame;
  }

  /** Nothing has been published since. */
  ghost predicate SameSent(s: State, s': State)
  {
    s'.head == s.head && s'.sent == s.sent && s'.sentMessages == s.sentMessages
  }

  lemma RefusedStays(s: State, step: Step)
    requires Inv(s) && Enabled(s, step) && InLap(s, step) && Refused(s) && !step.BeginSend?
    ensures Refused(Next(s, step)) && SameSent(s, Next(s, step))
  {
    hide Slice, Frames, Frame, WriterInv, ReaderInv, MessageInv;
  }

  /** A send that does not fit, or of nothing, publishes nothing up to where the writer rests and beyond, however its
      remaining steps are mixed with the reader's: head, bytes and messages sent stay, what is unread is what was and
      has not been received since, and as long as nothing is received it stays too. */
  lemma {:induction false} RefusedSendChangesNothing(run: seq<State>, steps: seq<Step>)
    requires |run| == |steps| + 1 && |steps| >= 1 && Inv(run[0])
    requires forall i | 0 <= i < |steps| :: Moves(run[i], steps[i], run[i + 1])
    requires steps[0] == CheckTail(false) && forall i | 0 < i < |steps| :: !steps[i].BeginSend?
    requires run[0].messages && run[0].writer.CheckingTail? && run[0].writer.original == run[0].tail
    requires run[0].writer.data == []
             || |run[0].writer.data| + LENGTH_BYTES > SpaceFrom(run[0].writer.tail, run[0].head, |run[0].buffer|)
    ensures var start, end := run[0], run[|steps|];
            && Inv(end) && Refused(end) && SameSent(start, end)
            && end.sent == end.received + Unread(end)
            && (end.received == start.received ==> Unread(end) == Unread(start))
  {
    hide Slice, Frames, Frame, WriterInv, ReaderInv, MessageInv, Next, Enabled, InLap, Refused, Unread, SpaceFrom;
    var k := |steps| - 1;
    assert Moves(run[k], steps[k], run[k + 1]);
    if k == 0 {
      RefusedAtOnce(run[0]);
      StepKeepsInv(run[0], steps[0]);
    } else {
      RefusedSendChangesNothing(run[..|steps|], steps[..k]);
      StepKeepsInv(run[k], steps[k]);
      RefusedStays(run[k], steps[k]);
    }
    SameUnread(run[0], run[|steps|]);
  }

  lemma SameUnread(start: State, end: State)
    requires Inv(start) && Inv(end) && end.sent == start.sent
    ensures end.received == start.received ==> Unread(end) == Unread(start)
  {
    hide Slice, Frames, Frame, WriterInv, ReaderInv, MessageInv, Unread;
    if end.received == start.received {
      var r := start.received;
      assert (r + Unread(start))[|r|..] == Unread(start);
      assert (r + Unread(end))[|r|..] == Unread(end);
    }
  }
}
