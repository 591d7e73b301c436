/** What a send and a receive come to when the other side does not move meanwhile: after a number of steps that is
    known beforehand they are done, in whatever order the bytes are copied. */
module StreamProgress {
  import opened Bytes
  import opened Ring
  import opened StreamSteps

  /** Numbers below `n`: all of them are there exactly if there are `n`. */
  lemma {:induction false} CountBelow(ks: set<nat>, n: nat)
    requires forall k | k in ks :: k < n
    ensures |ks| <= n && (|ks| == n <==> forall k | 0 <= k < n :: k in ks)
    decreases n
  {
    if n == 0 {
      assert ks == {};
    } else {
      var fewer := ks - {n - 1};
      CountBelow(fewer, n - 1);
      if n - 1 in ks {
        assert ks == fewer + {n - 1} && |ks| == |fewer| + 1;
        assert (forall k | 0 <= k < n :: k in ks) <==> forall k | 0 <= k < n - 1 :: k in fewer;
      } else {
        assert ks == fewer;
      }
    }
  }

  /** Consecutive steps from some state. */
  ghost predicate StepsFrom(run: seq<State>, steps: seq<Step>)
  {
    |run| == |steps| + 1 && forall i | 0 <= i < |steps| :: Moves(run[i], steps[i], run[i + 1])
  }

  // ----- Sending -----

  /** The steps of a send already begun that is not told to try again. */
  predicate OfSend(step: Step)
  {
    step.LoadTail? || step.LoadIndices? || step == CheckTail(false) || step.CopyIn? || step.PublishHead?
  }

  ghost function Space(s: State): nat
    requires Inv(s)
  {
    |s.buffer| - 1 - |Unread(s)|
  }

  /** A message that goes into the buffer whole, or bytes of which at least one does. */
  ghost predicate GoesIn(s: State, data: seq<Byte>)
    requires Inv(s)
  {
    && 0 < |data| < 0x1_0000_0000
    && if s.messages then |data| + LENGTH_BYTES <= Space(s) else Space(s) > 0
  }

  /** What of it goes in: a message behind its length, or as many bytes as there is room for. */
  ghost function WhatGoesIn(s: State, data: seq<Byte>): seq<Byte>
    requires Inv(s) && GoesIn(s, data)
  {
    if s.messages then Frame(data) else data[..Min(|data|, Space(s))]
  }

  /** A send of `data` begun in state `from`, before it is published. */
  ghost predicate UnderWay(from: State, data: seq<Byte>, s: State)
    requires Inv(from) && GoesIn(from, data)
  {
    && Inv(s) && s.messages == from.messages && |s.buffer| == |from.buffer|
    && s.tail == from.tail && s.head == from.head && s.sent == from.sent && s.sentMessages == from.sentMessages
    && s.received == from.received && s.receivedMessages == from.receivedMessages && s.reader == from.reader
    && Unread(s) == Unread(from)
    && match s.writer
       case Resting => false
       case LoadingTail(d) => d == data
       case LoadingIndices(d, original) => d == data && original == s.tail
       case CheckingTail(d, original, tail) => d == data && original == s.tail == tail
       case Copying(bytes, _, d, publish) =>
         publish && bytes == WhatGoesIn(from, data) && (s.messages ==> d == data)
  }

  /** How many steps a send still takes. */
  ghost function StepsLeft(w: Writer, n: nat): int
  {
    match w
    case Resting => 0
    case LoadingTail(_) => n + 4
    case LoadingIndices(_, _) => n + 3
    case CheckingTail(_, _, _) => n + 2
    case Copying(bytes, copied, _, _) => |bytes| - |copied| + 1
  }

  /** The send is done: what went in is behind what was unread, and nothing else has changed. */
  ghost predicate Sent(from: State, data: seq<Byte>, s: State)
    requires Inv(from) && GoesIn(from, data)
  {
    && Inv(s) && s.writer == Resting && s.reader == from.reader && s.tail == from.tail && s.messages == from.messages
    && s.sent == from.sent + WhatGoesIn(from, data) && Unread(s) == Unread(from) + WhatGoesIn(from, data)
    && s.received == from.received && s.receivedMessages == from.receivedMessages
    && s.sentMessages == if s.messages then from.sentMessages + [data] else from.sentMessages
  }

  lemma LoadStep(from: State, data: seq<Byte>, s: State, step: Step)
    requires Inv(from) && GoesIn(from, data) && UnderWay(from, data, s) && Enabled(s, step)
    requires step.LoadTail? || step.LoadIndices?
    ensures InLap(s, step) && UnderWay(from, data, Next(s, step))
    ensures StepsLeft(Next(s, step).writer, |WhatGoesIn(from, data)|)
            == StepsLeft(s.writer, |WhatGoesIn(from, data)|) - 1
  {
    StepKeepsInv(s, step);
    hide Slice, Used, Frames, Frame, WriterInv, ReaderInv, MessageInv, WhatGoesIn, GoesIn;
  }

  lemma CheckStep(from: State, data: seq<Byte>, s: State)
    requires Inv(from) && GoesIn(from, data) && UnderWay(from, data, s) && s.writer.CheckingTail?
    ensures UnderWay(from, data, Next(s, CheckTail(false)))
    ensures StepsLeft(Next(s, CheckTail(false)).writer, |WhatGoesIn(from, data)|)
            == StepsLeft(s.writer, |WhatGoesIn(from, data)|) - 1
  {
    StepKeepsInv(s, CheckTail(false));
    SpaceIs(s);
    SpaceIs(from);
    hide Slice, Used, Frames, WriterInv, ReaderInv, MessageInv;
  }

  /** The space a writer computes from indices that are right. */
  lemma SpaceIs(s: State)
    requires Inv(s)
    ensures SpaceFrom(s.tail, s.head, |s.buffer|) == Space(s)
  {
    hide Frames, Frame, WriterInv, ReaderInv, MessageInv;
  }

  /** A writer that finds the tail moved since it first looked goes round again, before it has copied anything, and
      comes to the check with the tail as it then is. */
  lemma MovedTailIsReadAgain(s: State, retry: bool)
    requires Inv(s) && s.writer.CheckingTail? && s.writer.original != s.tail
    ensures var again := Next(s, CheckTail(retry));
            && again == s.(writer := LoadingTail(s.writer.data)) && Inv(again)
            && var loaded := Next(again, LoadTail);
               Inv(loaded) && Next(loaded, LoadIndices).writer == CheckingTail(s.writer.data, s.tail, s.tail)
  {
    StepKeepsInv(s, CheckTail(retry));
    StepKeepsInv(Next(s, CheckTail(retry)), LoadTail);
    hide Slice, Used, Frames, Frame, WriterInv, ReaderInv, MessageInv;
  }

  lemma CopyStep(from: State, data: seq<Byte>, s: State, k: nat)
    requires Inv(from) && GoesIn(from, data) && UnderWay(from, data, s) && Enabled(s, CopyIn(k))
    ensures InLap(s, CopyIn(k)) && UnderWay(from, data, Next(s, CopyIn(k)))
    ensures StepsLeft(Next(s, CopyIn(k)).writer, |WhatGoesIn(from, data)|)
            == StepsLeft(s.writer, |WhatGoesIn(from, data)|) - 1
  {
    CopyInKeepsInv(s, k);
    hide Slice, Used, Frames, Frame, WriterInv, ReaderInv, MessageInv, WhatGoesIn, GoesIn, Unread;
  }

  lemma PublishStep(from: State, data: seq<Byte>, s: State)
    requires Inv(from) && GoesIn(from, data) && UnderWay(from, data, s) && Enabled(s, PublishHead)
    ensures InLap(s, PublishHead) && Sent(from, data, Next(s, PublishHead))
    ensures StepsLeft(s.writer, |WhatGoesIn(from, data)|) == 1
  {
    PublishHeadKeepsInv(s);
    UnreadGrows(s);
    CopiedBelow(s);
    CountBelow(s.writer.copied, |s.writer.bytes|);
    hide Slice, Used, Frames, Frame, WriterInv, ReaderInv, MessageInv, WhatGoesIn, Unread;
  }

  lemma CopiedBelow(s: State)
    requires Inv(s) && s.writer.Copying?
    ensures forall k | k in s.writer.copied :: k < |s.writer.bytes|
  {
    hide Slice, Used, Frames, Frame, ReaderInv, MessageInv;
  }

  lemma SendStep(from: State, data: seq<Byte>, s: State, step: Step)
    requires Inv(from) && GoesIn(from, data) && UnderWay(from, data, s) && OfSend(step) && Enabled(s, step)
    ensures InLap(s, step) && (UnderWay(from, data, Next(s, step)) || Sent(from, data, Next(s, step)))
    ensures StepsLeft(Next(s, step).writer, |WhatGoesIn(from, data)|)
            == StepsLeft(s.writer, |WhatGoesIn(from, data)|) - 1
  {
    InvInLap(s, step);
    hide UnderWay, GoesIn, WhatGoesIn, Inv;
    match step {
      case CheckTail(retry) => CheckStep(from, data, s);
      case CopyIn(k) => CopyStep(from, data, s, k);
      case PublishHead => PublishStep(from, data, s);
      case _ => LoadStep(from, data, s, step);
    }
  }

  /** A send that is under way can always take a step, and has at most so many left. */
  lemma SendCanGoOn(from: State, data: seq<Byte>, s: State)
    requires Inv(from) && GoesIn(from, data) && UnderWay(from, data, s)
    ensures exists step :: OfSend(step) && Enabled(s, step)
    ensures StepsLeft(s.writer, |WhatGoesIn(from, data)|) >= 1
  {
    match s.writer {
      case LoadingTail(_) => assert OfSend(LoadTail) && Enabled(s, LoadTail);
      case LoadingIndices(_, _) => assert OfSend(LoadIndices) && Enabled(s, LoadIndices);
      case CheckingTail(_, _, _) => assert OfSend(CheckTail(false)) && Enabled(s, CheckTail(false));
      case Copying(bytes, copied, _, _) =>
        CopiedBelow(s);
        CountBelow(copied, |bytes|);
        if k :| 0 <= k < |bytes| && k !in copied {
          assert OfSend(CopyIn(k)) && Enabled(s, CopyIn(k));
        } else {
          assert OfSend(PublishHead) && Enabled(s, PublishHead);
        }
    }
  }

  /** A send begun and not disturbed. */
  ghost predicate SendAlone(run: seq<State>, steps: seq<Step>, data: seq<Byte>)
  {
    && StepsFrom(run, steps) && |steps| >= 1 && steps[0] == BeginSend(data) && Inv(run[0]) && GoesIn(run[0], data)
    && forall i | 0 < i < |steps| :: OfSend(steps[i])
  }

  lemma {:induction false} SendSoFar(run: seq<State>, steps: seq<Step>, data: seq<Byte>, n: nat)
    requires SendAlone(run, steps, data) && 1 <= n <= |steps|
    ensures UnderWay(run[0], data, run[n]) || Sent(run[0], data, run[n])
    ensures StepsLeft(run[n].writer, |WhatGoesIn(run[0], data)|) == |WhatGoesIn(run[0], data)| + 5 - n
  {
    hide UnderWay, Sent, GoesIn, WhatGoesIn, Inv, Next, Enabled, InLap, Shape;
    assert Moves(run[n - 1], steps[n - 1], run[n]);
    if n == 1 {
      SendBegun(run[0], data);
    } else {
      SendSoFar(run, steps, data, n - 1);
      if Sent(run[0], data, run[n - 1]) {
        NothingMore(run[0], data, run[n - 1], steps[n - 1]);
      } else {
        SendStep(run[0], data, run[n - 1], steps[n - 1]);
      }
    }
  }

  lemma SendBegun(from: State, data: seq<Byte>)
    requires Inv(from) && GoesIn(from, data) && Enabled(from, BeginSend(data))
    ensures UnderWay(from, data, Next(from, BeginSend(data)))
    ensures Next(from, BeginSend(data)).writer == LoadingTail(data)
  {
    StepKeepsInv(from, BeginSend(data));
    hide Slice, Used, Frames, Frame, WriterInv, ReaderInv, MessageInv, WhatGoesIn, GoesIn;
  }

  lemma NothingMore(from: State, data: seq<Byte>, s: State, step: Step)
    requires Inv(from) && GoesIn(from, data) && Sent(from, data, s) && OfSend(step) && Shape(s)
    ensures !Enabled(s, step)
  {
  }

  /** A message that fits, or bytes for which there is some room, sent while the reader does not move: the send is
      over after five steps and one for each byte that goes in, and never before; then what is unread and what was
      sent have grown by exactly these bytes: a message whole, behind its length low byte first, or as much of a stream
      as there was room for. Until then the send can go on and nothing has been published. */
  lemma SendAloneIsPublished(run: seq<State>, steps: seq<Step>, data: seq<Byte>)
    requires SendAlone(run, steps, data)
    ensures var start, end := run[0], run[|steps|];
            var room := |start.buffer| - 1 - |Unread(start)|;
            var bytes := if start.messages then StoreWord(|data|) + data
                         else if |data| <= room then data else data[..room];
            && Inv(end) && |steps| <= |bytes| + 5
            && (end.writer == Resting <==> |steps| == |bytes| + 5)
            && end.received == start.received && end.receivedMessages == start.receivedMessages
            && if end.writer == Resting then
                 && end.sent == start.sent + bytes && Unread(end) == Unread(start) + bytes
                 && end.sentMessages == if start.messages then start.sentMessages + [data] else start.sentMessages
               else
                 && end.sent == start.sent && Unread(end) == Unread(start) && end.sentMessages == start.sentMessages
                 && exists step :: OfSend(step) && Enabled(end, step)
  {
    SendSoFar(run, steps, data, |steps|);
    if UnderWay(run[0], data, run[|steps|]) {
      SendCanGoOn(run[0], data, run[|steps|]);
    }
    hide Slice, Used, Frames, WriterInv, ReaderInv, MessageInv, Next, Enabled, InLap;
  }

  // ----- Receiving -----

  predicate OfReceive(step: Step)
  {
    step.LoadHead? || step.CopyLength? || step.DecodeLength? || step.CopyOut? || step.PublishTail?
  }

  /** There is something a receive takes: a message for which there is room, or more bytes than the batch asks for. */
  ghost predicate ComesOut(s: State, room: nat)
    requires Inv(s)
  {
    if s.messages then
      |s.receivedMessages| < |s.sentMessages| && |s.sentMessages[|s.receivedMessages|]| <= room
    else room > 0 && |Unread(s)| > s.batch
  }

  /** How many bytes it takes, leaving out a length before them. */
  ghost function HowMuchComesOut(s: State, room: nat): (n: nat)
    requires Inv(s) && ComesOut(s, room)
    ensures n > 0
  {
    if s.messages then |s.sentMessages[|s.receivedMessages|]| else Min(room, |Unread(s)|)
  }

  /** A receive begun in state `from`, before what it takes is released. */
  ghost predicate Fetching(from: State, room: nat, s: State)
    requires Inv(from) && ComesOut(from, room)
  {
    && Inv(s) && s == from.(reader := s.reader)
    && match s.reader
       case Waiting => false
       case LoadingHead(r) => r == room
       case ReadingLength(r, available, _) => r == room && s.messages
       case Taking(skip, count, _) =>
         count == HowMuchComesOut(from, room) && skip == if s.messages then LENGTH_BYTES else 0
  }

  /** The oldest message, or the oldest bytes, have been received; what is left is behind them. */
  ghost predicate Fetched(from: State, room: nat, s: State)
    requires Inv(from) && ComesOut(from, room)
  {
    var n := (if from.messages then LENGTH_BYTES else 0) + HowMuchComesOut(from, room);
    && Inv(s) && s.reader == Waiting && s.writer == from.writer && s.head == from.head
    && s.sent == from.sent && s.sentMessages == from.sentMessages && s.messages == from.messages
    && n <= |Unread(from)| && s.received == from.received + Unread(from)[..n] && Unread(s) == Unread(from)[n..]
    && s.receivedMessages == if s.messages then from.receivedMessages + [s.sentMessages[|from.receivedMessages|]]
                             else from.receivedMessages
  }

  ghost function ReceiveLeft(r: Reader, messages: bool, n: nat): int
  {
    match r
    case Waiting => 0
    case LoadingHead(_) => if messages then n + 7 else n + 2
    case ReadingLength(_, _, got) => n + 6 - |got.Keys|
    case Taking(_, count, got) => count - |got.Keys| + 1
  }

  lemma HeadStep(from: State, room: nat, s: State)
    requires Inv(from) && ComesOut(from, room) && Fetching(from, room, s) && s.reader.LoadingHead?
    ensures Fetching(from, room, Next(s, LoadHead))
    ensures ReceiveLeft(Next(s, LoadHead).reader, s.messages, HowMuchComesOut(from, room))
            == ReceiveLeft(s.reader, s.messages, HowMuchComesOut(from, room)) - 1
  {
    StepKeepsInv(s, LoadHead);
    if s.messages {
      FirstFrame(s.sentMessages[|s.receivedMessages|..]);
    }
    hide Slice, Frames, Frame, WriterInv;
  }

  lemma LengthStep(from: State, room: nat, s: State, k: nat)
    requires Inv(from) && ComesOut(from, room) && Fetching(from, room, s) && Enabled(s, CopyLength(k))
    ensures InLap(s, CopyLength(k)) && Fetching(from, room, Next(s, CopyLength(k)))
    ensures ReceiveLeft(Next(s, CopyLength(k)).reader, s.messages, HowMuchComesOut(from, room))
            == ReceiveLeft(s.reader, s.messages, HowMuchComesOut(from, room)) - 1
  {
    StepKeepsInv(s, CopyLength(k));
    hide Slice, Used, Frames, Frame, WriterInv, ReaderInv, MessageInv, Unread, HowMuchComesOut, ComesOut;
    assert Next(s, CopyLength(k)).reader.got.Keys == s.reader.got.Keys + {k};
  }

  lemma DecodeStep(from: State, room: nat, s: State)
    requires Inv(from) && ComesOut(from, room) && Fetching(from, room, s) && Enabled(s, DecodeLength)
    ensures Fetching(from, room, Next(s, DecodeLength))
    ensures ReceiveLeft(Next(s, DecodeLength).reader, s.messages, HowMuchComesOut(from, room))
            == ReceiveLeft(s.reader, s.messages, HowMuchComesOut(from, room)) - 1
  {
    DecodeKeepsInv(s);
    LengthBelow(s);
    CountBelow(s.reader.got.Keys, LENGTH_BYTES);
    hide Slice, Used, Frames, Frame, WriterInv, ReaderInv, MessageInv, Unread;
  }

  lemma LengthBelow(s: State)
    requires Inv(s)
    ensures s.reader.ReadingLength? ==> forall k | k in s.reader.got.Keys :: k < LENGTH_BYTES
    ensures s.reader.Taking? ==> forall k | k in s.reader.got.Keys :: k < s.reader.count
  {
    hide Slice, Used, Frames, Frame, WriterInv, MessageInv;
  }

  lemma TakeStep(from: State, room: nat, s: State, k: nat)
    requires Inv(from) && ComesOut(from, room) && Fetching(from, room, s) && Enabled(s, CopyOut(k))
    ensures InLap(s, CopyOut(k)) && Fetching(from, room, Next(s, CopyOut(k)))
    ensures ReceiveLeft(Next(s, CopyOut(k)).reader, s.messages, HowMuchComesOut(from, room))
            == ReceiveLeft(s.reader, s.messages, HowMuchComesOut(from, room)) - 1
  {
    StepKeepsInv(s, CopyOut(k));
    hide Slice, Used, Frames, Frame, WriterInv, ReaderInv, MessageInv, Unread, HowMuchComesOut, ComesOut;
    assert Next(s, CopyOut(k)).reader.got.Keys == s.reader.got.Keys + {k};
  }

  lemma HandedOver(s: State)
    requires Shape(s) && Enabled(s, PublishTail) && InLap(s, PublishTail) && s.reader.skip <= |s.buffer|
    ensures var r, after := s.reader, AfterPublishTail(s);
            && after.received == s.received + Slice(s.buffer, s.tail, r.skip) + Assemble(r.got, r.count)
            && after == s.(tail := after.tail, reader := Waiting, received := after.received,
                           receivedMessages := after.receivedMessages)
            && (!s.messages ==> after.receivedMessages == s.receivedMessages)
            && (s.messages && 0 < r.count < 0x1_0000_0000 ==>
                  after.receivedMessages == s.receivedMessages + [Assemble(r.got, r.count)])
  {
    hide Slice, Assemble, Wrap;
  }

  lemma Joined(r: seq<Byte>, u: seq<Byte>, i: nat, j: nat)
    requires i <= j <= |u|
    ensures r + u[..i] + u[i..j] == r + u[..j]
  {
  }

  /** What releasing hands over, as one piece of what was unread. */
  lemma Released(s: State)
    requires Inv(s) && Enabled(s, PublishTail) && InLap(s, PublishTail)
    ensures var r, after := s.reader, AfterPublishTail(s);
            && r.skip + r.count <= |Unread(s)|
            && after.received == s.received + Unread(s)[..r.skip + r.count]
            && Unread(after) == Unread(s)[r.skip + r.count..]
            && after == s.(tail := after.tail, reader := Waiting, received := after.received,
                           receivedMessages := after.receivedMessages)
            && (!s.messages ==> after.receivedMessages == s.receivedMessages)
            && (s.messages && 0 < r.count < 0x1_0000_0000 ==>
                  after.receivedMessages == s.receivedMessages + [Assemble(r.got, r.count)])
  {
    TakenIsFront(s);
    UnreadShrinks(s);
    hide Inv, Unread, Slice, Used, Wrap, AfterPublishTail, Assemble;
    HandedOver(s);
    Joined(s.received, Unread(s), s.reader.skip, s.reader.skip + s.reader.count);
  }

  lemma ReleaseStep(from: State, room: nat, s: State)
    requires Inv(from) && ComesOut(from, room) && Fetching(from, room, s) && Enabled(s, PublishTail)
    ensures InLap(s, PublishTail) && Fetched(from, room, Next(s, PublishTail))
    ensures ReceiveLeft(s.reader, s.messages, HowMuchComesOut(from, room)) == 1
  {
    StepKeepsInv(s, PublishTail);
    AfterRelease(s);
    SameBut(from, s);
    TakesWhere(from, room, s);
    hide Inv, Unread, HowMuchComesOut, ComesOut, Fetching, Next;
  }

  lemma TakesWhere(from: State, room: nat, s: State)
    requires Inv(from) && ComesOut(from, room) && Fetching(from, room, s) && s.reader.Taking?
    ensures s == from.(reader := s.reader) && s.reader.count == HowMuchComesOut(from, room)
    ensures s.reader.skip == if s.messages then LENGTH_BYTES else 0
  {
    hide Inv, Unread, HowMuchComesOut, ComesOut;
  }

  lemma AfterRelease(s: State)
    requires Inv(s) && Enabled(s, PublishTail) && InLap(s, PublishTail)
    ensures var r, after := s.reader, Next(s, PublishTail);
            && r.skip + r.count <= |Unread(s)| && |r.got.Keys| == r.count
            && (s.messages ==> |s.receivedMessages| < |s.sentMessages|)
            && Shape(after) && Unread(after) == Unread(s)[r.skip + r.count..]
            && after == s.(tail := after.tail, reader := Waiting,
                           received := s.received + Unread(s)[..r.skip + r.count],
                           receivedMessages := if s.messages
                             then s.receivedMessages + [s.sentMessages[|s.receivedMessages|]] else s.receivedMessages)
  {
    Released(s);
    MessageLength(s);
    if s.messages {
      ReaderHoldsWholeMessage(s);
      FacesOne(s);
    }
    hide Inv, Unread, Assemble, Slice, Used, Wrap, Frames, Frame, AfterPublishTail;
    assert Next(s, PublishTail) == AfterPublishTail(s);
  }

  lemma FacesOne(s: State)
    requires Inv(s) && s.messages && s.reader.Taking?
    ensures |s.receivedMessages| < |s.sentMessages|
  {
    hide Slice, Used, Frames, Frame, WriterInv, MessageInv, Unread;
  }

  lemma MessageLength(s: State)
    requires Inv(s) && Enabled(s, PublishTail)
    ensures s.messages ==> 0 < s.reader.count < 0x1_0000_0000
    ensures |s.reader.got.Keys| == s.reader.count
  {
    LengthBelow(s);
    CountBelow(s.reader.got.Keys, s.reader.count);
    hide Slice, Used, Frames, Frame, WriterInv, MessageInv, Unread;
  }

  /** What lies in the buffer does not depend on what a reader is doing. */
  lemma SameBut(from: State, s: State)
    requires Shape(from) && Shape(s) && s == from.(reader := s.reader)
    ensures Unread(s) == Unread(from)
  {
    hide Slice, Used;
  }

  lemma ReceiveStep(from: State, room: nat, s: State, step: Step)
    requires Inv(from) && ComesOut(from, room) && Fetching(from, room, s) && OfReceive(step) && Enabled(s, step)
    ensures InLap(s, step) && (Fetching(from, room, Next(s, step)) || Fetched(from, room, Next(s, step)))
    ensures ReceiveLeft(Next(s, step).reader, s.messages, HowMuchComesOut(from, room))
            == ReceiveLeft(s.reader, s.messages, HowMuchComesOut(from, room)) - 1
    ensures Next(s, step).messages == s.messages
  {
    InvInLap(s, step);
    hide Fetching, ComesOut, HowMuchComesOut, Inv;
    match step {
      case LoadHead => HeadStep(from, room, s);
      case CopyLength(k) => LengthStep(from, room, s, k);
      case DecodeLength => DecodeStep(from, room, s);
      case CopyOut(k) => TakeStep(from, room, s, k);
      case PublishTail => ReleaseStep(from, room, s);
    }
  }

  lemma ReceiveCanGoOn(from: State, room: nat, s: State)
    requires Inv(from) && ComesOut(from, room) && Fetching(from, room, s)
    ensures exists step :: OfReceive(step) && Enabled(s, step)
    ensures ReceiveLeft(s.reader, s.messages, HowMuchComesOut(from, room)) >= 1
  {
    LengthBelow(s);
    match s.reader {
      case LoadingHead(_) => assert OfReceive(LoadHead) && Enabled(s, LoadHead);
      case ReadingLength(_, _, got) =>
        CountBelow(got.Keys, LENGTH_BYTES);
        if k :| 0 <= k < LENGTH_BYTES && k !in got {
          assert OfReceive(CopyLength(k)) && Enabled(s, CopyLength(k));
        } else {
          assert OfReceive(DecodeLength) && Enabled(s, DecodeLength);
        }
      case Taking(_, count, got) =>
        CountBelow(got.Keys, count);
        if k :| 0 <= k < count && k !in got {
          assert OfReceive(CopyOut(k)) && Enabled(s, CopyOut(k));
        } else {
          assert OfReceive(PublishTail) && Enabled(s, PublishTail);
        }
    }
  }

  /** A receive begun and not disturbed. */
  ghost predicate ReceiveAlone(run: seq<State>, steps: seq<Step>, room: nat)
  {
    && StepsFrom(run, steps) && |steps| >= 1 && steps[0] == BeginReceive(room) && Inv(run[0])
    && forall i | 0 < i < |steps| :: OfReceive(steps[i])
  }

  /** What a whole receive takes, in steps. */
  ghost function ReceiveSteps(s: State, room: nat): nat
    requires Inv(s) && ComesOut(s, room)
  {
    if s.messages then HowMuchComesOut(s, room) + 8 else HowMuchComesOut(s, room) + 3
  }

  lemma {:induction false} ReceiveSoFar(run: seq<State>, steps: seq<Step>, room: nat, n: nat)
    requires ReceiveAlone(run, steps, room) && ComesOut(run[0], room) && 1 <= n <= |steps|
    ensures Fetching(run[0], room, run[n]) || Fetched(run[0], room, run[n])
    ensures run[n].messages == run[0].messages
    ensures ReceiveLeft(run[n].reader, run[0].messages, HowMuchComesOut(run[0], room))
            == ReceiveSteps(run[0], room) - n
  {
    hide Fetching, Fetched, ComesOut, HowMuchComesOut, Inv, Next, Enabled, InLap, Shape;
    assert Moves(run[n - 1], steps[n - 1], run[n]);
    if n == 1 {
      ReceiveBegun(run[0], room);
    } else {
      ReceiveSoFar(run, steps, room, n - 1);
      if Fetched(run[0], room, run[n - 1]) {
        NothingMoreToTake(run[0], room, run[n - 1], steps[n - 1]);
      } else {
        ReceiveStep(run[0], room, run[n - 1], steps[n - 1]);
      }
    }
  }

  lemma ReceiveBegun(from: State, room: nat)
    requires Inv(from) && Enabled(from, BeginReceive(room))
    ensures Inv(Next(from, BeginReceive(room)))
    ensures Next(from, BeginReceive(room)) == from.(reader := LoadingHead(room))
    ensures ComesOut(from, room) ==> Fetching(from, room, Next(from, BeginReceive(room)))
  {
    StepKeepsInv(from, BeginReceive(room));
    hide Slice, Used, Frames, Frame, WriterInv, ReaderInv, MessageInv, ComesOut;
  }

  lemma NothingMoreToTake(from: State, room: nat, s: State, step: Step)
    requires Inv(from) && ComesOut(from, room) && Fetched(from, room, s) && OfReceive(step) && Shape(s)
    ensures !Enabled(s, step)
  {
  }

  /** A receive with room for the oldest message, while the writer does not move: it is over after eight steps and one
      for each byte of the message, and never before; then that message has been received whole, and it is no longer
      unread. From a stream, with more bytes there than the batch asks for, it is over after three steps and one for
      each byte, having taken the oldest bytes, as many as there are or there is room for. Until then it can go on. */
  lemma ReceiveAloneTakes(run: seq<State>, steps: seq<Step>, room: nat)
    requires ReceiveAlone(run, steps, room)
    requires if run[0].messages then
               |run[0].receivedMessages| < |run[0].sentMessages|
               && |run[0].sentMessages[|run[0].receivedMessages|]| <= room
             else room > 0 && |Unread(run[0])| > run[0].batch
    ensures var start, end := run[0], run[|steps|];
            var size := if start.messages then |start.sentMessages[|start.receivedMessages|]|
                        else if room <= |Unread(start)| then room else |Unread(start)|;
            var all, most := if start.messages then 4 + size else size, if start.messages then size + 8 else size + 3;
            && Inv(end) && |steps| <= most && (end.reader == Waiting <==> |steps| == most) && all <= |Unread(start)|
            && end.sent == start.sent && end.sentMessages == start.sentMessages
            && if end.reader == Waiting then
                 && end.received == start.received + Unread(start)[..all] && Unread(end) == Unread(start)[all..]
                 && end.receivedMessages ==
                    if start.messages then start.receivedMessages + [start.sentMessages[|start.receivedMessages|]]
                    else start.receivedMessages
               else
                 && end.received == start.received && end.receivedMessages == start.receivedMessages
                 && Unread(end) == Unread(start) && exists step :: OfReceive(step) && Enabled(end, step)
  {
    ReceiveSoFar(run, steps, room, |steps|);
    ThereIsSoMuch(run[0], room);
    if Fetching(run[0], room, run[|steps|]) {
      ReceiveCanGoOn(run[0], room, run[|steps|]);
      SameBut(run[0], run[|steps|]);
    }
    hide Slice, Used, Frames, WriterInv, ReaderInv, MessageInv, Next, Enabled, InLap, Unread;
  }

  lemma ThereIsSoMuch(s: State, room: nat)
    requires Inv(s) && ComesOut(s, room)
    ensures HowMuchComesOut(s, room) + (if s.messages then 4 else 0) <= |Unread(s)|
  {
    if s.messages {
      FirstFrame(s.sentMessages[|s.receivedMessages|..]);
    }
    hide Slice, Used, Frames, Frame, WriterInv, ReaderInv;
  }

  // ----- Receiving nothing -----

  /** A reader that has taken nothing and is not about to. */
  ghost predicate LeftAlone(from: State, room: nat, s: State)
  {
    && Inv(s) && s == from.(reader := s.reader) && !s.reader.Taking?
    && (s.reader.LoadingHead? || s.reader.ReadingLength? ==> s.reader.room == room)
  }

  lemma NothingStep(from: State, room: nat, s: State, step: Step)
    requires Inv(from) && !ComesOut(from, room) && LeftAlone(from, room, s) && OfReceive(step) && Enabled(s, step)
    ensures InLap(s, step) && LeftAlone(from, room, Next(s, step))
  {
    StepKeepsInv(s, step);
    if step.DecodeLength? {
      DecodeKeepsInv(s);
    }
    hide Slice, Used, Frames, Frame, WriterInv, MessageInv, Unread;
  }

  /** A receive without room for the oldest message reads its length and leaves it; one from a buffer without a message,
      or from a stream with no more than the batch asks for, only looks. Nothing is received then, however far the
      receive has come, and what is unread stays. */
  lemma {:induction false} ReceiveAloneLeaves(run: seq<State>, steps: seq<Step>, room: nat)
    requires ReceiveAlone(run, steps, room)
    requires if run[0].messages then
               |run[0].receivedMessages| == |run[0].sentMessages|
               || |run[0].sentMessages[|run[0].receivedMessages|]| > room
             else room == 0 || |Unread(run[0])| <= run[0].batch
    ensures LeftAlone(run[0], room, run[|steps|]) && Unread(run[|steps|]) == Unread(run[0])
    ensures run[|steps|].received == run[0].received && run[|steps|].receivedMessages == run[0].receivedMessages
  {
    hide Inv, Next, Enabled, InLap, Shape, Unread;
    var k := |steps| - 1;
    assert Moves(run[k], steps[k], run[k + 1]);
    if k == 0 {
      ReceiveBegun(run[0], room);
    } else {
      ReceiveAloneLeaves(run[..|steps|], steps[..k], room);
      NothingStep(run[0], room, run[k], steps[k]);
    }
    KeepsShape(run[0]);
    KeepsShape(run[|steps|]);
    SameBut(run[0], run[|steps|]);
  }

  lemma KeepsShape(s: State)
    requires Inv(s)
    ensures Shape(s)
  {
  }
}
