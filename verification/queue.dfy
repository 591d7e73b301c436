/** Queues: a ring of item slots used from both ends, the tasks waiting on it, and the counters that let interrupts
    use it while a task has it locked. */
module Queues {

  datatype Position = ToBack | ToFront | Overwrite

  datatype Waiter = Waiter(task: nat, priority: nat)

  const UNLOCKED := -1
  const LOCKED_UNMODIFIED := 0
  const INT8_MAX := 127

  // ----- Slots -----

  /** The slot `k` places after the one following `readFrom`. */
  function Slot(readFrom: nat, k: nat, length: nat): (slot: nat)
    requires readFrom < length && k <= length
    ensures slot < length
  {
    var x := readFrom + 1 + k;
    if x >= 2 * length then x - 2 * length else if x >= length then x - length else x
  }

  lemma SlotIsModular(readFrom: nat, k: nat, length: nat)
    requires readFrom < length && k <= length
    ensures Slot(readFrom, k, length) == (readFrom + 1 + k) % length
  {
    var x, slot := readFrom + 1 + k, Slot(readFrom, k, length);
    var laps := if x >= 2 * length then 2 else if x >= length then 1 else 0;
    assert x == laps * length + slot;
    RemainderOf(x, laps, slot, length);
  }

  lemma AtLeastOneLap(laps: int, length: nat)
    ensures laps >= 1 ==> laps * length >= length
    ensures laps <= -1 ==> laps * length <= 0 - length
  {
    if laps >= 1 {
      assert laps * length == (laps - 1) * length + length;
    } else if laps <= -1 {
      assert laps * length == (laps + 1) * length - length;
    }
  }

  lemma RemainderOf(x: nat, laps: nat, rest: nat, length: nat)
    requires x == laps * length + rest && rest < length
    ensures x % length == rest
  {
    var q, r := x / length, x % length;
    AtLeastOneLap(q - laps, length);
    assert (q - laps) * length == q * length - laps * length;
  }

  function Next(slot: nat, length: nat): (next: nat)
    requires slot < length
    ensures next < length
  {
    if slot + 1 >= length then 0 else slot + 1
  }

  function Previous(slot: nat, length: nat): (previous: nat)
    requires slot < length
    ensures previous < length
  {
    if slot == 0 then length - 1 else slot - 1
  }

  /** The items a queue holds, oldest first. */
  ghost function Items<T>(slots: seq<T>, readFrom: nat, count: nat): (items: seq<T>)
    requires readFrom < |slots| && count <= |slots|
    ensures |items| == count
    ensures forall i | 0 <= i < count :: items[i] == slots[Slot(readFrom, i, |slots|)]
  {
    seq(count, i requires 0 <= i < count => slots[Slot(readFrom, i, |slots|)])
  }

  lemma SentToBack<T>(slots: seq<T>, readFrom: nat, count: nat, item: T)
    requires readFrom < |slots| && count < |slots|
    ensures var w := Slot(readFrom, count, |slots|);
            && Items(slots[w := item], readFrom, count + 1) == Items(slots, readFrom, count) + [item]
            && Next(w, |slots|) == Slot(readFrom, count + 1, |slots|)
  {
  }

  lemma SentToFront<T>(slots: seq<T>, readFrom: nat, count: nat, item: T)
    requires readFrom < |slots| && count < |slots|
    ensures var r := Previous(readFrom, |slots|);
            && Items(slots[readFrom := item], r, count + 1) == [item] + Items(slots, readFrom, count)
            && Slot(readFrom, count, |slots|) == Slot(r, count + 1, |slots|)
  {
    var r, after := Previous(readFrom, |slots|), slots[readFrom := item];
    forall i | 0 <= i < count + 1
      ensures Items(after, r, count + 1)[i] == ([item] + Items(slots, readFrom, count))[i]
    {
      if i > 0 {
        assert Slot(r, i, |slots|) == Slot(readFrom, i - 1, |slots|) != readFrom;
      }
    }
  }

  lemma SentOver<T>(slots: seq<T>, count: nat, item: T)
    requires |slots| == 1 && count <= 1
    ensures Items(slots[0 := item], 0, 1) == [item] && Slot(0, count, 1) == Slot(0, 1, 1) == 0
  {
  }

  lemma NextSlot(slot: nat, length: nat)
    requires slot < length
    ensures Next(slot, length) == if slot + 1 >= length then 0 else slot + 1
  {
  }

  lemma Taken<T>(slots: seq<T>, readFrom: nat, count: nat)
    requires readFrom < |slots| && 0 < count <= |slots|
    ensures var r := Next(readFrom, |slots|);
            && slots[r] == Items(slots, readFrom, count)[0]
            && Items(slots, r, count - 1) == Items(slots, readFrom, count)[1..]
            && Slot(readFrom, count, |slots|) == Slot(r, count - 1, |slots|)
  {
    var r := Next(readFrom, |slots|);
    forall i | 0 <= i < count - 1 ensures Items(slots, r, count - 1)[i] == Items(slots, readFrom, count)[1..][i] {
      assert Slot(r, i, |slots|) == Slot(readFrom, i + 1, |slots|);
    }
  }

  // ----- Waiting tasks -----

  ghost predicate ByPriority(ws: seq<Waiter>)
  {
    forall i, j | 0 <= i < j < |ws| :: ws[i].priority >= ws[j].priority
  }

  /** Where a newcomer goes: behind everyone of its own priority or higher. */
  function Placed(ws: seq<Waiter>, w: Waiter): (after: seq<Waiter>)
    ensures |after| == |ws| + 1 && multiset(after) == multiset(ws) + multiset{w}
  {
    if ws == [] then [w]
    else if ws[0].priority >= w.priority then
      assert ws == [ws[0]] + ws[1..];
      [ws[0]] + Placed(ws[1..], w)
    else [w] + ws
  }

  lemma {:induction false} PlacedByPriority(ws: seq<Waiter>, w: Waiter)
    requires ByPriority(ws)
    ensures ByPriority(Placed(ws, w))
    ensures ws != [] ==>
              Placed(ws, w)[0].priority == if ws[0].priority >= w.priority then ws[0].priority else w.priority
  {
    if ws != [] && ws[0].priority >= w.priority {
      var rest := ws[1..];
      PlacedByPriority(rest, w);
      assert Placed(ws, w) == [ws[0]] + Placed(rest, w);
      assert rest != [] ==> rest[0] == ws[1];
    }
  }

  /** How many are woken before a newcomer. */
  ghost function Ahead(ws: seq<Waiter>, w: Waiter): (k: nat)
    ensures k <= |ws| && (forall i | 0 <= i < k :: ws[i].priority >= w.priority)
    ensures k < |ws| ==> ws[k].priority < w.priority
  {
    if ws == [] then 0 else if ws[0].priority >= w.priority then 1 + Ahead(ws[1..], w) else 0
  }

  /** A newcomer stands behind everyone of its own priority or higher, before everyone of a lower one, and the others
      keep their order. */
  lemma PlacedBehindEquals(ws: seq<Waiter>, w: Waiter)
    requires ByPriority(ws)
    ensures var k := Ahead(ws, w);
            && Placed(ws, w) == ws[..k] + [w] + ws[k..]
            && (forall i | 0 <= i < k :: ws[i].priority >= w.priority)
            && (forall i | k <= i < |ws| :: ws[i].priority < w.priority)
  {
    PlacedAtAhead(ws, w);
    hide Placed, Ahead;
    var k := Ahead(ws, w);
    forall i | k <= i < |ws| ensures ws[i].priority < w.priority {
      assert ws[k].priority >= ws[i].priority;
    }
  }

  lemma {:induction false} PlacedAtAhead(ws: seq<Waiter>, w: Waiter)
    ensures var k := Ahead(ws, w); Placed(ws, w) == ws[..k] + [w] + ws[k..]
  {
    if ws != [] && ws[0].priority >= w.priority {
      PlacedAtAhead(ws[1..], w);
      BehindFirst(ws, w, Ahead(ws[1..], w));
    }
  }

  lemma BehindFirst(ws: seq<Waiter>, w: Waiter, k: nat)
    requires ws != [] && k < |ws|
    ensures [ws[0]] + (ws[1..][..k] + [w] + ws[1..][k..]) == ws[..k + 1] + [w] + ws[k + 1..]
  {
  }

  /** A newcomer is still waiting after `n` wake-ups exactly when those ahead of it took them all. */
  lemma {:induction false} WokenInTurn(ws: seq<Waiter>, w: Waiter, n: nat)
    requires w !in ws
    ensures w in LeftAfter(Placed(ws, w), n) <==> n <= Ahead(ws, w)
  {
    if ws == [] {
    } else if ws[0].priority >= w.priority {
      WokenInTurn(ws[1..], w, if n == 0 then 0 else n - 1);
      OneAhead(ws[0], Placed(ws[1..], w), w, n);
      assert w !in [ws[0]];
      hide LeftAfter;
    } else {
      FirstInLine(ws, w, n);
      hide LeftAfter;
    }
  }

  lemma OneAhead(first: Waiter, rest: seq<Waiter>, w: Waiter, n: nat)
    requires w != first
    ensures w in LeftAfter([first] + rest, n) <==>
              if n == 0 then w in LeftAfter(rest, 0) else w in LeftAfter(rest, n - 1)
  {
    if n == 0 {
      assert LeftAfter([first] + rest, 0) == [first] + LeftAfter(rest, 0);
    } else {
      assert LeftAfter([first] + rest, n) == LeftAfter(rest, n - 1);
    }
  }

  lemma FirstInLine(ws: seq<Waiter>, w: Waiter, n: nat)
    requires w !in ws
    ensures w in LeftAfter([w] + ws, n) <==> n == 0
  {
    if n == 0 {
      assert LeftAfter([w] + ws, 0)[0] == w;
    } else {
      assert LeftAfter([w] + ws, n) == LeftAfter(ws, n - 1);
    }
  }

  function Min(a: nat, b: nat): nat
  {
    if a < b then a else b
  }

  /** The waiters still waiting once `n` wake-ups have been handed out in list order. */
  function LeftAfter(ws: seq<Waiter>, n: nat): seq<Waiter>
  {
    ws[Min(n, |ws|)..]
  }

  lemma WakeOneMore(ws: seq<Waiter>, n: nat)
    ensures LeftAfter(LeftAfter(ws, n), 1) == LeftAfter(ws, n + 1) == LeftAfter(LeftAfter(ws, 1), n)
    ensures LeftAfter(ws, n) == [] ==> LeftAfter(ws, n + 1) == []
  {
    DropTwice(ws, Min(n, |ws|), Min(1, |ws| - Min(n, |ws|)));
    DropTwice(ws, Min(1, |ws|), Min(n, |ws| - Min(1, |ws|)));
  }

  lemma DropTwice(ws: seq<Waiter>, a: nat, b: nat)
    requires a + b <= |ws|
    ensures ws[a..][b..] == ws[a + b..]
  {
  }

  /** Stopping at an empty list, or at a count capped by the number of tasks, stops nobody short. */
  lemma WokenEnough(ws: seq<Waiter>, woken: nat, calls: nat, tasks: nat)
    requires |ws| <= tasks && woken <= calls
    requires LeftAfter(ws, woken) == [] || woken == Min(calls, tasks)
    ensures LeftAfter(ws, woken) == LeftAfter(ws, calls)
  {
  }

  lemma LeftByPriority(ws: seq<Waiter>, n: nat)
    requires ByPriority(ws)
    ensures ByPriority(LeftAfter(ws, n))
  {
  }

  // ----- Calls from interrupts -----

  datatype IsrCall<T> = SendIsr(item: T, position: Position) | ReceiveIsr

  ghost predicate CallOk<T>(call: IsrCall<T>, length: nat)
  {
    call.SendIsr? && call.position == Overwrite ==> length == 1
  }

  ghost predicate CallsOk<T>(calls: seq<IsrCall<T>>, length: nat)
  {
    forall i | 0 <= i < |calls| :: CallOk(calls[i], length)
  }

  ghost predicate Succeeds<T>(call: IsrCall<T>, items: seq<T>, length: nat)
  {
    match call
    case SendIsr(_, position) => |items| < length || position == Overwrite
    case ReceiveIsr => items != []
  }

  ghost function AfterSend<T>(items: seq<T>, item: T, position: Position): seq<T>
  {
    match position
    case ToBack => items + [item]
    case ToFront => [item] + items
    case Overwrite => [item]
  }

  ghost function AfterIsr<T>(call: IsrCall<T>, items: seq<T>, length: nat): seq<T>
  {
    if !Succeeds(call, items, length) then items else
    match call
    case SendIsr(item, position) => AfterSend(items, item, position)
    case ReceiveIsr => items[1..]
  }

  ghost function AfterIsrs<T>(calls: seq<IsrCall<T>>, items: seq<T>, length: nat): seq<T>
  {
    if calls == [] then items else AfterIsrs(calls[1..], AfterIsr(calls[0], items, length), length)
  }

  ghost function Sent<T>(call: IsrCall<T>, items: seq<T>, length: nat): nat
  {
    if call.SendIsr? && Succeeds(call, items, length) then 1 else 0
  }

  ghost function Took<T>(call: IsrCall<T>, items: seq<T>, length: nat): nat
  {
    if call.ReceiveIsr? && Succeeds(call, items, length) then 1 else 0
  }

  /** How many sends, and how many receives, succeed in a run of calls. */
  ghost function Sends<T>(calls: seq<IsrCall<T>>, items: seq<T>, length: nat): nat
  {
    if calls == [] then 0 else
    Sent(calls[0], items, length) + Sends(calls[1..], AfterIsr(calls[0], items, length), length)
  }

  ghost function Takes<T>(calls: seq<IsrCall<T>>, items: seq<T>, length: nat): nat
  {
    if calls == [] then 0 else
    Took(calls[0], items, length) + Takes(calls[1..], AfterIsr(calls[0], items, length), length)
  }

  /** How many items an overwriting send replaces. */
  ghost function Replaced<T>(call: IsrCall<T>, items: seq<T>): nat
  {
    if call.SendIsr? && call.position == Overwrite then |items| else 0
  }

  ghost function Overwrites<T>(calls: seq<IsrCall<T>>, items: seq<T>, length: nat): nat
  {
    if calls == [] then 0 else
    Replaced(calls[0], items) + Overwrites(calls[1..], AfterIsr(calls[0], items, length), length)
  }

  /** Whatever interrupts do, the queue holds what went in and neither came out nor was overwritten, and never more than
      fits. */
  lemma {:induction false} IsrsConserve<T>(calls: seq<IsrCall<T>>, items: seq<T>, length: nat)
    requires |items| <= length && CallsOk(calls, length)
    ensures |AfterIsrs(calls, items, length)| + Takes(calls, items, length) + Overwrites(calls, items, length)
              == |items| + Sends(calls, items, length)
    ensures |AfterIsrs(calls, items, length)| <= length
  {
    if calls != [] {
      var next := AfterIsr(calls[0], items, length);
      assert |next| + Took(calls[0], items, length) + Replaced(calls[0], items)
          == |items| + Sent(calls[0], items, length);
      IsrsConserve(calls[1..], next, length);
    }
  }

  /** The items that a run of calls gets into the queue, and those it gets out, in order. */
  ghost function ItemsIn<T>(calls: seq<IsrCall<T>>, items: seq<T>, length: nat): seq<T>
  {
    if calls == [] then [] else
    (if calls[0].SendIsr? && |items| < length then [calls[0].item] else [])
    + ItemsIn(calls[1..], AfterIsr(calls[0], items, length), length)
  }

  ghost function ItemsOut<T>(calls: seq<IsrCall<T>>, items: seq<T>, length: nat): seq<T>
  {
    if calls == [] then [] else
    (if calls[0].ReceiveIsr? && items != [] then [items[0]] else [])
    + ItemsOut(calls[1..], AfterIsr(calls[0], items, length), length)
  }

  /** First in, first out: when every send is to the back, what comes out and then what is left is what was there and
      then what went in. */
  lemma {:induction false} FirstInFirstOut<T>(calls: seq<IsrCall<T>>, items: seq<T>, length: nat)
    requires forall i | 0 <= i < |calls| :: calls[i].SendIsr? ==> calls[i].position == ToBack
    ensures ItemsOut(calls, items, length) + AfterIsrs(calls, items, length) == items + ItemsIn(calls, items, length)
  {
    if calls == [] {
    } else {
      var next := AfterIsr(calls[0], items, length);
      FirstInFirstOut(calls[1..], next, length);
      var out, more := ItemsOut(calls[1..], next, length), ItemsIn(calls[1..], next, length);
      var rest := AfterIsrs(calls[1..], next, length);
      hide AfterIsrs, ItemsIn, ItemsOut;
      OutIn(calls, items, length);
      assert [] + out == out && [] + more == more;
      if calls[0].ReceiveIsr? && items != [] {
        OneOut(items, out, rest, more);
      } else if calls[0].SendIsr? && |items| < length {
        OneIn(items, calls[0].item, out, rest, more);
      }
    }
  }

  lemma OutIn<T>(calls: seq<IsrCall<T>>, items: seq<T>, length: nat)
    requires calls != []
    ensures var next, first := AfterIsr(calls[0], items, length), calls[0];
            && AfterIsrs(calls, items, length) == AfterIsrs(calls[1..], next, length)
            && ItemsIn(calls, items, length)
               == (if first.SendIsr? && |items| < length then [first.item] else []) + ItemsIn(calls[1..], next, length)
            && ItemsOut(calls, items, length)
               == (if first.ReceiveIsr? && items != [] then [items[0]] else []) + ItemsOut(calls[1..], next, length)
  {
  }

  lemma OneOut<T>(items: seq<T>, out: seq<T>, rest: seq<T>, more: seq<T>)
    requires items != [] && out + rest == items[1..] + more
    ensures ([items[0]] + out) + rest == items + more
  {
    assert items == [items[0]] + items[1..];
    assert ([items[0]] + out) + rest == [items[0]] + (out + rest);
  }

  lemma OneIn<T>(items: seq<T>, item: T, out: seq<T>, rest: seq<T>, more: seq<T>)
    requires out + rest == (items + [item]) + more
    ensures out + rest == items + ([item] + more)
  {
  }

  /** What is sent to the front is what is received next, and then the queue is as it was. */
  lemma FrontComesNext<T>(items: seq<T>, item: T, length: nat)
    requires |items| < length
    ensures var there := AfterIsr(SendIsr(item, ToFront), items, length);
            there != [] && there[0] == item && AfterIsr(ReceiveIsr, there, length) == items
  {
  }

  /** What overwrites a queue of one is all that is received. */
  lemma OverwriteIsAll<T>(items: seq<T>, item: T)
    requires |items| <= 1
    ensures var there := AfterIsr(SendIsr(item, Overwrite), items, 1);
            there == [item] && AfterIsr(ReceiveIsr, there, 1) == []
  {
  }

  /** Calls at one point of a task's run and then at a later one are the calls of both. */
  lemma {:induction false} IsrsInTurn<T>(calls: seq<IsrCall<T>>, more: seq<IsrCall<T>>, items: seq<T>, length: nat)
    ensures var then' := AfterIsrs(calls, items, length);
            && AfterIsrs(calls + more, items, length) == AfterIsrs(more, then', length)
            && Sends(calls + more, items, length) == Sends(calls, items, length) + Sends(more, then', length)
            && Takes(calls + more, items, length) == Takes(calls, items, length) + Takes(more, then', length)
  {
    if calls == [] {
      assert calls + more == more;
    } else {
      IsrsInTurn(calls[1..], more, AfterIsr(calls[0], items, length), length);
      assert (calls + more)[0] == calls[0] && (calls + more)[1..] == calls[1..] + more;
    }
  }

  /** `more` further calls never bring a lock counter that stands at `count` to the kernel's assertion: it is not
      locked, or it never has to pass 127. */
  ghost predicate Fits(lock: int, count: nat, more: nat, tasks: nat)
  {
    lock == UNLOCKED || Min(count + more, tasks) <= INT8_MAX
  }

  /** The assertion of prvIncrementQueueTxLock and prvIncrementQueueRxLock, when `count` calls have been counted: the
      counter stops at the number of tasks, and must not be at 127 when it goes on. */
  ghost predicate MayCount(count: nat, tasks: nat)
  {
    Min(count, tasks) < tasks ==> Min(count, tasks) != INT8_MAX
  }

  /** There is room for all the calls exactly when the assertion holds at each of them. */
  lemma FitsIffNeverAsserts(count: nat, more: nat, tasks: nat)
    requires Min(count, tasks) <= INT8_MAX
    ensures Fits(LOCKED_UNMODIFIED, count, more, tasks) <==> forall n | count <= n < count + more :: MayCount(n, tasks)
    ensures Fits(LOCKED_UNMODIFIED, count, more, tasks) <==> tasks <= 127 || count + more <= 127
  {
    if INT8_MAX < tasks && INT8_MAX < count + more {
      assert !MayCount(INT8_MAX, tasks);
    }
  }

  // ----- The code -----

  class Queue<T(0)> {
    const storage: array<T>                      // pcHead .. pcTail, one slot an item
    const tasks: nat                             // uxTaskGetNumberOfTasks()
    var pcWriteTo: nat
    var pcReadFrom: nat
    var uxMessagesWaiting: nat
    var cRxLock: int
    var cTxLock: int
    var waitingToSend: seq<Waiter>
    var waitingToReceive: seq<Waiter>
    ghost var sent: nat                          // successful sends from interrupts since cTxLock was taken
    ghost var taken: nat                         // successful receives from interrupts since cRxLock was taken

    ghost predicate RingOk()
      reads this, storage
    {
      && uxMessagesWaiting <= storage.Length && pcReadFrom < storage.Length
      && pcWriteTo == Slot(pcReadFrom, uxMessagesWaiting, storage.Length)
    }

    ghost predicate WaitersOk()
      reads this
    {
      && ByPriority(waitingToSend) && ByPriority(waitingToReceive)
      && |waitingToSend| + |waitingToReceive| <= tasks
    }

    /** A lock counter remembers every call, up to as many as there are tasks to wake. */
    ghost predicate LocksOk()
      reads this
    {
      && (cTxLock == UNLOCKED || cTxLock == Min(sent, tasks)) && (cTxLock == UNLOCKED ==> sent == 0)
      && (cRxLock == UNLOCKED || cRxLock == Min(taken, tasks)) && (cRxLock == UNLOCKED ==> taken == 0)
      && cTxLock <= INT8_MAX && cRxLock <= INT8_MAX
    }

    ghost predicate Valid()
      reads this, storage
    {
      RingOk() && WaitersOk() && LocksOk()
    }

    ghost function Contents(): (items: seq<T>)
      requires RingOk()
      reads this, storage
    {
      Items(storage[..], pcReadFrom, uxMessagesWaiting)
    }

    constructor (uxLength: nat, tasks: nat)
      requires 1 <= uxLength
      ensures Valid() && fresh(storage) && storage.Length == uxLength && this.tasks == tasks
      ensures Contents() == [] && waitingToSend == [] && waitingToReceive == [] && cTxLock == cRxLock == UNLOCKED
    {
      storage := new T[uxLength];
      this.tasks := tasks;
      pcWriteTo, pcReadFrom, uxMessagesWaiting := 0, uxLength - 1, 0;
      cRxLock, cTxLock := UNLOCKED, UNLOCKED;
      waitingToSend, waitingToReceive := [], [];
      sent, taken := 0, 0;
    }

    /** xQueueGenericReset of a queue already in use. */
    method Reset()
      requires Valid()
      modifies this
      ensures Valid() && Contents() == [] && cTxLock == cRxLock == UNLOCKED
      ensures waitingToSend == LeftAfter(old(waitingToSend), 1) && waitingToReceive == old(waitingToReceive)
    {
      uxMessagesWaiting, pcWriteTo, pcReadFrom := 0, 0, storage.Length - 1;
      cRxLock, cTxLock := UNLOCKED, UNLOCKED;
      sent, taken := 0, 0;
      WakeSender();
    }

    /** xTaskRemoveFromEventList on the list of senders, if anyone is on it. */
    method WakeSender()
      requires WaitersOk()
      modifies this`waitingToSend
      ensures WaitersOk() && waitingToSend == LeftAfter(old(waitingToSend), 1)
    {
      LeftByPriority(waitingToSend, 1);
      if waitingToSend != [] {
        waitingToSend := waitingToSend[1..];
      }
    }

    method WakeReceiver()
      requires WaitersOk()
      modifies this`waitingToReceive
      ensures WaitersOk() && waitingToReceive == LeftAfter(old(waitingToReceive), 1)
    {
      LeftByPriority(waitingToReceive, 1);
      if waitingToReceive != [] {
        waitingToReceive := waitingToReceive[1..];
      }
    }

    /** prvCopyDataToQueue for items that have a size. */
    method CopyDataToQueue(item: T, position: Position)
      requires RingOk() && (position == Overwrite ==> storage.Length == 1)
      requires uxMessagesWaiting < storage.Length || position == Overwrite
      modifies this`pcWriteTo, this`pcReadFrom, this`uxMessagesWaiting, storage
      ensures RingOk() && Contents() == AfterSend(old(Contents()), item, position)
    {
      ghost var slots, r, n := storage[..], pcReadFrom, uxMessagesWaiting;
      var messagesWaiting := uxMessagesWaiting;
      hide Items, Slot, Next;
      if position == ToBack {
        SentToBack(slots, r, n, item);
        NextSlot(pcWriteTo, storage.Length);
        storage[pcWriteTo] := item;
        assert storage[..] == slots[pcWriteTo := item];
        pcWriteTo := pcWriteTo + 1;
        if pcWriteTo >= storage.Length {
          pcWriteTo := 0;
        }
      } else {
        if position == Overwrite {
          SentOver(slots, n, item);
        } else {
          SentToFront(slots, r, n, item);
        }
        storage[pcReadFrom] := item;
        assert storage[..] == slots[pcReadFrom := item];
        if pcReadFrom < 1 {
          pcReadFrom := storage.Length - 1;
        } else {
          pcReadFrom := pcReadFrom - 1;
        }
        if position == Overwrite {
          if messagesWaiting > 0 {
            messagesWaiting := messagesWaiting - 1;
          }
        }
      }
      uxMessagesWaiting := messagesWaiting + 1;
    }

    /** prvCopyDataFromQueue; the caller then counts the item out, or puts the read position back. */
    method CopyDataFromQueue() returns (item: T)
      requires RingOk() && uxMessagesWaiting > 0
      modifies this`pcReadFrom
      ensures pcReadFrom == Next(old(pcReadFrom), storage.Length) && item == old(Contents())[0]
    {
      Taken(storage[..], pcReadFrom, uxMessagesWaiting);
      pcReadFrom := pcReadFrom + 1;
      if pcReadFrom >= storage.Length {
        pcReadFrom := 0;
      }
      item := storage[pcReadFrom];
    }

    method TakeItem() returns (item: T)
      requires RingOk() && uxMessagesWaiting > 0
      modifies this`pcReadFrom, this`uxMessagesWaiting
      ensures RingOk() && old(Contents()) == [item] + Contents()
    {
      Taken(storage[..], pcReadFrom, uxMessagesWaiting);
      item := CopyDataFromQueue();
      uxMessagesWaiting := uxMessagesWaiting - 1;
    }

    /** xQueueGenericSend by a task that does not wait. */
    method GenericSend(item: T, position: Position) returns (ok: bool)
      requires Valid() && (position == Overwrite ==> storage.Length == 1)
      modifies this`pcWriteTo, this`pcReadFrom, this`uxMessagesWaiting, this`waitingToReceive, storage
      ensures Valid()
      ensures ok <==> |old(Contents())| < storage.Length || position == Overwrite
      ensures ok && position == ToBack ==> Contents() == old(Contents()) + [item]
      ensures ok && position == ToFront ==> Contents() == [item] + old(Contents())
      ensures ok && position == Overwrite ==> Contents() == [item]
      ensures ok ==> Contents() == AfterSend(old(Contents()), item, position)
                     && waitingToReceive == LeftAfter(old(waitingToReceive), 1)
      ensures !ok ==> Contents() == old(Contents()) && waitingToReceive == old(waitingToReceive)
    {
      if uxMessagesWaiting < storage.Length || position == Overwrite {
        CopyDataToQueue(item, position);
        WakeReceiver();
        ok := true;
      } else {
        ok := false;
      }
    }

    /** xQueueReceive by a task that does not wait. */
    method Receive() returns (ok: bool, item: T)
      requires Valid()
      modifies this`pcReadFrom, this`uxMessagesWaiting, this`waitingToSend
      ensures Valid()
      ensures ok <==> old(Contents()) != []
      ensures ok ==> old(Contents()) == [item] + Contents() && waitingToSend == LeftAfter(old(waitingToSend), 1)
      ensures !ok ==> Contents() == old(Contents()) && waitingToSend == old(waitingToSend)
    {
      item := storage[0];
      if uxMessagesWaiting > 0 {
        item := TakeItem();
        WakeSender();
        ok := true;
      } else {
        ok := false;
      }
    }

    /** xQueuePeek by a task that does not wait: the read position is put back, and the next reader is woken. */
    method Peek() returns (ok: bool, item: T)
      requires Valid()
      modifies this`pcReadFrom, this`waitingToReceive
      ensures Valid() && Contents() == old(Contents())
      ensures ok <==> Contents() != []
      ensures ok ==> item == Contents()[0] && waitingToReceive == LeftAfter(old(waitingToReceive), 1)
      ensures !ok ==> waitingToReceive == old(waitingToReceive)
    {
      item := storage[0];
      if uxMessagesWaiting > 0 {
        var originalReadPosition := pcReadFrom;
        item := CopyDataFromQueue();
        pcReadFrom := originalReadPosition;
        WakeReceiver();
        ok := true;
      } else {
        ok := false;
      }
    }

    /** xQueueGenericSendFromISR. The kernel asserts that the counter never has to pass 127. */
    method SendFromISR(item: T, position: Position) returns (ok: bool)
      requires Valid() && (position == Overwrite ==> storage.Length == 1)
      requires Fits(cTxLock, sent, Sent(SendIsr(item, position), Contents(), storage.Length), tasks)
      modifies this`pcWriteTo, this`pcReadFrom, this`uxMessagesWaiting, this`waitingToReceive, this`cTxLock, this`sent,
               storage
      ensures Valid() && (cTxLock == UNLOCKED <==> old(cTxLock) == UNLOCKED)
      ensures ok <==> Succeeds(SendIsr(item, position), old(Contents()), storage.Length)
      ensures ok <==> |old(Contents())| < storage.Length || position == Overwrite
      ensures ok && position == ToBack ==> Contents() == old(Contents()) + [item]
      ensures ok && position == ToFront ==> Contents() == [item] + old(Contents())
      ensures ok && position == Overwrite ==> Contents() == [item]
      ensures !ok ==> Contents() == old(Contents())
      ensures Contents() == AfterIsr(SendIsr(item, position), old(Contents()), storage.Length)
      ensures var here := if ok then 1 else 0;
              if cTxLock == UNLOCKED then waitingToReceive == LeftAfter(old(waitingToReceive), here)
              else waitingToReceive == old(waitingToReceive) && sent == old(sent) + here
    {
      if uxMessagesWaiting < storage.Length || position == Overwrite {
        var txLock := cTxLock;
        CopyDataToQueue(item, position);
        if txLock == UNLOCKED {
          WakeReceiver();
        } else {
          if txLock < tasks {
            cTxLock := txLock + 1;
          }
          sent := sent + 1;
        }
        ok := true;
      } else {
        ok := false;
      }
    }

    /** xQueueReceiveFromISR. */
    method ReceiveFromISR() returns (ok: bool, item: T)
      requires Valid()
      requires Fits(cRxLock, taken, Took(ReceiveIsr, Contents(), storage.Length), tasks)
      modifies this`pcReadFrom, this`uxMessagesWaiting, this`waitingToSend, this`cRxLock, this`taken
      ensures Valid() && (cRxLock == UNLOCKED <==> old(cRxLock) == UNLOCKED)
      ensures ok <==> Succeeds(ReceiveIsr, old(Contents()), storage.Length)
      ensures ok <==> old(Contents()) != []
      ensures Contents() == if ok then old(Contents())[1..] else old(Contents())
      ensures Contents() == AfterIsr(ReceiveIsr, old(Contents()), storage.Length)
      ensures ok ==> item == old(Contents())[0]
      ensures var here := if ok then 1 else 0;
              if cRxLock == UNLOCKED then waitingToSend == LeftAfter(old(waitingToSend), here)
              else waitingToSend == old(waitingToSend) && taken == old(taken) + here
    {
      item := storage[0];
      if uxMessagesWaiting > 0 {
        var rxLock := cRxLock;
        item := TakeItem();
        if rxLock == UNLOCKED {
          WakeSender();
        } else {
          if rxLock < tasks {
            cRxLock := rxLock + 1;
          }
          taken := taken + 1;
        }
        ok := true;
      } else {
        ok := false;
      }
    }

    /** prvLockQueue. */
    method LockQueue()
      requires Valid()
      modifies this`cRxLock, this`cTxLock
      ensures Valid() && cTxLock != UNLOCKED && cRxLock != UNLOCKED
      ensures sent == old(sent) && (old(cTxLock) == UNLOCKED ==> sent == 0)
      ensures taken == old(taken) && (old(cRxLock) == UNLOCKED ==> taken == 0)
    {
      if cRxLock == UNLOCKED {
        cRxLock := LOCKED_UNMODIFIED;
      }
      if cTxLock == UNLOCKED {
        cTxLock := LOCKED_UNMODIFIED;
      }
    }

    /** The first half of prvUnlockQueue: one receiver is woken for every item that arrived, as far as there are any. */
    method UnlockTx()
      requires Valid() && cTxLock != UNLOCKED
      modifies this`cTxLock, this`waitingToReceive, this`sent
      ensures Valid() && cTxLock == UNLOCKED
      ensures waitingToReceive == LeftAfter(old(waitingToReceive), old(sent))
    {
      ghost var ws := waitingToReceive;
      ghost var woken := 0;
      var txLock := cTxLock;
      ghost var calls := sent;
      while txLock > LOCKED_UNMODIFIED
        invariant 0 <= txLock && woken + txLock == Min(calls, tasks)
        invariant waitingToReceive == LeftAfter(ws, woken)
        invariant WaitersOk()
      {
        WakeOneMore(ws, woken);
        if waitingToReceive != [] {
          WakeReceiver();
        } else {
          break;
        }
        woken := woken + 1;
        txLock := txLock - 1;
      }
      WokenEnough(ws, woken, calls, tasks);
      cTxLock := UNLOCKED;
      sent := 0;
    }

    /** The second half: one sender is woken for every item that was taken. */
    method UnlockRx()
      requires Valid() && cRxLock != UNLOCKED
      modifies this`cRxLock, this`waitingToSend, this`taken
      ensures Valid() && cRxLock == UNLOCKED
      ensures waitingToSend == LeftAfter(old(waitingToSend), old(taken))
    {
      ghost var ws := waitingToSend;
      ghost var woken := 0;
      var rxLock := cRxLock;
      ghost var calls := taken;
      while rxLock > LOCKED_UNMODIFIED
        invariant 0 <= rxLock && woken + rxLock == Min(calls, tasks)
        invariant waitingToSend == LeftAfter(ws, woken)
        invariant WaitersOk()
      {
        WakeOneMore(ws, woken);
        if waitingToSend != [] {
          WakeSender();
          woken := woken + 1;
          rxLock := rxLock - 1;
        } else {
          break;
        }
      }
      WokenEnough(ws, woken, calls, tasks);
      cRxLock := UNLOCKED;
      taken := 0;
    }

    /** One interrupt's call. */
    method RunInterrupt(call: IsrCall<T>)
      requires Valid() && CallOk(call, storage.Length)
      requires Fits(cTxLock, sent, Sent(call, Contents(), storage.Length), tasks)
      requires Fits(cRxLock, taken, Took(call, Contents(), storage.Length), tasks)
      modifies this`pcWriteTo, this`pcReadFrom, this`uxMessagesWaiting, this`waitingToReceive, this`waitingToSend,
               this`cTxLock, this`cRxLock, this`sent, this`taken, storage
      ensures Valid() && Contents() == AfterIsr(call, old(Contents()), storage.Length)
      ensures Counted(cTxLock, old(cTxLock), sent, old(sent), waitingToReceive, old(waitingToReceive),
                      Sent(call, old(Contents()), storage.Length))
      ensures Counted(cRxLock, old(cRxLock), taken, old(taken), waitingToSend, old(waitingToSend),
                      Took(call, old(Contents()), storage.Length))
    {
      hide AfterSend, Items, Slot, ByPriority, Min, Fits;
      LeftInSteps(waitingToReceive, 0, 0);
      LeftInSteps(waitingToSend, 0, 0);
      match call {
        case SendIsr(item, position) =>
          var _ := SendFromISR(item, position);
        case ReceiveIsr =>
          var _, _ := ReceiveFromISR();
      }
    }

    /** Interrupts, in whatever number and order, at one point of a task's run. */
    method RunInterrupts(calls: seq<IsrCall<T>>)
      requires Valid() && CallsOk(calls, storage.Length)
      requires Fits(cTxLock, sent, Sends(calls, Contents(), storage.Length), tasks)
      requires Fits(cRxLock, taken, Takes(calls, Contents(), storage.Length), tasks)
      modifies this`pcWriteTo, this`pcReadFrom, this`uxMessagesWaiting, this`waitingToReceive, this`waitingToSend,
               this`cTxLock, this`cRxLock, this`sent, this`taken, storage
      ensures Valid() && Contents() == AfterIsrs(calls, old(Contents()), storage.Length)
      ensures Counted(cTxLock, old(cTxLock), sent, old(sent), waitingToReceive, old(waitingToReceive),
                      Sends(calls, old(Contents()), storage.Length))
      ensures Counted(cRxLock, old(cRxLock), taken, old(taken), waitingToSend, old(waitingToSend),
                      Takes(calls, old(Contents()), storage.Length))
      decreases |calls|
    {
      hide AfterSend, Items, Slot, ByPriority, AfterIsr, Sent, Took, Counted, LocksOk, WaitersOk, RingOk, LeftAfter,
        Contents, Fits;
      if calls == [] {
        CountedNone(cTxLock, sent, waitingToReceive);
        CountedNone(cRxLock, taken, waitingToSend);
      } else {
        ghost var before, tx, n, ws, rx, m, ss :=
          Contents(), cTxLock, sent, waitingToReceive, cRxLock, taken, waitingToSend;
        FitsInTurn(tx, n, Sent(calls[0], before, storage.Length), Sends(calls, before, storage.Length), tasks);
        FitsInTurn(rx, m, Took(calls[0], before, storage.Length), Takes(calls, before, storage.Length), tasks);
        RunInterrupt(calls[0]);
        ghost var then', tx', n', ws', rx', m', ss' :=
          Contents(), cTxLock, sent, waitingToReceive, cRxLock, taken, waitingToSend;
        FitsStill(tx', tx, n', n, ws', ws, Sent(calls[0], before, storage.Length),
                  Sends(calls[1..], then', storage.Length), tasks);
        FitsStill(rx', rx, m', m, ss', ss, Took(calls[0], before, storage.Length),
                  Takes(calls[1..], then', storage.Length), tasks);
        RunInterrupts(calls[1..]);
        CountedTwice(tx, tx', cTxLock, n, n', sent, ws, ws', waitingToReceive,
                     Sent(calls[0], before, storage.Length), Sends(calls[1..], then', storage.Length));
        CountedTwice(rx, rx', cRxLock, m, m', taken, ss, ss', waitingToSend,
                     Took(calls[0], before, storage.Length), Takes(calls[1..], then', storage.Length));
      }
    }

    /** What the interrupts so far have done to a queue that is locked. */
    ghost predicate SoFar(calls: seq<IsrCall<T>>, start: seq<T>)
      reads this, storage
    {
      && Valid() && cTxLock != UNLOCKED && cRxLock != UNLOCKED
      && Contents() == AfterIsrs(calls, start, storage.Length)
      && sent == Sends(calls, start, storage.Length) && taken == Takes(calls, start, storage.Length)
    }

    /** More interrupts while the queue is locked. */
    method RunWhileLocked(ghost calls: seq<IsrCall<T>>, more: seq<IsrCall<T>>, ghost start: seq<T>)
      requires SoFar(calls, start) && CallsOk(more, storage.Length)
      requires Min(Sends(calls + more, start, storage.Length), tasks) <= INT8_MAX
      requires Min(Takes(calls + more, start, storage.Length), tasks) <= INT8_MAX
      modifies this`pcWriteTo, this`pcReadFrom, this`uxMessagesWaiting, this`waitingToReceive, this`waitingToSend,
               this`cTxLock, this`cRxLock, this`sent, this`taken, storage
      ensures SoFar(calls + more, start)
      ensures waitingToReceive == old(waitingToReceive) && waitingToSend == old(waitingToSend)
    {
      hide AfterIsrs, Items, Slot, ByPriority, Sends, Takes, LeftAfter, CallsOk, Min, Contents, RingOk, WaitersOk,
        LocksOk;
      IsrsInTurn(calls, more, start, storage.Length);
      RunInterrupts(more);
    }

    /** The part of xQueueReceive and xQueuePeek that blocks, with interrupts at every point where they are enabled:
        before the test, between the test and joining the list, and before and inside unlocking. The caller joins the
        list, gives up, or tries again. */
    method BlockToReceive(caller: Waiter, expired: bool, early: seq<IsrCall<T>>, middle: seq<IsrCall<T>>,
                          late: seq<IsrCall<T>>, between: seq<IsrCall<T>>)
      returns (placed: bool, gaveUp: bool)
      requires Valid() && |waitingToSend| + |waitingToReceive| < tasks && cTxLock == cRxLock == UNLOCKED
      requires CallsOk(early, storage.Length) && CallsOk(middle, storage.Length)
      requires CallsOk(late, storage.Length) && CallsOk(between, storage.Length)
      requires Min(Sends(early + middle + late, Contents(), storage.Length), tasks) <= INT8_MAX
      requires Min(Takes(early + middle + late + between, Contents(), storage.Length), tasks) <= INT8_MAX
      modifies this, storage
      ensures Valid() && cTxLock == cRxLock == UNLOCKED
      ensures var start, calls := old(Contents()), early + middle + late + between;
              && Contents() == AfterIsrs(calls, start, storage.Length)
              && (placed <==> !expired && AfterIsrs(early, start, storage.Length) == [])
              && waitingToReceive
                 == LeftAfter(if placed then Placed(old(waitingToReceive), caller) else old(waitingToReceive),
                              Sends(calls, start, storage.Length))
              && waitingToSend == LeftAfter(old(waitingToSend), Takes(calls, start, storage.Length))
      ensures gaveUp <==> expired && Contents() == []
    {
      hide AfterIsrs, Items, Slot, ByPriority, Sends, Takes, LeftAfter, Placed, CallsOk, Min;
      ghost var start := Contents();
      NoIsrs(start, storage.Length);
      FewerBefore(early, middle, late, between, start, storage.Length, tasks);
      LockQueue();
      RunWhileLocked([], early, start);
      placed := !expired && uxMessagesWaiting == 0;
      RunWhileLocked(early, middle, start);
      if placed {
        PlacedByPriority(waitingToReceive, caller);
        waitingToReceive := Placed(waitingToReceive, caller);
      }
      RunWhileLocked(early + middle, late, start);
      Unlock(early + middle + late, between, start);
      gaveUp := expired && uxMessagesWaiting == 0;
    }

    /** The part of xQueueGenericSend that blocks, likewise. A sender whose time is up does not look again. */
    method BlockToSend(caller: Waiter, expired: bool, early: seq<IsrCall<T>>, middle: seq<IsrCall<T>>,
                       late: seq<IsrCall<T>>, between: seq<IsrCall<T>>)
      returns (placed: bool, gaveUp: bool)
      requires Valid() && |waitingToSend| + |waitingToReceive| < tasks && cTxLock == cRxLock == UNLOCKED
      requires CallsOk(early, storage.Length) && CallsOk(middle, storage.Length)
      requires CallsOk(late, storage.Length) && CallsOk(between, storage.Length)
      requires Min(Sends(early + middle + late, Contents(), storage.Length), tasks) <= INT8_MAX
      requires Min(Takes(early + middle + late + between, Contents(), storage.Length), tasks) <= INT8_MAX
      modifies this, storage
      ensures Valid() && cTxLock == cRxLock == UNLOCKED
      ensures var start, calls := old(Contents()), early + middle + late + between;
              && Contents() == AfterIsrs(calls, start, storage.Length)
              && (placed <==> !expired && |AfterIsrs(early, start, storage.Length)| == storage.Length)
              && waitingToReceive == LeftAfter(old(waitingToReceive), Sends(calls, start, storage.Length))
              && waitingToSend
                 == LeftAfter(if placed then Placed(old(waitingToSend), caller) else old(waitingToSend),
                              Takes(calls, start, storage.Length))
      ensures gaveUp <==> expired
    {
      hide AfterIsrs, Items, Slot, ByPriority, Sends, Takes, LeftAfter, Placed, CallsOk, Min;
      ghost var start := Contents();
      NoIsrs(start, storage.Length);
      FewerBefore(early, middle, late, between, start, storage.Length, tasks);
      LockQueue();
      RunWhileLocked([], early, start);
      placed := !expired && uxMessagesWaiting == storage.Length;
      RunWhileLocked(early, middle, start);
      if placed {
        PlacedByPriority(waitingToSend, caller);
        waitingToSend := Placed(waitingToSend, caller);
      }
      RunWhileLocked(early + middle, late, start);
      Unlock(early + middle + late, between, start);
      gaveUp := expired;
    }

    /** prvUnlockQueue, with interrupts between its halves. */
    method Unlock(ghost calls: seq<IsrCall<T>>, between: seq<IsrCall<T>>, ghost start: seq<T>)
      requires SoFar(calls, start) && CallsOk(between, storage.Length)
      requires Min(Takes(calls + between, start, storage.Length), tasks) <= INT8_MAX
      modifies this, storage
      ensures Valid() && cTxLock == cRxLock == UNLOCKED
      ensures Contents() == AfterIsrs(calls + between, start, storage.Length)
      ensures waitingToReceive
           == LeftAfter(old(waitingToReceive), Sends(calls + between, start, storage.Length))
      ensures waitingToSend == LeftAfter(old(waitingToSend), Takes(calls + between, start, storage.Length))
    {
      hide AfterIsrs, Items, Slot, ByPriority, Sends, Takes, LeftAfter, CallsOk, Min, WaitersOk;
      IsrsInTurn(calls, between, start, storage.Length);
      LeftInSteps(waitingToReceive, sent, Sends(between, Contents(), storage.Length));
      UnlockTx();
      RunInterrupts(between);
      UnlockRx();
    }
  }

  lemma NoIsrs<T>(items: seq<T>, length: nat)
    ensures AfterIsrs([], items, length) == items && Sends([], items, length) == Takes([], items, length) == 0
    ensures forall calls: seq<IsrCall<T>> :: [] + calls == calls
  {
  }

  /** A counter that has room for all the calls has room for those of each stretch. */
  lemma FewerBefore<T>(early: seq<IsrCall<T>>, middle: seq<IsrCall<T>>, late: seq<IsrCall<T>>,
                       between: seq<IsrCall<T>>, items: seq<T>, length: nat, tasks: nat)
    ensures Sends(early, items, length) <= Sends(early + middle, items, length)
                                        <= Sends(early + middle + late, items, length)
    ensures Takes(early, items, length) <= Takes(early + middle, items, length)
                                        <= Takes(early + middle + late, items, length)
                                        <= Takes(early + middle + late + between, items, length)
    ensures forall m, n | 0 <= m <= n :: Min(m, tasks) <= Min(n, tasks)
  {
    IsrsInTurn(early, middle, items, length);
    IsrsInTurn(early + middle, late, items, length);
    IsrsInTurn(early + middle + late, between, items, length);
  }

  /** A counted event: while locked it is remembered, otherwise it wakes a task at once. */
  ghost predicate Counted(lock: int, wasLock: int, count: nat, wasCount: nat, ws: seq<Waiter>, were: seq<Waiter>,
                          n: nat)
  {
    && (lock == UNLOCKED <==> wasLock == UNLOCKED)
    && if lock == UNLOCKED then ws == LeftAfter(were, n) else ws == were && count == wasCount + n
  }

  lemma CountedNone(lock: int, count: nat, ws: seq<Waiter>)
    ensures Counted(lock, lock, count, count, ws, ws, 0)
  {
  }

  lemma CountedTwice(l0: int, l1: int, l2: int, c0: nat, c1: nat, c2: nat, w0: seq<Waiter>, w1: seq<Waiter>,
                     w2: seq<Waiter>, a: nat, b: nat)
    requires Counted(l1, l0, c1, c0, w1, w0, a) && Counted(l2, l1, c2, c1, w2, w1, b)
    ensures Counted(l2, l0, c2, c0, w2, w0, a + b)
  {
    LeftInSteps(w0, a, b);
  }

  lemma FitsInTurn(lock: int, count: nat, first: nat, all: nat, tasks: nat)
    requires Fits(lock, count, all, tasks) && first <= all
    ensures Fits(lock, count, first, tasks)
  {
  }

  lemma FitsStill(lock: int, wasLock: int, count: nat, wasCount: nat, ws: seq<Waiter>, were: seq<Waiter>, first: nat,
                  rest: nat, tasks: nat)
    requires Counted(lock, wasLock, count, wasCount, ws, were, first) && Fits(wasLock, wasCount, first + rest, tasks)
    ensures Fits(lock, count, rest, tasks)
  {
  }

  lemma LeftInSteps(ws: seq<Waiter>, a: nat, b: nat)
    ensures LeftAfter(LeftAfter(ws, a), b) == LeftAfter(ws, a + b) && LeftAfter(ws, 0) == ws
  {
  }
}
