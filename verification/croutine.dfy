/** Co-routines: delays kept in two lists under a 16-bit tick counter, and a scheduler that runs the highest
    priority. */
module CoRoutines {
  import opened Lists

  const TICKS := 0x1_0000                        // values of TickType_t

  type Co = nat

  // ----- Delays -----

  /** A co-routine's list item and the tick at which it is due. */
  datatype Entry = Entry(co: Co, wake: nat)

  /** The tick counter, how often it has wrapped, and the two delayed lists: the one for this turn of the counter, and
      the one for the next. */
  datatype Delays = Delays(tick: nat, epoch: nat, delayed: seq<Entry>, overflow: seq<Entry>)

  /** Ticks since the start, however often the counter has wrapped. */
  ghost function Now(d: Delays): nat
  {
    TICKS * d.epoch + d.tick
  }

  ghost predicate Ordered(es: seq<Entry>)
  {
    forall i, j | 0 <= i < j < |es| :: es[i].wake <= es[j].wake
  }

  /** In the list of this turn everything is due later in the turn. */
  ghost predicate WellKept(d: Delays)
  {
    && d.tick < TICKS && Ordered(d.delayed) && Ordered(d.overflow)
    && (forall i | 0 <= i < |d.delayed| :: d.tick < d.delayed[i].wake < TICKS)
    && (forall i | 0 <= i < |d.overflow| :: d.overflow[i].wake < TICKS)
  }

  ghost predicate On(es: seq<Entry>, co: Co)
  {
    exists i | 0 <= i < |es| :: es[i].co == co
  }

  ghost predicate Waiting(d: Delays, co: Co)
  {
    On(d.delayed, co) || On(d.overflow, co)
  }

  /** `co` waits for the absolute time `due`. */
  ghost predicate WaitsFor(d: Delays, co: Co, due: nat)
  {
    || (exists i | 0 <= i < |d.delayed| :: d.delayed[i].co == co && TICKS * d.epoch + d.delayed[i].wake == due)
    || (exists i | 0 <= i < |d.overflow| :: d.overflow[i].co == co && TICKS * (d.epoch + 1) + d.overflow[i].wake == due)
  }

  ghost predicate Distinct(es: seq<Entry>)
  {
    forall i, j | 0 <= i < j < |es| :: es[i].co != es[j].co
  }

  ghost predicate Apart(es: seq<Entry>, others: seq<Entry>)
  {
    forall i, j | 0 <= i < |es| && 0 <= j < |others| :: es[i].co != others[j].co
  }

  /** Every co-routine's item is on at most one delayed list, once. */
  ghost predicate OnceEach(d: Delays)
  {
    Distinct(d.delayed) && Distinct(d.overflow) && Apart(d.delayed, d.overflow)
  }

  /** Sorted insertion behind equals. */
  function Place(es: seq<Entry>, e: Entry): (after: seq<Entry>)
    ensures |after| == |es| + 1
  {
    if es == [] || es[0].wake > e.wake then [e] + es else [es[0]] + Place(es[1..], e)
  }

  /** How many are due no later than `wake`, up to the first that is due later. */
  ghost function Ahead(es: seq<Entry>, wake: nat): (k: nat)
    ensures k <= |es|
    ensures forall i | 0 <= i < k :: es[i].wake <= wake
    ensures k < |es| ==> es[k].wake > wake
  {
    if es == [] || es[0].wake > wake then 0 else 1 + Ahead(es[1..], wake)
  }

  /** The new item goes behind everything due no later than it, and before everything due later. */
  lemma {:induction false} PlacedBehindEquals(es: seq<Entry>, e: Entry)
    ensures var k := Ahead(es, e.wake); Place(es, e) == es[..k] + [e] + es[k..]
  {
    if es != [] && es[0].wake <= e.wake {
      PlacedBehindEquals(es[1..], e);
      BehindFirst(es, e, Ahead(es[1..], e.wake));
    }
  }

  lemma BehindFirst(es: seq<Entry>, e: Entry, k: nat)
    requires es != [] && k < |es|
    ensures [es[0]] + (es[1..][..k] + [e] + es[1..][k..]) == es[..k + 1] + [e] + es[k + 1..]
  {
  }

  lemma LaterBehind(es: seq<Entry>, e: Entry)
    requires Ordered(es)
    ensures forall i | Ahead(es, e.wake) <= i < |es| :: es[i].wake > e.wake
  {
    var k := Ahead(es, e.wake);
    forall i | k <= i < |es| ensures es[i].wake > e.wake {
      assert es[k].wake <= es[i].wake;
    }
  }

  lemma {:induction false} PlaceMembers(es: seq<Entry>, e: Entry)
    ensures forall x :: x in Place(es, e) <==> x == e || x in es
  {
    if es != [] && es[0].wake <= e.wake {
      PlaceMembers(es[1..], e);
      assert es == [es[0]] + es[1..];
    }
  }

  lemma {:induction false} PlaceOrdered(es: seq<Entry>, e: Entry)
    requires Ordered(es)
    ensures Ordered(Place(es, e))
  {
    if es != [] && es[0].wake <= e.wake {
      var rest := Place(es[1..], e);
      PlaceOrdered(es[1..], e);
      PlaceMembers(es[1..], e);
      assert Place(es, e) == [es[0]] + rest;
      forall j | 0 <= j < |rest| ensures es[0].wake <= rest[j].wake {
        assert rest[j] in rest;
        if rest[j] in es[1..] {
          var k :| 0 <= k < |es[1..]| && es[1..][k] == rest[j];
          assert es[k + 1] == rest[j];
        }
      }
      OrderedFrom(es[0], rest);
    }
  }

  lemma OrderedFrom(e: Entry, rest: seq<Entry>)
    requires Ordered(rest) && forall j | 0 <= j < |rest| :: e.wake <= rest[j].wake
    ensures Ordered([e] + rest)
  {
  }

  ghost function AfterAdd(d: Delays, co: Co, ticks: nat): Delays
    requires d.tick < TICKS && ticks < TICKS
  {
    var wake := (d.tick + ticks) % TICKS;
    if wake < d.tick then d.(overflow := Place(d.overflow, Entry(co, wake)))
    else d.(delayed := Place(d.delayed, Entry(co, wake)))
  }

  /** How many at the head of a list are due. */
  ghost function Expired(es: seq<Entry>, tick: nat): (n: nat)
    ensures n <= |es|
    ensures forall i | 0 <= i < n :: es[i].wake <= tick
    ensures n < |es| ==> es[n].wake > tick
  {
    if es == [] || es[0].wake > tick then 0 else 1 + Expired(es[1..], tick)
  }

  /** The counter moves on, the lists are swapped when it wraps. */
  ghost function Advance(d: Delays): Delays
  {
    if d.tick + 1 == TICKS then Delays(0, d.epoch + 1, d.overflow, d.delayed) else d.(tick := d.tick + 1)
  }

  ghost function Released(d: Delays): seq<Entry>
  {
    var next := Advance(d);
    next.delayed[..Expired(next.delayed, next.tick)]
  }

  ghost function AfterTick(d: Delays): Delays
  {
    var next := Advance(d);
    next.(delayed := next.delayed[Expired(next.delayed, next.tick)..])
  }

  function IndexOf(es: seq<Entry>, co: Co): (k: nat)
    ensures k <= |es|
    ensures k < |es| ==> es[k].co == co
    ensures forall i | 0 <= i < k :: es[i].co != co
  {
    if es == [] || es[0].co == co then 0 else 1 + IndexOf(es[1..], co)
  }

  function Without(es: seq<Entry>, co: Co): seq<Entry>
  {
    var k := IndexOf(es, co);
    if k == |es| then es else es[..k] + es[k + 1..]
  }

  /** An event takes the co-routine's item off whichever list it is on. */
  ghost function AfterWake(d: Delays, co: Co): Delays
  {
    d.(delayed := Without(d.delayed, co), overflow := Without(d.overflow, co))
  }

  // ----- Exactly on time -----

  lemma AddKeeps(d: Delays, co: Co, ticks: nat)
    requires WellKept(d) && OnceEach(d) && !Waiting(d, co) && 1 <= ticks < TICKS
    ensures var after := AfterAdd(d, co, ticks);
            && WellKept(after) && Now(after) == Now(d) && WaitsFor(after, co, Now(d) + ticks)
  {
    var wake := (d.tick + ticks) % TICKS;
    var e := Entry(co, wake);
    PlaceOrdered(d.delayed, e);
    PlaceOrdered(d.overflow, e);
    PlaceMembers(d.delayed, e);
    PlaceMembers(d.overflow, e);
    hide Place, Ordered;
    var after := AfterAdd(d, co, ticks);
    if wake < d.tick {
      assert wake == d.tick + ticks - TICKS;
      forall i | 0 <= i < |after.overflow| ensures after.overflow[i].wake < TICKS {
        assert after.overflow[i] in after.overflow;
      }
      assert e in after.overflow;
    } else {
      assert wake == d.tick + ticks;
      forall i | 0 <= i < |after.delayed| ensures d.tick < after.delayed[i].wake < TICKS {
        assert after.delayed[i] in after.delayed;
      }
      assert e in after.delayed;
    }
  }

  /** It is exactly a delay of zero that breaks what is kept. */
  lemma AddKeepsIff(d: Delays, co: Co, ticks: nat)
    requires WellKept(d) && OnceEach(d) && !Waiting(d, co) && ticks < TICKS
    ensures WellKept(AfterAdd(d, co, ticks)) <==> ticks > 0
  {
    if ticks == 0 {
      ZeroDelayIsFirst(d, co);
      assert AfterAdd(d, co, 0).delayed[0].wake == d.tick;
    } else {
      AddKeeps(d, co, ticks);
    }
  }

  lemma FirstIsLater(d: Delays)
    requires WellKept(d)
    ensures d.delayed != [] ==> d.tick + 1 < TICKS
  {
    if d.delayed != [] {
      var wake := d.delayed[0].wake;
    }
  }

  /** The list swapped out when the counter wraps is empty. */
  lemma SwappedOutIsEmpty(d: Delays)
    requires WellKept(d) && d.tick + 1 == TICKS
    ensures d.delayed == []
  {
    FirstIsLater(d);
  }

  /** In the middle of a tick: what is due may be due now. */
  ghost predicate MidTick(d: Delays)
  {
    && d.tick < TICKS && Ordered(d.delayed) && Ordered(d.overflow)
    && (forall i | 0 <= i < |d.delayed| :: d.tick <= d.delayed[i].wake < TICKS)
    && (forall i | 0 <= i < |d.overflow| :: d.overflow[i].wake < TICKS)
  }

  lemma AdvanceToMidTick(d: Delays)
    requires WellKept(d) && OnceEach(d)
    ensures MidTick(Advance(d)) && OnceEach(Advance(d)) && Now(Advance(d)) == Now(d) + 1
    ensures forall co, due | WaitsFor(d, co, due) :: WaitsFor(Advance(d), co, due) && Now(d) < due
  {
    if d.tick + 1 == TICKS {
      SwappedOutIsEmpty(d);
    }
    hide Ordered;
  }

  ghost function Expire(next: Delays): Delays
  {
    next.(delayed := next.delayed[Expired(next.delayed, next.tick)..])
  }

  lemma ExpireExact(next: Delays, co: Co, due: nat)
    requires MidTick(next) && OnceEach(next) && WaitsFor(next, co, due) && Now(next) <= due
    ensures due == Now(next) ==> On(next.delayed[..Expired(next.delayed, next.tick)], co) && !Waiting(Expire(next), co)
    ensures due > Now(next) ==> WaitsFor(Expire(next), co, due)
  {
    hide Ordered;
    var n := Expired(next.delayed, next.tick);
    hide Expired;
    if i :| 0 <= i < |next.delayed| && next.delayed[i].co == co && TICKS * next.epoch + next.delayed[i].wake == due {
      if due == Now(next) {
        HeadsExpire(next, i);
        assert next.delayed[..n][i] == next.delayed[i];
      } else {
        assert Expire(next).delayed[i - n] == next.delayed[i];
      }
    }
  }

  lemma HeadsExpire(next: Delays, i: nat)
    requires MidTick(next) && i < |next.delayed| && next.delayed[i].wake <= next.tick
    ensures i < Expired(next.delayed, next.tick)
  {
  }

  /** Whoever waits for the time that comes leaves at this tick, everybody else stays. */
  lemma TickIsExact(d: Delays, co: Co, due: nat)
    requires WellKept(d) && OnceEach(d) && WaitsFor(d, co, due)
    ensures var after := AfterTick(d);
            && Now(d) < due && Now(after) == Now(d) + 1
            && (due == Now(after) ==> On(Released(d), co) && !Waiting(after, co))
            && (due > Now(after) ==> WaitsFor(after, co, due))
  {
    AdvanceToMidTick(d);
    ExpireExact(Advance(d), co, due);
    hide WellKept, OnceEach, WaitsFor, Waiting, On, Advance, MidTick, Expired;
  }

  lemma ExpireKeeps(next: Delays)
    requires MidTick(next) && OnceEach(next)
    ensures WellKept(Expire(next)) && OnceEach(Expire(next))
  {
    var n := Expired(next.delayed, next.tick);
    hide Expired;
    forall i | n <= i < |next.delayed| ensures next.delayed[i].wake > next.tick {
      assert next.delayed[n].wake <= next.delayed[i].wake;
    }
  }

  lemma TickKeeps(d: Delays)
    requires WellKept(d) && OnceEach(d)
    ensures WellKept(AfterTick(d)) && OnceEach(AfterTick(d)) && Now(AfterTick(d)) == Now(d) + 1
  {
    AdvanceToMidTick(d);
    ExpireKeeps(Advance(d));
    hide WellKept, OnceEach, WaitsFor, MidTick, Expired, Advance;
  }

  /** Only the one item goes. */
  lemma WithoutOne(es: seq<Entry>, co: Co)
    requires Distinct(es)
    ensures Distinct(Without(es, co)) && (Ordered(es) ==> Ordered(Without(es, co))) && !On(Without(es, co), co)
    ensures forall e :: e in Without(es, co) <==> e in es && e.co != co
  {
    var k, left := IndexOf(es, co), Without(es, co);
    hide IndexOf;
    if k < |es| {
      assert forall i | 0 <= i < |left| :: left[i] == es[if i < k then i else i + 1];
      forall e ensures e in left <==> e in es && e.co != co {
        if e in es && e.co != co {
          var i :| 0 <= i < |es| && es[i] == e;
          assert left[if i < k then i else i - 1] == e;
        }
      }
    }
  }

  /** `co` is on a list for the time `due` of a turn of the counter. */
  ghost predicate DueIn(es: seq<Entry>, turn: nat, co: Co, due: nat)
  {
    exists e | e in es :: e.co == co && TICKS * turn + e.wake == due
  }

  lemma WaitsByMember(d: Delays, co: Co, due: nat)
    ensures WaitsFor(d, co, due) <==> DueIn(d.delayed, d.epoch, co, due) || DueIn(d.overflow, d.epoch + 1, co, due)
  {
    if e :| e in d.delayed && e.co == co && TICKS * d.epoch + e.wake == due {
      var i :| 0 <= i < |d.delayed| && d.delayed[i] == e;
    }
    if e :| e in d.overflow && e.co == co && TICKS * (d.epoch + 1) + e.wake == due {
      var i :| 0 <= i < |d.overflow| && d.overflow[i] == e;
    }
  }

  lemma WakeKeeps(d: Delays, co: Co)
    requires WellKept(d) && OnceEach(d)
    ensures var after := AfterWake(d, co);
            WellKept(after) && OnceEach(after) && Now(after) == Now(d) && !Waiting(after, co)
  {
    WakeWellKept(d, co);
    WakeOnce(d, co);
    WithoutOne(d.delayed, co);
    WithoutOne(d.overflow, co);
    hide Without, Ordered, WellKept, OnceEach, Distinct, On;
  }

  lemma WakeWellKept(d: Delays, co: Co)
    requires WellKept(d) && OnceEach(d)
    ensures WellKept(AfterWake(d, co))
  {
    WithoutOne(d.delayed, co);
    WithoutOne(d.overflow, co);
    hide Without, Ordered, OnceEach, Distinct, On;
    WithinStill(Without(d.delayed, co), d.delayed, d.tick);
    WithinStill(Without(d.overflow, co), d.overflow, -1);
  }

  lemma WakeOnce(d: Delays, co: Co)
    requires OnceEach(d)
    ensures OnceEach(AfterWake(d, co))
  {
    WithoutOne(d.delayed, co);
    WithoutOne(d.overflow, co);
    hide Without, Ordered, On, Distinct, Apart;
    ApartStill(Without(d.delayed, co), d.delayed, Without(d.overflow, co), d.overflow);
  }

  lemma WithinStill(some: seq<Entry>, all: seq<Entry>, low: int)
    requires forall e | e in some :: e in all
    requires forall i | 0 <= i < |all| :: low < all[i].wake < TICKS
    ensures forall i | 0 <= i < |some| :: low < some[i].wake < TICKS
  {
    forall i | 0 <= i < |some| ensures low < some[i].wake < TICKS {
      assert some[i] in some;
    }
  }

  lemma ApartStill(some: seq<Entry>, all: seq<Entry>, some': seq<Entry>, all': seq<Entry>)
    requires (forall e | e in some :: e in all) && (forall e | e in some' :: e in all')
    requires Apart(all, all')
    ensures Apart(some, some')
  {
    forall i, j | 0 <= i < |some| && 0 <= j < |some'| ensures some[i].co != some'[j].co {
      assert some[i] in some && some'[j] in some';
    }
  }

  lemma WakeSparesOthers(d: Delays, woken: Co, co: Co, due: nat)
    requires WellKept(d) && OnceEach(d) && co != woken
    ensures WaitsFor(AfterWake(d, woken), co, due) <==> WaitsFor(d, co, due)
  {
    WithoutSpares(d.delayed, woken, d.epoch, co, due);
    WithoutSpares(d.overflow, woken, d.epoch + 1, co, due);
    WaitsByMember(d, co, due);
    WaitsByMember(AfterWake(d, woken), co, due);
    hide Without, WaitsFor, DueIn;
  }

  lemma WithoutSpares(es: seq<Entry>, woken: Co, turn: nat, co: Co, due: nat)
    requires Distinct(es) && co != woken
    ensures DueIn(Without(es, woken), turn, co, due) <==> DueIn(es, turn, co, due)
  {
    WithoutOne(es, woken);
    hide Without, Distinct;
  }

  lemma AddOnce(d: Delays, co: Co, ticks: nat)
    requires WellKept(d) && OnceEach(d) && !Waiting(d, co) && 1 <= ticks < TICKS
    ensures OnceEach(AfterAdd(d, co, ticks))
  {
    var e := Entry(co, (d.tick + ticks) % TICKS);
    PlaceDistinct(d.delayed, e);
    PlaceDistinct(d.overflow, e);
    PlaceMembers(d.delayed, e);
    PlaceMembers(d.overflow, e);
    hide Place, WellKept;
    var after := AfterAdd(d, co, ticks);
    forall i, j | 0 <= i < |after.delayed| && 0 <= j < |after.overflow|
      ensures after.delayed[i].co != after.overflow[j].co
    {
      assert after.delayed[i] in after.delayed && after.overflow[j] in after.overflow;
    }
  }

  lemma {:induction false} PlaceDistinct(es: seq<Entry>, e: Entry)
    requires Distinct(es) && !On(es, e.co)
    ensures Distinct(Place(es, e))
  {
    if es != [] && es[0].wake <= e.wake {
      assert forall i | 0 <= i < |es[1..]| :: es[1..][i] == es[i + 1];
      PlaceDistinct(es[1..], e);
      PlaceMembers(es[1..], e);
      var rest := Place(es[1..], e);
      forall j | 0 <= j < |rest| ensures es[0].co != rest[j].co {
        assert rest[j] in rest;
      }
    }
  }

  lemma AddSparesOthers(d: Delays, added: Co, ticks: nat, co: Co, due: nat)
    requires WellKept(d) && 1 <= ticks < TICKS && co != added
    ensures WaitsFor(AfterAdd(d, added, ticks), co, due) <==> WaitsFor(d, co, due)
  {
    var e := Entry(added, (d.tick + ticks) % TICKS);
    PlaceMembers(d.delayed, e);
    PlaceMembers(d.overflow, e);
    WaitsByMember(d, co, due);
    WaitsByMember(AfterAdd(d, added, ticks), co, due);
    hide Place, WaitsFor, WellKept;
  }

  // ----- Runs -----

  datatype Op = Add(co: Co, ticks: nat) | Tick | Wake(co: Co)

  /** A co-routine delays itself, so it is not delayed already, and only for a time greater than zero. */
  ghost predicate Legal(d: Delays, op: Op)
  {
    op.Add? ==> !Waiting(d, op.co) && 1 <= op.ticks < TICKS
  }

  ghost function AfterOp(d: Delays, op: Op): Delays
    requires d.tick < TICKS && Legal(d, op)
  {
    match op
    case Add(co, ticks) => AfterAdd(d, co, ticks)
    case Tick => AfterTick(d)
    case Wake(co) => AfterWake(d, co)
  }

  ghost predicate Kept(d: Delays)
  {
    WellKept(d) && OnceEach(d)
  }

  lemma OpKeeps(d: Delays, op: Op)
    requires Kept(d) && Legal(d, op)
    ensures Kept(AfterOp(d, op))
  {
    hide WellKept, OnceEach, AfterAdd, AfterTick, AfterWake;
    match op
    case Add(co, ticks) =>
      AddKeeps(d, co, ticks);
      AddOnce(d, co, ticks);
    case Tick => TickKeeps(d);
    case Wake(co) => WakeKeeps(d, co);
  }

  ghost predicate Run(ds: seq<Delays>, ops: seq<Op>)
  {
    && |ds| == |ops| + 1
    && forall i | 0 <= i < |ops| :: ds[i].tick < TICKS && Legal(ds[i], ops[i]) && ds[i + 1] == AfterOp(ds[i], ops[i])
  }

  /** Nobody wakes or delays `co` in the meantime. */
  ghost predicate Undisturbed(ops: seq<Op>, co: Co)
  {
    forall i | 0 <= i < |ops| :: !ops[i].Tick? ==> ops[i].co != co
  }

  lemma OnByMember(es: seq<Entry>, co: Co)
    ensures On(es, co) <==> exists e | e in es :: e.co == co
  {
    if e :| e in es && e.co == co {
      var i :| 0 <= i < |es| && es[i] == e;
    }
  }

  lemma NobodyJoins(d: Delays, op: Op, co: Co)
    requires Kept(d) && Legal(d, op) && !Waiting(d, co) && (!op.Tick? ==> op.co != co)
    ensures !Waiting(AfterOp(d, op), co)
  {
    var after := AfterOp(d, op);
    OnByMember(d.delayed, co);
    OnByMember(d.overflow, co);
    OnByMember(after.delayed, co);
    OnByMember(after.overflow, co);
    match op {
      case Add(added, ticks) =>
        var e := Entry(added, (d.tick + ticks) % TICKS);
        PlaceMembers(d.delayed, e);
        PlaceMembers(d.overflow, e);
      case Tick =>
      case Wake(woken) =>
        WithoutOne(d.delayed, woken);
        WithoutOne(d.overflow, woken);
    }
    hide On, WellKept, Place, Without, Expired, Distinct, Ordered;
  }

  lemma OthersStay(d: Delays, op: Op, co: Co, due: nat)
    requires Kept(d) && Legal(d, op) && WaitsFor(d, co, due) && (!op.Tick? ==> op.co != co)
    ensures var after := AfterOp(d, op);
            && Now(after) == Now(d) + (if op.Tick? then 1 else 0)
            && (if Now(after) < due then WaitsFor(after, co, due) else !Waiting(after, co))
  {
    hide WellKept, OnceEach, AfterAdd, AfterTick, AfterWake, WaitsFor, Waiting;
    TickIsExact(d, co, due);
    match op
    case Add(added, ticks) =>
      AddKeeps(d, added, ticks);
      AddSparesOthers(d, added, ticks, co, due);
    case Tick =>
    case Wake(woken) =>
      WakeKeeps(d, woken);
      WakeSparesOthers(d, woken, co, due);
  }

  /** A co-routine that waits for a time, and that nothing wakes or delays again, is on a delayed list exactly until
      that time, across any number of counter wraps. */
  lemma {:induction false} LeavesOnTime(ds: seq<Delays>, ops: seq<Op>, co: Co, due: nat, n: nat)
    requires Run(ds, ops) && Undisturbed(ops, co) && n < |ds| && Kept(ds[0]) && WaitsFor(ds[0], co, due)
    ensures Kept(ds[n])
    ensures if Now(ds[n]) < due then WaitsFor(ds[n], co, due) else !Waiting(ds[n], co)
  {
    hide Kept, WaitsFor, Waiting, AfterOp, Legal, Now;
    if n == 0 {
      InTime(ds[0], co, due);
    } else {
      LeavesOnTime(ds, ops, co, due, n - 1);
      OneOp(ds[n - 1], ops[n - 1], co, due);
    }
  }

  lemma InTime(d: Delays, co: Co, due: nat)
    requires Kept(d) && WaitsFor(d, co, due)
    ensures Now(d) < due
  {
    hide WaitsFor, WellKept, OnceEach;
    TickIsExact(d, co, due);
  }

  lemma OneOp(d: Delays, op: Op, co: Co, due: nat)
    requires Kept(d) && Legal(d, op) && (!op.Tick? ==> op.co != co)
    requires if Now(d) < due then WaitsFor(d, co, due) else !Waiting(d, co)
    ensures Kept(AfterOp(d, op))
    ensures if Now(AfterOp(d, op)) < due then WaitsFor(AfterOp(d, op), co, due) else !Waiting(AfterOp(d, op), co)
  {
    OpKeeps(d, op);
    NowMoves(d, op);
    hide Kept, WaitsFor, Waiting, AfterOp, Legal, Now;
    if Now(d) < due {
      OthersStay(d, op, co, due);
    } else {
      NobodyJoins(d, op, co);
    }
  }

  lemma NowMoves(d: Delays, op: Op)
    requires Kept(d) && Legal(d, op)
    ensures Now(d) <= Now(AfterOp(d, op)) <= Now(d) + 1
  {
  }

  /** Delayed by 1 to 65535 ticks and left alone, a co-routine that was not delayed stays delayed exactly until then. */
  lemma StaysDelayed(d: Delays, co: Co, ticks: nat, ds: seq<Delays>, ops: seq<Op>, n: nat)
    requires Kept(d) && !Waiting(d, co) && 1 <= ticks <= 65535
    requires Run(ds, ops) && Undisturbed(ops, co) && n < |ds| && ds[0] == AfterAdd(d, co, ticks)
    ensures Kept(ds[n])
    ensures Waiting(ds[n], co) <==> Now(ds[n]) < Now(d) + ticks
  {
    AddKeeps(d, co, ticks);
    AddOnce(d, co, ticks);
    LeavesOnTime(ds, ops, co, Now(d) + ticks, n);
    WaitsMeansWaiting(ds[n], co, Now(d) + ticks);
    hide *;
  }

  /** Delayed by `ticks` at least 1 and left alone, a co-routine leaves at exactly the ticks-th tick. */
  lemma DelayIsExact(ds: seq<Delays>, ops: seq<Op>, co: Co, ticks: nat, n: nat)
    requires Run(ds, [Add(co, ticks)] + ops) && Undisturbed(ops, co) && 1 <= n < |ds| && Kept(ds[0])
    ensures Waiting(ds[n], co) <==> Now(ds[n]) < Now(ds[0]) + ticks
  {
    var all := [Add(co, ticks)] + ops;
    assert all[0] == Add(co, ticks) && ds[1] == AfterOp(ds[0], all[0]);
    RunTail(ds, all);
    assert all[1..] == ops;
    StaysDelayed(ds[0], co, ticks, ds[1..], ops, n - 1);
    hide *;
  }

  lemma RunTail(ds: seq<Delays>, ops: seq<Op>)
    requires Run(ds, ops) && ops != []
    ensures Run(ds[1..], ops[1..])
  {
    hide AfterOp, Legal;
    forall i | 0 <= i < |ops[1..]|
      ensures ds[1..][i].tick < TICKS && Legal(ds[1..][i], ops[1..][i])
      ensures ds[1..][i + 1] == AfterOp(ds[1..][i], ops[1..][i])
    {
      assert ds[1..][i] == ds[i + 1] && ops[1..][i] == ops[i + 1] && ds[1..][i + 1] == ds[i + 2];
    }
  }

  lemma WaitsMeansWaiting(d: Delays, co: Co, due: nat)
    ensures WaitsFor(d, co, due) ==> Waiting(d, co)
  {
  }

  /** With a delay of zero that is not so: at the last tick of a turn the item is swapped out unexpired, and is still
      there after the next tick. */
  lemma ZeroDelayCanBeLost(co: Co)
    ensures var d := AfterAdd(Delays(TICKS - 1, 0, [], []), co, 0);
            d.delayed == [Entry(co, TICKS - 1)] && AfterTick(d) == Delays(0, 1, [], [Entry(co, TICKS - 1)])
  {
  }

  /** A zero delay behaves like a delay of one tick, except at the last tick of a turn. */
  lemma ZeroDelay(d: Delays, co: Co)
    requires WellKept(d) && !Waiting(d, co)
    ensures Waiting(AfterTick(AfterAdd(d, co, 0)), co) <==> d.tick + 1 == TICKS
  {
    hide WellKept, Waiting, WaitsFor, AfterAdd, AfterTick;
    if d.tick + 1 == TICKS {
      ZeroDelayTakesTwoTurns(d, co);
      WaitsMeansWaiting(AfterTick(AfterAdd(d, co, 0)), co, Now(d) + 2 * TICKS);
    } else {
      ZeroDelayTakesOneTick(d, co);
    }
  }

  lemma ZeroDelayTakesOneTick(d: Delays, co: Co)
    requires WellKept(d) && !Waiting(d, co) && d.tick + 1 != TICKS
    ensures !Waiting(AfterTick(AfterAdd(d, co, 0)), co)
  {
    ZeroDelayIsFirst(d, co);
    FirstExpires(Entry(co, d.tick), d.delayed, d.tick + 1);
    OnSplit(d.delayed, Expired(d.delayed, d.tick + 1));
    hide WellKept, On, Expired, AfterAdd;
  }

  lemma FirstExpires(e: Entry, es: seq<Entry>, tick: nat)
    requires e.wake <= tick
    ensures ([e] + es)[Expired([e] + es, tick)..] == es[Expired(es, tick)..]
  {
    assert ([e] + es)[1..] == es;
  }

  /** What is delayed by zero at the last tick of a turn stays for two whole turns of the counter. */
  lemma ZeroDelayTakesTwoTurns(d: Delays, co: Co)
    requires WellKept(d) && d.tick + 1 == TICKS
    ensures WaitsFor(AfterTick(AfterAdd(d, co, 0)), co, Now(d) + 2 * 0x1_0000)
  {
    ZeroDelayIsFirst(d, co);
    assert AfterTick(AfterAdd(d, co, 0)).overflow[0] == Entry(co, d.tick);
  }

  lemma ZeroDelayIsFirst(d: Delays, co: Co)
    requires WellKept(d)
    ensures AfterAdd(d, co, 0) == d.(delayed := [Entry(co, d.tick)] + d.delayed)
    ensures d.tick + 1 == TICKS ==> d.delayed == []
  {
    FirstIsLater(d);
    AheadOfAll(d.delayed, Entry(co, d.tick));
  }

  lemma AheadOfAll(es: seq<Entry>, e: Entry)
    requires forall i | 0 <= i < |es| :: es[i].wake > e.wake
    ensures Place(es, e) == [e] + es
  {
  }

  ghost function AfterTicks(d: Delays, n: nat): Delays
  {
    if n == 0 then d else AfterTick(AfterTicks(d, n - 1))
  }

  ghost function AfterWakes(d: Delays, cos: seq<Co>): Delays
  {
    if cos == [] then d else AfterWake(AfterWakes(d, cos[..|cos| - 1]), cos[|cos| - 1])
  }

  /** A tick takes nobody off the delayed lists but those it releases. */
  lemma NobodyLost(d: Delays)
    ensures forall c: Co :: Waiting(d, c) <==> On(Released(d), c) || Waiting(AfterTick(d), c)
  {
    var next := Advance(d);
    OnSplit(next.delayed, Expired(next.delayed, next.tick));
    hide On, Expired;
  }

  lemma TickInTwo(d: Delays)
    ensures AfterTick(d) == Expire(Advance(d))
    ensures Released(d) == Advance(d).delayed[..Expired(Advance(d).delayed, Advance(d).tick)]
  {
    hide Advance, Expired;
  }

  lemma OnSplit(es: seq<Entry>, n: nat)
    requires n <= |es|
    ensures forall c: Co :: On(es, c) <==> On(es[..n], c) || On(es[n..], c)
  {
    forall c: Co ensures On(es, c) <==> On(es[..n], c) || On(es[n..], c) {
      if i :| 0 <= i < |es| && es[i].co == c {
        assert i < n ==> es[..n][i] == es[i];
        assert i >= n ==> es[n..][i - n] == es[i];
      }
    }
  }

  // ----- Ready lists -----

  /** What is on the ready list of a priority has that priority, and is there once. */
  ghost predicate ListOk(r: Ring<Co>, priority: seq<nat>, p: nat)
  {
    RingOk(r) && forall co | co in r.items :: co < |priority| && priority[co] == p
  }

  ghost predicate ReadyOk(ready: seq<Ring<Co>>, priority: seq<nat>)
  {
    && (forall co | 0 <= co < |priority| :: priority[co] < |ready|)
    && (forall p | 0 <= p < |ready| :: ListOk(ready[p], priority, p))
  }

  ghost predicate Ready(ready: seq<Ring<Co>>, priority: seq<nat>, co: Co)
  {
    co < |priority| && priority[co] < |ready| && co in ready[priority[co]].items
  }

  /** The recorded top is not below any ready co-routine. */
  ghost predicate TopOk(ready: seq<Ring<Co>>, top: nat)
  {
    top < |ready| && forall p | top < p < |ready| :: ready[p].items == []
  }

  function Readied(ready: seq<Ring<Co>>, priority: seq<nat>, co: Co): seq<Ring<Co>>
    requires co < |priority| && priority[co] < |ready| && ready[priority[co]].index <= |ready[priority[co]].items|
  {
    var p := priority[co];
    ready[p := InsertAt(ready[p], EndPosition(ready[p]), co)]
  }

  /** A co-routine made ready has its turn after every other one of its priority but the one whose turn it is; those
      keep their order, and no other priority is touched. */
  lemma ReadiedIsLast(ready: seq<Ring<Co>>, priority: seq<nat>, co: Co, other: nat)
    requires co < |priority| && priority[co] < |ready| && ready[priority[co]].index <= |ready[priority[co]].items|
    requires 1 <= other <= |ready[priority[co]].items| && other != ready[priority[co]].index
    ensures var p := priority[co];
            var were, are := ready[p], Readied(ready, priority, co)[p];
            && |are.items| == |were.items| + 1
            && exists at | 1 <= at <= |are.items| ::
                 && are.items == were.items[..at - 1] + [co] + were.items[at - 1..]
                 && (were.index > 0 ==> are.index > 0 && are.items[are.index - 1] == were.items[were.index - 1])
                 && TurnOf(are.index, if other >= at then other + 1 else other, |are.items|)
                  < TurnOf(are.index, at, |are.items|)
    ensures Readied(ready, priority, co)[..priority[co]] == ready[..priority[co]]
    ensures Readied(ready, priority, co)[priority[co] + 1..] == ready[priority[co] + 1..]
  {
    var p := priority[co];
    var at := EndPosition(ready[p]);
    EveryoneElseFirst(ready[p], co, other);
    IndexKeepsItem(ready[p], at, co);
    assert Readied(ready, priority, co)[p].items == ready[p].items[..at - 1] + [co] + ready[p].items[at - 1..];
  }

  lemma InsertAtMembers<T>(r: Ring<T>, at: nat, x: T)
    requires RingOk(r) && 1 <= at <= |r.items| + 1 && x !in r.items
    ensures RingOk(InsertAt(r, at, x)) && forall y :: y in InsertAt(r, at, x).items <==> y == x || y in r.items
  {
    var more := InsertAt(r, at, x).items;
    assert forall i | 0 <= i < |more| ::
      more[i] == if i < at - 1 then r.items[i] else if i == at - 1 then x else r.items[i - 1];
    forall y ensures y in more <==> y == x || y in r.items {
      if y in r.items {
        var i :| 0 <= i < |r.items| && r.items[i] == y;
        assert more[if i < at - 1 then i else i + 1] == y;
      }
      assert more[at - 1] == x;
    }
  }

  lemma RemoveAtMembers<T>(r: Ring<T>, at: nat)
    requires RingOk(r) && 1 <= at <= |r.items|
    ensures RingOk(RemoveAt(r, at))
    ensures forall y :: y in RemoveAt(r, at).items <==> y != r.items[at - 1] && y in r.items
  {
    var fewer := RemoveAt(r, at).items;
    assert forall i | 0 <= i < |fewer| :: fewer[i] == if i < at - 1 then r.items[i] else r.items[i + 1];
    forall y ensures y in fewer <==> y != r.items[at - 1] && y in r.items {
      if y != r.items[at - 1] && y in r.items {
        var i :| 0 <= i < |r.items| && r.items[i] == y;
        assert fewer[if i < at - 1 then i else i - 1] == y;
      }
    }
  }

  lemma ReadiedKeeps(ready: seq<Ring<Co>>, priority: seq<nat>, co: Co, top: nat)
    requires ReadyOk(ready, priority) && co < |priority| && !Ready(ready, priority, co) && TopOk(ready, top)
    ensures ListOk(ready[priority[co]], priority, priority[co])
    ensures ready[priority[co]].index <= |ready[priority[co]].items|
    ensures var after := Readied(ready, priority, co);
            && ReadyOk(after, priority) && TopOk(after, if priority[co] > top then priority[co] else top)
            && forall c: Co :: Ready(after, priority, c) <==> c == co || Ready(ready, priority, c)
  {
    var p := priority[co];
    assert ListOk(ready[p], priority, p) && co !in ready[p].items;
    OneMoreListed(ready[p], priority, p, co);
    var s := InsertAt(ready[p], EndPosition(ready[p]), co);
    RisenTop(ready, p, s, top);
    ReplacedList(ready, priority, p, s);
    hide InsertAt, EndPosition, RingOk, ListOk, ReadyOk, TopOk;
  }

  lemma OneMoreListed(r: Ring<Co>, priority: seq<nat>, p: nat, co: Co)
    requires ListOk(r, priority, p) && co < |priority| && priority[co] == p && co !in r.items
    ensures r.index <= |r.items|
    ensures var s := InsertAt(r, EndPosition(r), co);
            ListOk(s, priority, p) && forall c: Co :: c in s.items <==> c == co || c in r.items
  {
    InsertAtMembers(r, EndPosition(r), co);
    hide InsertAt;
  }

  lemma RisenTop(ready: seq<Ring<Co>>, p: nat, s: Ring<Co>, top: nat)
    requires TopOk(ready, top) && p < |ready|
    ensures TopOk(ready[p := s], if p > top then p else top)
  {
  }

  /** Replacing one ready list changes nothing on the others. */
  lemma ReplacedList(ready: seq<Ring<Co>>, priority: seq<nat>, p: nat, s: Ring<Co>)
    requires ReadyOk(ready, priority) && p < |ready| && ListOk(s, priority, p)
    ensures ReadyOk(ready[p := s], priority)
    ensures forall c: Co :: Ready(ready[p := s], priority, c) <==>
              if c < |priority| && priority[c] == p then c in s.items else Ready(ready, priority, c)
  {
    hide ListOk;
  }

  lemma UnreadyKeeps(ready: seq<Ring<Co>>, priority: seq<nat>, co: Co, at: nat, top: nat)
    requires ReadyOk(ready, priority) && Ready(ready, priority, co) && TopOk(ready, top)
    requires 1 <= at <= |ready[priority[co]].items| && ready[priority[co]].items[at - 1] == co
    ensures var after := ready[priority[co] := RemoveAt(ready[priority[co]], at)];
            && ReadyOk(after, priority) && TopOk(after, top)
            && forall c: Co :: Ready(after, priority, c) <==> c != co && Ready(ready, priority, c)
  {
    var r := ready[priority[co]];
    assert ListOk(r, priority, priority[co]);
    RemoveAtMembers(r, at);
    EmptyStays(ready, priority, co, top);
    var s := RemoveAt(r, at);
    hide RemoveAt, RingOk;
    assert ListOk(s, priority, priority[co]);
    ReplacedList(ready, priority, priority[co], s);
  }

  lemma EmptyStays(ready: seq<Ring<Co>>, priority: seq<nat>, co: Co, top: nat)
    requires Ready(ready, priority, co) && TopOk(ready, top)
    ensures priority[co] <= top
  {
  }

  function PositionIn(items: seq<Co>, co: Co): (at: nat)
    requires co in items
    ensures 1 <= at <= |items| && items[at - 1] == co
  {
    if items[0] == co then 1 else 1 + PositionIn(items[1..], co)
  }

  /** Whoever was ready or delayed is ready or delayed. */
  ghost predicate NobodyGone(ready: seq<Ring<Co>>, d: Delays, were: seq<Ring<Co>>, was: Delays, priority: seq<nat>)
  {
    forall c: Co :: Ready(ready, priority, c) || Waiting(d, c) <==> Ready(were, priority, c) || Waiting(was, c)
  }

  /** Those a tick releases become ready. */
  lemma ReleasedAreReady(ready: seq<Ring<Co>>, d: Delays, more: seq<Ring<Co>>, priority: seq<nat>)
    requires forall c: Co :: Ready(more, priority, c) <==> Ready(ready, priority, c) || On(Released(d), c)
    ensures NobodyGone(more, AfterTick(d), ready, d, priority)
  {
    NobodyLost(d);
    hide Ready, Waiting, On, Released, AfterTick;
  }

  /** Those events have woken become ready. */
  lemma WokenAreReady(ready: seq<Ring<Co>>, d: Delays, more: seq<Ring<Co>>, after: Delays, priority: seq<nat>,
                      woken: seq<Co>)
    requires forall c | c in woken :: Waiting(d, c)
    requires forall c: Co :: Ready(more, priority, c) <==> Ready(ready, priority, c) || c in woken
    requires forall c: Co :: Waiting(after, c) <==> Waiting(d, c) && c !in woken
    ensures NobodyGone(more, after, ready, d, priority)
  {
    hide Ready, Waiting;
  }

  lemma NoWakes(d: Delays, cos: seq<Co>)
    ensures AfterWakes(d, cos[..0]) == d && forall c: Co :: c !in cos[..0]
  {
    hide AfterWake;
  }

  lemma OneMoreWake(d: Delays, cos: seq<Co>, k: nat)
    requires k < |cos|
    ensures AfterWakes(d, cos[..k + 1]) == AfterWake(AfterWakes(d, cos[..k]), cos[k])
    ensures forall c: Co :: c in cos[..k + 1] <==> c in cos[..k] || c == cos[k]
  {
    hide AfterWake;
    assert cos[..k + 1][..k] == cos[..k] && cos[..k + 1] == cos[..k] + [cos[k]];
  }

  lemma StayingPut(ready: seq<Ring<Co>>, d: Delays, priority: seq<nat>)
    ensures NobodyGone(ready, d, ready, d, priority)
  {
  }

  lemma StillNobodyGone(r2: seq<Ring<Co>>, d2: Delays, r1: seq<Ring<Co>>, d1: Delays, r0: seq<Ring<Co>>, d0: Delays,
                        priority: seq<nat>)
    requires NobodyGone(r2, d2, r1, d1, priority) && NobodyGone(r1, d1, r0, d0, priority)
    ensures NobodyGone(r2, d2, r0, d0, priority)
  {
    hide Ready, Waiting;
  }

  /** Whoever is delayed exists and is not ready; whoever has an event item on a list is delayed. */
  ghost predicate LinksOk(d: Delays, ready: seq<Ring<Co>>, priority: seq<nat>, pending: seq<Co>, awaiting: set<Co>)
  {
    && (forall co: Co | Waiting(d, co) :: co < |priority| && !Ready(ready, priority, co))
    && (forall co | co in awaiting :: Waiting(d, co))
    && (forall co | co in pending :: Waiting(d, co) && co !in awaiting)
    && (forall i, j | 0 <= i < j < |pending| :: pending[i] != pending[j])
  }

  lemma ReadyExists(ready: seq<Ring<Co>>, priority: seq<nat>, co: Co)
    requires Ready(ready, priority, co)
    ensures co < |priority|
  {
  }

  lemma LinksAfterAdd(d: Delays, after: Delays, ready: seq<Ring<Co>>, less: seq<Ring<Co>>, priority: seq<nat>, co: Co,
                      pending: seq<Co>, awaiting: set<Co>)
    requires LinksOk(d, ready, priority, pending, awaiting) && co < |priority| && Ready(ready, priority, co)
    requires forall c: Co :: Waiting(after, c) <==> c == co || Waiting(d, c)
    requires forall c: Co :: Ready(less, priority, c) <==> c != co && Ready(ready, priority, c)
    ensures LinksOk(after, less, priority, pending, awaiting)
    ensures LinksOk(after, less, priority, pending, awaiting + {co})
    ensures !Waiting(d, co)
  {
    hide Waiting, Ready;
  }

  /** A co-routine leaves the delayed lists, its event item whichever list that is on, and becomes ready. */
  lemma LinksAfterLeaving(d: Delays, after: Delays, ready: seq<Ring<Co>>, more: seq<Ring<Co>>, priority: seq<nat>,
                          co: Co, pending: seq<Co>, pending': seq<Co>, awaiting: set<Co>)
    requires LinksOk(d, ready, priority, pending, awaiting) && Waiting(d, co)
    requires forall c: Co :: Waiting(after, c) <==> c != co && Waiting(d, c)
    requires forall c: Co :: Ready(more, priority, c) <==> c == co || Ready(ready, priority, c)
    requires pending' == Dropped(pending, co)
    ensures LinksOk(after, more, priority, pending', awaiting - {co})
  {
    DroppedOne(pending, co);
    hide Waiting, Ready, Dropped;
  }

  /** The first of those an event has readied becomes ready. */
  lemma LinksAfterWake(d: Delays, ready: seq<Ring<Co>>, more: seq<Ring<Co>>, priority: seq<nat>, pending: seq<Co>,
                       awaiting: set<Co>)
    requires Kept(d) && LinksOk(d, ready, priority, pending, awaiting) && pending != []
    requires forall c: Co :: Ready(more, priority, c) <==> c == pending[0] || Ready(ready, priority, c)
    ensures Kept(AfterWake(d, pending[0])) && LinksOk(AfterWake(d, pending[0]), more, priority, pending[1..], awaiting)
    ensures forall c: Co :: Waiting(AfterWake(d, pending[0]), c) <==> c != pending[0] && Waiting(d, c)
  {
    hide AfterWake, Kept, OnceEach, LinksOk, Ready, Waiting, Dropped;
    WakeKept(d, pending[0]);
    WakeMembers(d, pending[0]);
    PendingIsWaiting(d, ready, priority, pending, awaiting);
    LinksAfterLeaving(d, AfterWake(d, pending[0]), ready, more, priority, pending[0], pending, pending[1..], awaiting);
  }

  function Dropped(cos: seq<Co>, co: Co): seq<Co>
  {
    if cos == [] then [] else if cos[0] == co then cos[1..] else [cos[0]] + Dropped(cos[1..], co)
  }

  lemma {:induction false} DroppedOne(cos: seq<Co>, co: Co)
    requires forall i, j | 0 <= i < j < |cos| :: cos[i] != cos[j]
    ensures var left := Dropped(cos, co);
            && (forall x: Co :: x in left <==> x != co && x in cos)
            && (forall i, j | 0 <= i < j < |left| :: left[i] != left[j])
    ensures co !in cos ==> Dropped(cos, co) == cos
  {
    if cos != [] {
      var rest := cos[1..];
      assert forall i | 0 <= i < |rest| :: rest[i] == cos[i + 1];
      assert cos[0] !in rest;
      DroppedOne(rest, co);
      hide Dropped;
      DroppedUnfolds(cos, co);
      var left := Dropped(cos, co);
      if cos[0] != co {
        assert forall i | 0 < i < |left| :: left[i] == Dropped(rest, co)[i - 1] && left[i] in Dropped(rest, co);
      }
    }
  }

  lemma DroppedUnfolds(cos: seq<Co>, co: Co)
    requires cos != []
    ensures Dropped(cos, co) == if cos[0] == co then cos[1..] else [cos[0]] + Dropped(cos[1..], co)
  {
  }

  lemma WakeKept(d: Delays, co: Co)
    requires Kept(d)
    ensures Kept(AfterWake(d, co)) && Now(AfterWake(d, co)) == Now(d) && OnceEach(d)
  {
    WakeKeeps(d, co);
  }

  lemma KeptTick(d: Delays)
    requires Kept(d)
    ensures d.tick < TICKS
  {
  }

  lemma WakeMembers(d: Delays, co: Co)
    requires OnceEach(d)
    ensures forall c: Co :: Waiting(AfterWake(d, co), c) <==> c != co && Waiting(d, c)
  {
    WithoutOne(d.delayed, co);
    WithoutOne(d.overflow, co);
    hide Without, OnceEach, On;
    var after := AfterWake(d, co);
    forall c: Co ensures Waiting(after, c) <==> c != co && Waiting(d, c) {
      OnByMember(d.delayed, c);
      OnByMember(d.overflow, c);
      OnByMember(after.delayed, c);
      OnByMember(after.overflow, c);
    }
  }

  lemma FirstLeaves(d: Delays)
    requires OnceEach(d) && d.delayed != []
    ensures var after, co := d.(delayed := d.delayed[1..]), d.delayed[0].co;
            && Waiting(d, co) && OnceEach(after) && (MidTick(d) ==> MidTick(after))
            && forall c: Co :: Waiting(after, c) <==> c != co && Waiting(d, c)
  {
    var rest := d.delayed[1..];
    assert forall i | 0 <= i < |rest| :: rest[i] == d.delayed[i + 1];
    forall c: Co ensures On(d.delayed, c) <==> c == d.delayed[0].co || On(rest, c) {
      if On(d.delayed, c) && c != d.delayed[0].co {
        var i :| 0 <= i < |d.delayed| && d.delayed[i].co == c;
        assert rest[i - 1].co == c;
      }
    }
    assert !On(rest, d.delayed[0].co) && !On(d.overflow, d.delayed[0].co);
  }

  lemma {:induction false} ExpiredFrom(es: seq<Entry>, tick: nat, k: nat)
    requires k <= |es| && (forall i | 0 <= i < k :: es[i].wake <= tick) && (k < |es| ==> es[k].wake > tick)
    ensures k == Expired(es, tick)
  {
  }

  // ----- The code -----

  class Scheduler {
    const priority: seq<nat>                     // uxPriority of every co-routine
    var ready: seq<Ring<Co>>                     // pxReadyCoRoutineLists
    var delayed: seq<Entry>                      // *pxDelayedCoRoutineList
    var overflow: seq<Entry>                     // *pxOverflowDelayedCoRoutineList
    var pending: seq<Co>                         // xPendingReadyCoRoutineList, by event list item
    var awaiting: set<Co>                        // whose event list item is on some event list
    var top: nat                                 // uxTopCoRoutineReadyPriority
    var tickCount: nat
    var lastTickCount: nat
    var current: Co
    ghost var epoch: nat

    ghost function State(): Delays
      reads this
    {
      Delays(tickCount, epoch, delayed, overflow)
    }

    ghost predicate ReadyValid()
      reads this
    {
      ReadyOk(ready, priority) && TopOk(ready, top)
    }

    ghost predicate DelayValid()
      reads this
    {
      Kept(State()) && LinksOk(State(), ready, priority, pending, awaiting)
    }

    ghost predicate Valid()
      reads this
    {
      ReadyValid() && DelayValid() && lastTickCount == tickCount
    }

    /** Co-routines with the priorities asked for, those beyond the highest brought down to it. */
    constructor (requested: seq<nat>, priorities: nat)
      requires priorities > 0
      ensures Valid() && State() == Delays(0, 0, [], []) && pending == [] && awaiting == {}
      ensures |priority| == |requested|
      ensures forall co | 0 <= co < |requested| ::
                priority[co] == if requested[co] >= priorities then priorities - 1 else requested[co]
      ensures forall co: Co :: !Ready(ready, priority, co)
    {
      priority := seq(|requested|, co requires 0 <= co < |requested| =>
        if requested[co] >= priorities then priorities - 1 else requested[co]);
      ready := seq(priorities, i => Ring([], 0));
      delayed, overflow, pending, awaiting := [], [], [], {};
      top, tickCount, lastTickCount, current, epoch := 0, 0, 0, 0, 0;
    }

    /** prvAddCoRoutineToReadyQueue. */
    method AddToReadyQueue(co: Co)
      requires ReadyValid() && co < |priority| && !Ready(ready, priority, co)
      modifies this`ready, this`top
      ensures ReadyValid() && ready == Readied(old(ready), priority, co)
      ensures forall c: Co :: Ready(ready, priority, c) <==> c == co || Ready(old(ready), priority, c)
    {
      ReadiedKeeps(ready, priority, co, top);
      hide InsertAt, EndPosition, RingOk, Ready, TopOk;
      if priority[co] > top {
        top := priority[co];
      }
      ready := Readied(ready, priority, co);
    }

    /** xCoRoutineCreate; `hasMemory` is whether there is memory for the control block. */
    method Create(co: Co, hasMemory: bool) returns (ok: bool)
      requires Valid() && co < |priority| && !Ready(ready, priority, co) && !Waiting(State(), co)
      modifies this`ready, this`top
      ensures Valid() && ok == hasMemory
      ensures ok ==> ready == Readied(old(ready), priority, co)
      ensures forall c: Co :: Ready(ready, priority, c) <==> (ok && c == co) || Ready(old(ready), priority, c)
      ensures !ok ==> unchanged(this)
    {
      hide ReadyOk, TopOk, Ready, Waiting, Kept, Readied;
      if hasMemory {
        AddToReadyQueue(co);
      }
      ok := hasMemory;
    }

    /** The running co-routine's item goes from its ready list ... */
    method LeaveReady(co: Co)
      requires ReadyValid() && Ready(ready, priority, co)
      modifies this`ready
      ensures ReadyValid()
      ensures forall c: Co :: Ready(ready, priority, c) <==> c != co && Ready(old(ready), priority, c)
    {
      var p := priority[co];
      var at := PositionIn(ready[p].items, co);
      UnreadyKeeps(ready, priority, co, at, top);
      hide RemoveAt, ReadyOk, TopOk, Ready, PositionIn;
      ready := ready[p := RemoveAt(ready[p], at)];
    }

    /** ... to the delayed list its wake time belongs on. */
    method JoinDelayed(co: Co, ticksToDelay: nat)
      requires tickCount < TICKS && ticksToDelay < TICKS
      modifies this`delayed, this`overflow
      ensures State() == AfterAdd(old(State()), co, ticksToDelay)
    {
      var timeToWake := (tickCount + ticksToDelay) % TICKS;
      if timeToWake < tickCount {
        overflow := Place(overflow, Entry(co, timeToWake));
      } else {
        delayed := Place(delayed, Entry(co, timeToWake));
      }
    }

    /** vCoRoutineAddToDelayedList, called by the running co-routine. */
    method AddToDelayedList(ticksToDelay: nat, onEvent: bool)
      requires Valid() && Ready(ready, priority, current) && 1 <= ticksToDelay < TICKS
      modifies this`ready, this`delayed, this`overflow, this`awaiting
      ensures Valid() && State() == AfterAdd(old(State()), current, ticksToDelay)
      ensures WaitsFor(State(), current, Now(old(State())) + ticksToDelay)
      ensures forall c: Co :: Ready(ready, priority, c) <==> c != current && Ready(old(ready), priority, c)
      ensures awaiting == if onEvent then old(awaiting) + {current} else old(awaiting)
    {
      ghost var d, were := State(), ready;
      hide ReadyOk, TopOk, Waiting, Place, WaitsFor, LinksOk, WellKept, OnceEach, AfterAdd;
      KeptTick(d);
      AddMembers(d, current, ticksToDelay);
      AddKept(d, current, ticksToDelay);
      ReadyExists(ready, priority, current);
      LeaveReady(current);
      LinksAfterAdd(d, AfterAdd(d, current, ticksToDelay), were, ready, priority, current, pending, awaiting);
      AddKeeps(d, current, ticksToDelay);
      JoinDelayed(current, ticksToDelay);
      if onEvent {
        awaiting := awaiting + {current};
      }
    }

    /** xCoRoutineRemoveFromEventList, from an interrupt: the event item at the head of a list that is not empty moves
        to the pending list. The caller is told whether its owner should run before the current co-routine. */
    method RemoveFromEventList(eventList: seq<Co>) returns (first: bool)
      requires Valid() && eventList != [] && eventList[0] in awaiting && current < |priority|
      modifies this`awaiting, this`pending
      ensures Valid() && pending == old(pending) + [eventList[0]] && awaiting == old(awaiting) - {eventList[0]}
      ensures eventList[0] < |priority| && (first <==> priority[eventList[0]] >= priority[current])
    {
      hide ReadyOk, TopOk, Ready, Waiting, Kept;
      var co := eventList[0];
      awaiting := awaiting - {co};
      pending := pending + [co];
      first := priority[co] >= priority[current];
    }

    /** prvCheckPendingReadyList: whoever an event has readied leaves the delayed lists for the ready lists. */
    method CheckPendingReadyList()
      requires Valid()
      modifies this`pending, this`delayed, this`overflow, this`ready, this`top
      ensures Valid() && pending == [] && State() == AfterWakes(old(State()), old(pending))
      ensures forall c: Co :: Ready(ready, priority, c) <==> Ready(old(ready), priority, c) || c in old(pending)
      ensures NobodyGone(ready, State(), old(ready), old(State()), priority)
      ensures old(pending) == [] ==> ready == old(ready)
    {
      PendingWait();
      hide ReadyOk, TopOk, Ready, Waiting, Kept, LinksOk, AfterWake, AfterWakes, NobodyGone;
      ghost var all, d, list := pending, State(), ready;
      NoWakes(d, all);
      ghost var done := 0;
      while pending != []
        invariant done <= |all| && pending == all[done..] && (done == 0 ==> ready == list)
        invariant Valid() && State() == AfterWakes(d, all[..done])
        invariant forall c: Co :: Ready(ready, priority, c) <==> Ready(old(ready), priority, c) || c in all[..done]
        invariant forall c: Co :: Waiting(State(), c) <==> Waiting(d, c) && c !in all[..done]
        decreases |pending|
      {
        OneMoreWake(d, all, done);
        WakePending();
        done := done + 1;
      }
      assert all[..done] == all;
      WokenAreReady(list, d, ready, State(), priority, all);
    }

    /** uxListRemove on a delayed co-routine's item: off whichever list it is on. */
    method TakeOff(co: Co)
      modifies this`delayed, this`overflow
      ensures State() == AfterWake(old(State()), co)
    {
      delayed := Without(delayed, co);
      overflow := Without(overflow, co);
    }

    /** One turn of its loop. */
    method WakePending()
      requires Valid() && pending != []
      modifies this`pending, this`delayed, this`overflow, this`ready, this`top
      ensures Valid() && pending == old(pending)[1..] && State() == AfterWake(old(State()), old(pending)[0])
      ensures forall c: Co :: Ready(ready, priority, c) <==> Ready(old(ready), priority, c) || c == old(pending)[0]
      ensures forall c: Co :: Waiting(State(), c) <==> Waiting(old(State()), c) && c != old(pending)[0]
    {
      ghost var d, list, were := State(), ready, pending;
      var co := pending[0];
      hide ReadyOk, TopOk, Ready, Waiting, Kept, LinksOk, Readied, AfterWake, Dropped;
      PendingIsWaiting(d, ready, priority, pending, awaiting);
      pending := pending[1..];
      TakeOff(co);
      AddToReadyQueue(co);
      LinksAfterWake(d, list, ready, priority, were, awaiting);
    }

    /** The body of the inner loop of prvCheckDelayedList. */
    method ExpireFirst()
      requires ReadyValid() && OnceEach(State()) && MidTick(State())
      requires LinksOk(State(), ready, priority, pending, awaiting)
      requires delayed != []
      modifies this`pending, this`awaiting, this`delayed, this`ready, this`top
      ensures ReadyValid() && OnceEach(State()) && MidTick(State())
      ensures LinksOk(State(), ready, priority, pending, awaiting)
      ensures delayed == old(delayed)[1..] && (old(pending) == [] ==> pending == [])
      ensures forall c: Co :: Ready(ready, priority, c) <==> Ready(old(ready), priority, c) || c == old(delayed)[0].co
    {
      ghost var d, list, were, events := State(), ready, pending, awaiting;
      var co := delayed[0].co;
      FirstLeaves(d);
      WaitingIsNotReady(d, ready, priority, pending, awaiting, co);
      hide ReadyOk, TopOk, Ready, Waiting, OnceEach, MidTick, LinksOk, Readied, Dropped;
      delayed := delayed[1..];
      awaiting := awaiting - {co};
      pending := Dropped(pending, co);
      AddToReadyQueue(co);
      LinksAfterLeaving(d, State(), list, ready, priority, co, were, pending, events);
    }

    /** The inner loop: everybody whose time has come. */
    method ExpireAll()
      requires ReadyValid() && OnceEach(State()) && MidTick(State())
      requires LinksOk(State(), ready, priority, pending, awaiting)
      modifies this`pending, this`awaiting, this`delayed, this`ready, this`top
      ensures ReadyValid() && DelayValid() && State() == Expire(old(State())) && (old(pending) == [] ==> pending == [])
      ensures forall c: Co :: Ready(ready, priority, c) <==>
                Ready(old(ready), priority, c) || On(old(delayed)[..Expired(old(delayed), tickCount)], c)
    {
      ExpireKeeps(State());
      hide ReadyOk, TopOk, Ready, Waiting, OnceEach, MidTick, LinksOk, Expired, WellKept, On;
      ghost var d, start, k := State(), delayed, 0;
      NobodyOn(start);
      while delayed != []
        invariant old(pending) == [] ==> pending == []
        invariant k <= |start| && delayed == start[k..] && (forall i | 0 <= i < k :: start[i].wake <= tickCount)
        invariant ReadyValid() && OnceEach(State()) && MidTick(State())
        invariant LinksOk(State(), ready, priority, pending, awaiting)
        invariant forall c: Co :: Ready(ready, priority, c) <==> Ready(old(ready), priority, c) || On(start[..k], c)
        decreases |start| - k
      {
        if tickCount < delayed[0].wake {
          break;
        }
        OneMoreOn(start, k);
        ExpireFirst();
        k := k + 1;
      }
      ExpiredFrom(start, tickCount, k);
    }

    /** One tick of prvCheckDelayedList. */
    method OneTick()
      requires ReadyValid() && DelayValid() && tickCount < TICKS
      modifies this`pending, this`awaiting, this`delayed, this`overflow, this`ready, this`top, this`tickCount,
               this`epoch
      ensures ReadyValid() && DelayValid() && State() == AfterTick(old(State()))
      ensures tickCount == (old(tickCount) + 1) % TICKS && (old(pending) == [] ==> pending == [])
      ensures forall c: Co :: Ready(ready, priority, c) <==>
                Ready(old(ready), priority, c) || On(Released(old(State())), c)
      ensures NobodyGone(ready, State(), old(ready), old(State()), priority)
    {
      ghost var d, list := State(), ready;
      hide ReadyOk, TopOk, Ready, Waiting, OnceEach, MidTick, LinksOk, Kept, On, Now;
      hide Advance, AfterTick, Released, Expire, Expired, NobodyGone;
      ToMidTick();
      TickInTwo(d);
      CountTick();
      ExpireAll();
      ReleasedAreReady(list, d, ready, priority);
    }

    lemma ToMidTick()
      requires DelayValid()
      ensures OnceEach(Advance(State())) && MidTick(Advance(State()))
      ensures LinksOk(Advance(State()), ready, priority, pending, awaiting)
    {
      AdvanceToMidTick(State());
      LinksAfterAdvance(State(), ready, priority, pending, awaiting);
      hide LinksOk, Advance, WellKept, OnceEach, MidTick, WaitsFor;
    }

    /** xCoRoutineTickCount++, and the swap when it wraps. */
    method CountTick()
      requires tickCount < TICKS
      modifies this`delayed, this`overflow, this`tickCount, this`epoch
      ensures State() == Advance(old(State())) && tickCount == (old(tickCount) + 1) % TICKS
    {
      tickCount := (tickCount + 1) % TICKS;
      if tickCount == 0 {
        delayed, overflow := overflow, delayed;
        epoch := epoch + 1;
      }
    }

    /** prvCheckDelayedList: as many ticks as the kernel's counter has moved on. */
    method CheckDelayedList(taskTick: nat)
      requires Valid() && taskTick < TICKS
      modifies this`pending, this`awaiting, this`delayed, this`overflow, this`ready, this`top, this`tickCount,
               this`epoch, this`lastTickCount
      ensures Valid() && State() == AfterTicks(old(State()), (taskTick - old(lastTickCount)) % TICKS)
      ensures tickCount == taskTick && (old(pending) == [] ==> pending == [])
      ensures taskTick == old(lastTickCount) ==> ready == old(ready)
      ensures NobodyGone(ready, State(), old(ready), old(State()), priority)
    {
      hide ReadyOk, TopOk, Kept, LinksOk, Ready, On, AfterTick, Released, Waiting, NobodyGone;
      KeptTick(State());
      var passed := (taskTick - lastTickCount) % TICKS;
      ghost var all, d, list := passed, State(), ready;
      StayingPut(ready, d, priority);
      while passed > 0
        invariant old(pending) == [] ==> pending == []
        invariant passed == all ==> ready == list
        invariant NobodyGone(ready, State(), list, d, priority)
        invariant 0 <= passed <= all && ReadyValid() && DelayValid() && State() == AfterTicks(d, all - passed)
        invariant tickCount < TICKS && (tickCount + passed) % TICKS == taskTick
      {
        ghost var d', list' := State(), ready;
        OneTick();
        StillNobodyGone(ready, State(), list', d', list, d, priority);
        KeptTick(State());
        passed := passed - 1;
      }
      lastTickCount := tickCount;
    }

    /** vCoRoutineSchedule up to the call of the co-routine it has chosen: one of the highest ready priority, the
        next in turn on its list. */
    method Schedule(taskTick: nat) returns (ran: bool)
      requires Valid() && taskTick < TICKS
      modifies this
      ensures Valid() && pending == [] && tickCount == taskTick
      ensures State() == AfterTicks(AfterWakes(old(State()), old(pending)), (taskTick - old(lastTickCount)) % TICKS)
      ensures NobodyGone(ready, State(), old(ready), old(State()), priority)
      ensures ran ==> Ready(ready, priority, current) && HighestReady(ready, priority, priority[current])
      ensures ran ==> top == priority[current] && ready[top].index >= 1
      ensures ran ==> ready[top].items[ready[top].index - 1] == current
      ensures ran && old(pending) == [] && taskTick == old(lastTickCount)
              ==> top < |old(ready)| && ready == old(ready)[top := Advanced(old(ready)[top])]
      ensures !ran ==> forall c: Co :: !Ready(ready, priority, c)
    {
      hide Kept, LinksOk, Waiting, AfterTicks, AfterWakes, HighestReady, Ready, ReadyOk, TopOk, NobodyGone, State;
      ghost var d, list := State(), ready;
      CheckPendingReadyList();
      ghost var d', list' := State(), ready;
      CheckDelayedList(taskTick);
      StillNobodyGone(ready, State(), list', d', list, d, priority);
      ran := FindTop();
      if ran {
        ghost var d'', list'' := State(), ready;
        TakeTurn();
        StillNobodyGone(ready, State(), list'', d'', list, d, priority);
      }
    }

    lemma PendingWait()
      requires Valid()
      ensures forall c: Co | c in pending :: Waiting(State(), c)
    {
      hide Kept, Waiting, Ready, ReadyOk, TopOk;
    }

    /** The loop of vCoRoutineSchedule: down to the highest ready list that is not empty. */
    method FindTop() returns (found: bool)
      requires Valid()
      modifies this`top
      ensures Valid()
      ensures State() == old(State())
      ensures found ==> ready[top].items != [] && HighestReady(ready, priority, top)
      ensures !found ==> forall c: Co :: !Ready(ready, priority, c)
    {
      hide Kept, LinksOk, ReadyOk, HighestReady, Ready;
      while ready[top].items == []
        invariant Valid()
        decreases top
      {
        if top == 0 {
          NobodyReady(ready, priority, top);
          return false;
        }
        top := top - 1;
      }
      HighestIsTop(ready, priority, top);
      found := true;
    }

    /** listGET_OWNER_OF_NEXT_ENTRY on the highest ready list. */
    method TakeTurn()
      requires Valid() && ready[top].items != [] && HighestReady(ready, priority, top)
      modifies this`ready, this`current
      ensures Valid() && ready == old(ready)[top := Advanced(old(ready)[top])] && State() == old(State())
      ensures NobodyGone(ready, State(), old(ready), old(State()), priority)
      ensures top < |old(ready)| == |ready|
      ensures Ready(ready, priority, current) && priority[current] == top && HighestReady(ready, priority, top)
      ensures ready[top].index >= 1 && ready[top].items[ready[top].index - 1] == current
    {
      hide Kept, Waiting;
      TurnKeeps(ready, priority, top);
      ready := ready[top := Advanced(ready[top])];
      current := ready[top].items[ready[top].index - 1];
    }
  }

  /** Nobody of a higher priority is ready. */
  ghost predicate HighestReady(ready: seq<Ring<Co>>, priority: seq<nat>, p: nat)
  {
    forall c: Co | Ready(ready, priority, c) :: priority[c] <= p
  }

  lemma HighestIsTop(ready: seq<Ring<Co>>, priority: seq<nat>, top: nat)
    requires TopOk(ready, top)
    ensures HighestReady(ready, priority, top)
  {
  }

  lemma NobodyReady(ready: seq<Ring<Co>>, priority: seq<nat>, top: nat)
    requires TopOk(ready, top) && top == 0 && ready[top].items == []
    ensures forall c: Co :: !Ready(ready, priority, c)
  {
  }

  lemma TurnKeeps(ready: seq<Ring<Co>>, priority: seq<nat>, top: nat)
    requires ReadyOk(ready, priority) && TopOk(ready, top) && ready[top].items != []
    ensures ready[top].index <= |ready[top].items|
    ensures var after := ready[top := Advanced(ready[top])];
            && ReadyOk(after, priority) && TopOk(after, top)
            && (forall c: Co :: Ready(after, priority, c) <==> Ready(ready, priority, c))
            && 1 <= after[top].index <= |after[top].items|
            && Ready(ready, priority, after[top].items[after[top].index - 1])
            && priority[after[top].items[after[top].index - 1]] == top
  {
    assert ListOk(ready[top], priority, top);
    var s := Advanced(ready[top]);
    assert ListOk(s, priority, top);
    assert s.items[s.index - 1] in ready[top].items;
    ReplacedList(ready, priority, top, s);
  }

  lemma LinksAfterAdvance(d: Delays, ready: seq<Ring<Co>>, priority: seq<nat>, pending: seq<Co>, awaiting: set<Co>)
    requires LinksOk(d, ready, priority, pending, awaiting)
    ensures LinksOk(Advance(d), ready, priority, pending, awaiting)
  {
    assert forall c: Co :: Waiting(Advance(d), c) <==> Waiting(d, c);
    hide Waiting, Ready;
  }

  lemma PendingIsWaiting(d: Delays, ready: seq<Ring<Co>>, priority: seq<nat>, pending: seq<Co>, awaiting: set<Co>)
    requires LinksOk(d, ready, priority, pending, awaiting) && pending != []
    ensures var co := pending[0];
            Waiting(d, co) && co < |priority| && !Ready(ready, priority, co) && pending[1..] == Dropped(pending, co)
            && awaiting - {co} == awaiting
  {
    hide Waiting, Ready;
  }

  lemma WaitingIsNotReady(d: Delays, ready: seq<Ring<Co>>, priority: seq<nat>, pending: seq<Co>, awaiting: set<Co>,
                          co: Co)
    requires LinksOk(d, ready, priority, pending, awaiting) && Waiting(d, co)
    ensures co < |priority| && !Ready(ready, priority, co)
  {
    hide Waiting, Ready;
  }

  lemma NobodyOn(es: seq<Entry>)
    ensures forall c: Co :: !On(es[..0], c)
  {
  }

  lemma OneMoreOn(es: seq<Entry>, k: nat)
    requires k < |es|
    ensures forall c: Co :: On(es[..k + 1], c) <==> On(es[..k], c) || c == es[k].co
  {
    forall c: Co ensures On(es[..k + 1], c) <==> On(es[..k], c) || c == es[k].co {
      assert es[..k + 1][k] == es[k];
      if On(es[..k], c) {
        var i :| 0 <= i < k && es[..k][i].co == c;
        assert es[..k + 1][i].co == c;
      }
    }
  }

  lemma AddMembers(d: Delays, co: Co, ticks: nat)
    requires d.tick < TICKS && ticks < TICKS
    ensures forall c: Co :: Waiting(AfterAdd(d, co, ticks), c) <==> c == co || Waiting(d, c)
  {
    var e := Entry(co, (d.tick + ticks) % TICKS);
    hide Place, On;
    PlaceOn(d.delayed, e);
    PlaceOn(d.overflow, e);
  }

  lemma PlaceOn(es: seq<Entry>, e: Entry)
    ensures forall c: Co :: On(Place(es, e), c) <==> c == e.co || On(es, c)
  {
    PlaceMembers(es, e);
    hide Place, On;
    forall c: Co ensures On(Place(es, e), c) <==> c == e.co || On(es, c) {
      OnByMember(es, c);
      OnByMember(Place(es, e), c);
      assert e in Place(es, e);
    }
  }

  lemma AddKept(d: Delays, co: Co, ticks: nat)
    requires d.tick < TICKS && Kept(d) && 1 <= ticks < TICKS
    ensures !Waiting(d, co) ==> Kept(AfterAdd(d, co, ticks))
  {
    hide Waiting, WellKept, OnceEach, AfterAdd;
    if !Waiting(d, co) {
      AddKeeps(d, co, ticks);
      AddOnce(d, co, ticks);
    }
  }
}
