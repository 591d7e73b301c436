/** Event groups: tasks wait for any or all of some bits; setting bits releases those whose wait is over.
    Event bits and list-item values are 16 bits wide, as the tick type is. */
module EventGroups {

  type Bits = bv16
  type Task = nat

  const CLEAR_EVENTS_ON_EXIT: Bits := 0x0100
  const UNBLOCKED_DUE_TO_BIT_SET: Bits := 0x0200
  const WAIT_FOR_ALL_BITS: Bits := 0x0400
  const VALUE_IN_USE: Bits := 0x8000             // taskEVENT_LIST_ITEM_VALUE_IN_USE
  const CONTROL: Bits := 0xff00

  /** prvTestWaitCondition. */
  predicate WaitOver(current: Bits, waitFor: Bits, all: bool)
  {
    if all then current & waitFor == waitFor else current & waitFor != 0
  }

  /** Reading back a value stored in a waiter's list item. */
  function WaitedBits(value: Bits): Bits
  {
    value & !CONTROL
  }

  predicate WaitsForAll(value: Bits)
  {
    value & WAIT_FOR_ALL_BITS != 0
  }

  predicate ClearsOnExit(value: Bits)
  {
    value & CLEAR_EVENTS_ON_EXIT != 0
  }

  predicate WasReleased(value: Bits)
  {
    value & UNBLOCKED_DUE_TO_BIT_SET != 0
  }

  /** What a released task finds in its list item. */
  function Handed(current: Bits): Bits
  {
    current | UNBLOCKED_DUE_TO_BIT_SET | VALUE_IN_USE
  }

  lemma HandedReads(current: Bits)
    requires current & CONTROL == 0
    ensures WasReleased(Handed(current)) && WaitedBits(Handed(current)) == current
  {
  }

  /** The same question asked of a value stored in a waiter's list item. */
  predicate Satisfied(value: Bits, current: Bits)
  {
    WaitOver(current, WaitedBits(value), WaitsForAll(value))
  }

  function StoredWait(waitFor: Bits, clear: bool, all: bool): Bits
  {
    waitFor | (if clear then CLEAR_EVENTS_ON_EXIT else 0) | (if all then WAIT_FOR_ALL_BITS else 0) | VALUE_IN_USE
  }

  lemma StoredWaitReads(waitFor: Bits, clear: bool, all: bool)
    requires waitFor & CONTROL == 0
    ensures var v := StoredWait(waitFor, clear, all);
            && WaitedBits(v) == waitFor && (WaitsForAll(v) <==> all) && (ClearsOnExit(v) <==> clear) && !WasReleased(v)
  {
  }

  /** Fewer bits end fewer waits. */
  lemma WaitOverMonotone(fewer: Bits, more: Bits, w: Bits, all: bool)
    requires fewer & more == fewer
    ensures WaitOver(fewer, w, all) ==> WaitOver(more, w, all)
  {
    if all {
      AllMonotone(w, fewer, more);
    } else {
      AnyMonotone(w, fewer, more);
    }
  }

  lemma AllMonotone(w: Bits, fewer: Bits, more: Bits)
    requires fewer & more == fewer
    ensures fewer & w == w ==> more & w == w
  {
  }

  lemma AnyMonotone(w: Bits, fewer: Bits, more: Bits)
    requires fewer & more == fewer
    ensures fewer & w != 0 ==> more & w != 0
  {
  }

  function Or(a: Bits, b: Bits): Bits
  {
    a | b
  }

  function Without(bits: Bits, mask: Bits): Bits
  {
    bits & !mask
  }

  /** Nothing in the byte the kernel keeps for itself. */
  predicate UserBits(bits: Bits)
  {
    bits & CONTROL == 0
  }

  lemma OrLaws(a: Bits, b: Bits, c: Bits)
    ensures Or(a, Or(b, c)) == Or(Or(a, b), c) && Or(a, b) == Or(b, a)
    ensures Or(a, 0) == a == Or(0, a) && Or(a, a) == a
  {
  }

  lemma UserBitsKept(bits: Bits, other: Bits)
    requires UserBits(bits)
    ensures UserBits(Without(bits, other)) && WaitedBits(bits) == bits
    ensures UserBits(other) ==> UserBits(Or(bits, other))
  {
  }

  lemma WithoutLess(bits: Bits, mask: Bits, waitFor: Bits, all: bool)
    ensures WaitOver(Without(bits, mask), waitFor, all) ==> WaitOver(bits, waitFor, all)
  {
    assert (bits & !mask) & bits == bits & !mask;
    WaitOverMonotone(bits & !mask, bits, waitFor, all);
  }

  // ----- What setting bits does to the waiters -----

  type Values = map<Task, Bits>

  ghost predicate Known(ws: seq<Task>, values: Values)
  {
    forall i | 0 <= i < |ws| :: ws[i] in values
  }

  ghost predicate Distinct(ws: seq<Task>)
  {
    forall i, j | 0 <= i < j < |ws| :: ws[i] != ws[j]
  }

  /** The waiters whose wait is over under `current`, in list order, and those whose is not. */
  ghost function Over(ws: seq<Task>, values: Values, current: Bits): seq<Task>
    requires Known(ws, values)
  {
    if ws == [] then [] else
    (if Satisfied(values[ws[0]], current) then [ws[0]] else []) + Over(ws[1..], values, current)
  }

  ghost function NotOver(ws: seq<Task>, values: Values, current: Bits): seq<Task>
    requires Known(ws, values)
  {
    if ws == [] then [] else
    (if Satisfied(values[ws[0]], current) then [] else [ws[0]]) + NotOver(ws[1..], values, current)
  }

  /** What one waiter asks to have cleared on its way out. */
  function Clears(value: Bits, current: Bits): Bits
  {
    if Satisfied(value, current) && ClearsOnExit(value) then WaitedBits(value) else 0
  }

  /** The union of the clear-on-exit masks of the waiters released. */
  ghost function ClearMask(ws: seq<Task>, values: Values, current: Bits): Bits
    requires Known(ws, values)
  {
    if ws == [] then 0 else Or(Clears(values[ws[0]], current), ClearMask(ws[1..], values, current))
  }

  /** Released tasks find the full bits, before any clearing, in their list item. */
  ghost function Delivered(ws: seq<Task>, values: Values, current: Bits): Values
  {
    map t | t in values :: if t in ws && Satisfied(values[t], current) then Handed(current) else values[t]
  }

  lemma {:induction false} OverAppend(a: seq<Task>, t: Task, values: Values, current: Bits)
    requires Known(a, values) && t in values
    ensures Known(a + [t], values)
    ensures Over(a + [t], values, current)
         == Over(a, values, current) + (if Satisfied(values[t], current) then [t] else [])
    ensures NotOver(a + [t], values, current)
         == NotOver(a, values, current) + (if Satisfied(values[t], current) then [] else [t])
  {
    hide Satisfied;
    if a == [] {
      assert a + [t] == [t];
      assert [t][1..] == [];
    } else {
      assert (a + [t])[1..] == a[1..] + [t];
      OverAppend(a[1..], t, values, current);
    }
  }

  lemma {:induction false} MaskAppend(a: seq<Task>, t: Task, values: Values, current: Bits)
    requires Known(a, values) && t in values
    ensures Known(a + [t], values)
    ensures ClearMask(a + [t], values, current) == Or(ClearMask(a, values, current), Clears(values[t], current))
  {
    hide Clears, Or;
    if a == [] {
      assert a + [t] == [t];
      OrLaws(Clears(values[t], current), 0, 0);
    } else {
      assert (a + [t])[1..] == a[1..] + [t];
      MaskAppend(a[1..], t, values, current);
      OrLaws(Clears(values[a[0]], current), ClearMask(a[1..], values, current), Clears(values[t], current));
    }
  }

  /** Setting bits splits the list exactly by whose wait is over; nobody is lost and nobody is woken twice. */
  lemma {:induction false} OverMembers(ws: seq<Task>, values: Values, current: Bits)
    requires Known(ws, values)
    ensures forall t :: t in Over(ws, values, current) <==> t in ws && Satisfied(values[t], current)
    ensures forall t :: t in NotOver(ws, values, current) <==> t in ws && !Satisfied(values[t], current)
    ensures multiset(ws) == multiset(Over(ws, values, current)) + multiset(NotOver(ws, values, current))
  {
    hide Satisfied;
    if ws != [] {
      OverMembers(ws[1..], values, current);
      assert ws == [ws[0]] + ws[1..];
    }
  }

  lemma NobodyYet(values: Values, current: Bits)
    ensures NotOver([], values, current) == [] && ClearMask([], values, current) == 0
    ensures Delivered([], values, current) == values
  {
  }

  lemma DeliveredStep(values: Values, ws: seq<Task>, t: Task, current: Bits)
    requires t in values && t !in ws
    ensures var middle := Delivered(ws, values, current);
            && t in middle && middle[t] == values[t]
            && Delivered(ws + [t], values, current)
            == if Satisfied(values[t], current) then middle[t := Handed(current)] else middle
  {
    hide Satisfied, Handed;
  }

  lemma Advance(ws: seq<Task>, i: nat)
    requires i < |ws|
    ensures ws[..i + 1] == ws[..i] + [ws[i]] && ws[i + 1..] == ws[i..][1..] && ws[i] == ws[i..][0]
    ensures Distinct(ws) ==> ws[i] !in ws[..i]
  {
  }

  lemma {:induction false} NotOverDistinct(ws: seq<Task>, values: Values, current: Bits)
    requires Known(ws, values) && Distinct(ws)
    ensures Distinct(NotOver(ws, values, current))
  {
    hide Satisfied;
    if ws != [] {
      OverMembers(ws[1..], values, current);
      NotOverDistinct(ws[1..], values, current);
    }
  }

  // ----- Runs -----

  /** What an event group is: its bits, the tasks waiting for it in list order, and every task's list item. */
  datatype Group = Group(bits: Bits, waiting: seq<Task>, values: Values)

  /** The list is well formed and no task on it has its wait satisfied by the bits as they are. */
  ghost predicate NobodyOverdue(g: Group)
  {
    && Distinct(g.waiting) && Known(g.waiting, g.values) && UserBits(g.bits)
    && forall i | 0 <= i < |g.waiting| ::
         !Satisfied(g.values[g.waiting[i]], g.bits) && !WasReleased(g.values[g.waiting[i]])
  }

  lemma WellKept(g: Group)
    requires NobodyOverdue(g)
    ensures Distinct(g.waiting) && Known(g.waiting, g.values) && UserBits(g.bits)
  {
  }

  ghost function AfterSet(g: Group, more: Bits): Group
    requires Known(g.waiting, g.values)
  {
    var full := Or(g.bits, more);
    Group(Without(full, ClearMask(g.waiting, g.values, full)),
          NotOver(g.waiting, g.values, full), Delivered(g.waiting, g.values, full))
  }

  ghost function AfterClear(g: Group, mask: Bits): Group
  {
    g.(bits := Without(g.bits, mask))
  }

  ghost function AfterBlock(g: Group, task: Task, waitFor: Bits, clear: bool, all: bool): Group
  {
    g.(waiting := g.waiting + [task], values := g.values[task := StoredWait(waitFor, clear, all)])
  }

  ghost function AfterLeaving(g: Group, k: nat): Group
    requires k < |g.waiting|
  {
    g.(waiting := g.waiting[..k] + g.waiting[k + 1..])
  }

  ghost function AfterReset(g: Group, task: Task): Group
  {
    g.(values := g.values - {task})
  }

  lemma OneLeft(g: Group, full: Bits, mask: Bits, t: Task)
    requires NobodyOverdue(g) && t in NotOver(g.waiting, g.values, full)
    ensures t in Delivered(g.waiting, g.values, full) && t in g.values
    ensures Delivered(g.waiting, g.values, full)[t] == g.values[t]
    ensures !Satisfied(g.values[t], Without(full, mask)) && !WasReleased(g.values[t])
  {
    OverMembers(g.waiting, g.values, full);
    var v := g.values[t];
    WithoutLess(full, mask, WaitedBits(v), WaitsForAll(v));
    assert t in g.waiting && !Satisfied(v, full);
    var i :| 0 <= i < |g.waiting| && g.waiting[i] == t;
    hide NotOver, Without, WasReleased, WaitOver, UserBits, WaitsForAll, WaitedBits, Handed;
  }

  lemma SetKeeps(g: Group, more: Bits)
    requires NobodyOverdue(g) && UserBits(more)
    ensures NobodyOverdue(AfterSet(g, more))
  {
    var full := Or(g.bits, more);
    var mask, left, after := ClearMask(g.waiting, g.values, full), NotOver(g.waiting, g.values, full),
                             Delivered(g.waiting, g.values, full);
    UserBitsKept(g.bits, more);
    UserBitsKept(full, mask);
    NotOverDistinct(g.waiting, g.values, full);
    hide NotOver, ClearMask, Or, Without, WasReleased, Satisfied, UserBits, Delivered, Distinct;
    forall i | 0 <= i < |left|
      ensures left[i] in after && !Satisfied(after[left[i]], Without(full, mask)) && !WasReleased(after[left[i]])
    {
      OneLeft(g, full, mask, left[i]);
    }
  }

  lemma ClearKeeps(g: Group, mask: Bits)
    requires NobodyOverdue(g)
    ensures NobodyOverdue(AfterClear(g, mask))
  {
    UserBitsKept(g.bits, mask);
    hide Without, WasReleased, WaitOver, UserBits;
    forall i | 0 <= i < |g.waiting| ensures !Satisfied(g.values[g.waiting[i]], Without(g.bits, mask)) {
      var v := g.values[g.waiting[i]];
      WithoutLess(g.bits, mask, WaitedBits(v), WaitsForAll(v));
    }
  }

  lemma BlockKeeps(g: Group, task: Task, waitFor: Bits, clear: bool, all: bool)
    requires NobodyOverdue(g) && task !in g.waiting && UserBits(waitFor) && !WaitOver(g.bits, waitFor, all)
    ensures NobodyOverdue(AfterBlock(g, task, waitFor, clear, all))
  {
    StoredWaitReads(waitFor, clear, all);
    hide StoredWait, WaitOver, WaitedBits, WaitsForAll, WasReleased, UserBits;
  }

  lemma LeavingKeeps(g: Group, k: nat)
    requires NobodyOverdue(g) && k < |g.waiting|
    ensures NobodyOverdue(AfterLeaving(g, k)) && !WasReleased(g.values[g.waiting[k]])
  {
    hide Satisfied, WasReleased, UserBits;
  }

  lemma ResetKeeps(g: Group, task: Task)
    requires NobodyOverdue(g) && task !in g.waiting
    ensures NobodyOverdue(AfterReset(g, task))
  {
    hide Satisfied, WasReleased, UserBits;
  }

  /** One call, or one task's block time running out or its resuming, with the rest of the system left alone. */
  datatype Act =
    | SetBits(more: Bits)
    | ClearBits(mask: Bits)
    | WaitBits(task: Task, waitFor: Bits, clear: bool, all: bool, mayBlock: bool)
    | Sync(task: Task, more: Bits, waitFor: Bits, mayBlock: bool)
    | TimeOut(index: nat)
    | Resume(task: Task, waitFor: Bits, clear: bool, all: bool)

  /** What the kernel's own assertions and the scheduler allow: only the running task calls, and it is on no list. */
  ghost predicate Allowed(g: Group, act: Act)
  {
    match act
    case SetBits(more) => UserBits(more)
    case ClearBits(mask) => UserBits(mask)
    case WaitBits(task, waitFor, _, _, _) => task !in g.waiting && UserBits(waitFor)
    case Sync(task, more, waitFor, _) => task !in g.waiting && UserBits(more) && UserBits(waitFor)
    case TimeOut(index) => index < |g.waiting|
    case Resume(task, waitFor, _, _) => task !in g.waiting && task in g.values && UserBits(waitFor)
  }

  ghost function AfterWait(g: Group, task: Task, waitFor: Bits, clear: bool, all: bool, mayBlock: bool): Group
  {
    if WaitOver(g.bits, waitFor, all) then (if clear then AfterClear(g, waitFor) else g)
    else if mayBlock then AfterBlock(g, task, waitFor, clear, all) else g
  }

  ghost function AfterSync(g: Group, task: Task, more: Bits, waitFor: Bits, mayBlock: bool): Group
    requires Known(g.waiting, g.values)
  {
    var s := AfterSet(g, more);
    if WaitOver(Or(g.bits, more), waitFor, true) then AfterClear(s, waitFor)
    else if mayBlock then AfterBlock(s, task, waitFor, true, true) else s
  }

  ghost function AfterResume(g: Group, task: Task, waitFor: Bits, clear: bool, all: bool): Group
    requires task in g.values
  {
    var r := AfterReset(g, task);
    if !WasReleased(g.values[task]) && WaitOver(g.bits, waitFor, all) && clear then AfterClear(r, waitFor) else r
  }

  ghost function After(g: Group, act: Act): Group
    requires Known(g.waiting, g.values) && Allowed(g, act)
  {
    match act
    case SetBits(more) => AfterSet(g, more)
    case ClearBits(mask) => AfterClear(g, mask)
    case WaitBits(task, waitFor, clear, all, mayBlock) => AfterWait(g, task, waitFor, clear, all, mayBlock)
    case Sync(task, more, waitFor, mayBlock) => AfterSync(g, task, more, waitFor, mayBlock)
    case TimeOut(index) => AfterLeaving(g, index)
    case Resume(task, waitFor, clear, all) => AfterResume(g, task, waitFor, clear, all)
  }

  lemma WaitKeeps(g: Group, task: Task, waitFor: Bits, clear: bool, all: bool, mayBlock: bool)
    requires NobodyOverdue(g) && task !in g.waiting && UserBits(waitFor)
    ensures NobodyOverdue(AfterWait(g, task, waitFor, clear, all, mayBlock))
  {
    hide NobodyOverdue, AfterClear, AfterBlock, UserBits, WaitOver;
    if WaitOver(g.bits, waitFor, all) {
      ClearKeeps(g, waitFor);
    } else {
      BlockKeeps(g, task, waitFor, clear, all);
    }
  }

  lemma SyncKeeps(g: Group, task: Task, more: Bits, waitFor: Bits, mayBlock: bool)
    requires NobodyOverdue(g) && task !in g.waiting && UserBits(more) && UserBits(waitFor)
    ensures NobodyOverdue(AfterSync(g, task, more, waitFor, mayBlock))
  {
    WellKept(g);
    hide NobodyOverdue, AfterClear, AfterBlock, UserBits, WaitOver, Satisfied, Or, NotOver, ClearMask, Delivered,
      Without;
    SetKeeps(g, more);
    var s, full := AfterSet(g, more), Or(g.bits, more);
    if WaitOver(full, waitFor, true) {
      ClearKeeps(s, waitFor);
    } else {
      WithoutLess(full, ClearMask(g.waiting, g.values, full), waitFor, true);
      OverMembers(g.waiting, g.values, full);
      BlockKeeps(s, task, waitFor, true, true);
    }
  }

  lemma ResumeKeeps(g: Group, task: Task, waitFor: Bits, clear: bool, all: bool)
    requires NobodyOverdue(g) && task !in g.waiting && task in g.values
    ensures NobodyOverdue(AfterResume(g, task, waitFor, clear, all))
  {
    hide NobodyOverdue, AfterClear, AfterReset, WaitOver, WasReleased;
    ResetKeeps(g, task);
    ClearKeeps(AfterReset(g, task), waitFor);
  }

  lemma ActKeeps(g: Group, act: Act)
    requires NobodyOverdue(g) && Allowed(g, act)
    ensures NobodyOverdue(After(g, act))
  {
    hide NobodyOverdue, AfterSet, AfterClear, AfterWait, AfterSync, AfterLeaving, AfterResume, UserBits;
    match act
    case SetBits(more) => SetKeeps(g, more);
    case ClearBits(mask) => ClearKeeps(g, mask);
    case WaitBits(task, waitFor, clear, all, mayBlock) => WaitKeeps(g, task, waitFor, clear, all, mayBlock);
    case Sync(task, more, waitFor, mayBlock) => SyncKeeps(g, task, more, waitFor, mayBlock);
    case TimeOut(index) => LeavingKeeps(g, index);
    case Resume(task, waitFor, clear, all) => ResumeKeeps(g, task, waitFor, clear, all);
  }

  /** A run of the event group from its creation. What a step does is defined as long as every task on the list has an
      item, which NobodyEverOverdue shows to be always. */
  ghost predicate Run(states: seq<Group>, acts: seq<Act>)
  {
    && |states| == |acts| + 1 && states[0] == Group(0, [], map[])
    && (forall i | 0 <= i < |acts| :: Allowed(states[i], acts[i]))
    && forall i | 0 <= i < |acts| ::
         Known(states[i].waiting, states[i].values) ==> states[i + 1] == After(states[i], acts[i])
  }

  /** In every reachable state, no task on the list has its any or all condition satisfied by the current bits. */
  lemma {:induction false} NobodyEverOverdue(states: seq<Group>, acts: seq<Act>, n: nat)
    requires Run(states, acts) && n < |states|
    ensures NobodyOverdue(states[n])
  {
    hide After, Allowed;
    if n == 0 {
    } else {
      NobodyEverOverdue(states, acts, n - 1);
      WellKept(states[n - 1]);
      hide NobodyOverdue;
      ActKeeps(states[n - 1], acts[n - 1]);
    }
  }

  // ----- What a waiter can rely on -----

  /** Whoever is released finds the bits as they were with the new ones in and before anything was cleared,
      and they satisfy its wait. */
  lemma ReleasedFindsFullBits(g: Group, more: Bits, task: Task)
    requires NobodyOverdue(g) && UserBits(more) && task in g.waiting
    ensures var full, after := Or(g.bits, more), AfterSet(g, more);
            && task in g.values && task in after.values
            && (task !in after.waiting <==> Satisfied(g.values[task], full))
            && (task !in after.waiting <==> WasReleased(after.values[task]))
            && (task !in after.waiting ==> WaitedBits(after.values[task]) == full)
  {
    var full := Or(g.bits, more);
    UserBitsKept(g.bits, more);
    HandedReads(full);
    OverMembers(g.waiting, g.values, full);
    hide Satisfied, Or, WasReleased, WaitedBits, Handed, NotOver, ClearMask, Without, UserBits;
  }

  lemma {:induction false} MaskTakeOut(ws: seq<Task>, k: nat, values: Values, current: Bits)
    requires Known(ws, values) && k < |ws|
    ensures Known(ws[..k] + ws[k + 1..], values)
    ensures ClearMask(ws, values, current)
         == Or(Clears(values[ws[k]], current), ClearMask(ws[..k] + ws[k + 1..], values, current))
  {
    hide Clears, Or;
    var rest := ws[..k] + ws[k + 1..];
    if k == 0 {
      assert rest == ws[1..];
    } else {
      MaskTakeOut(ws[1..], k - 1, values, current);
      assert rest[1..] == ws[1..][..k - 1] + ws[1..][k..];
      OrLaws(Clears(values[ws[0]], current), Clears(values[ws[k]], current), ClearMask(rest[1..], values, current));
      OrLaws(Clears(values[ws[k]], current), Clears(values[ws[0]], current), ClearMask(rest[1..], values, current));
    }
  }

  lemma SameMembers(a: seq<Task>, b: seq<Task>)
    requires multiset(a) == multiset(b)
    ensures |a| == |b| && forall t :: t in a <==> t in b
  {
    assert |multiset(a)| == |a| && |multiset(b)| == |b|;
    forall t ensures t in a <==> t in b {
      assert t in multiset(a) <==> t in a;
      assert t in multiset(b) <==> t in b;
    }
  }

  lemma SameRest(a: seq<Task>, b: seq<Task>, k: nat)
    requires a != [] && multiset(a) == multiset(b) && k < |b| && b[k] == a[0]
    ensures multiset(a[1..]) == multiset(b[..k] + b[k + 1..])
  {
    assert b == b[..k] + ([b[k]] + b[k + 1..]);
    assert multiset(b) == multiset(b[..k]) + (multiset{b[k]} + multiset(b[k + 1..]));
    assert a == [a[0]] + a[1..];
    assert multiset(a) == multiset{a[0]} + multiset(a[1..]);
    assert multiset(a[1..]) == multiset(a) - multiset{a[0]};
    assert multiset(b[..k] + b[k + 1..]) == multiset(b) - multiset{b[k]};
  }

  lemma {:induction false} MaskOfAnyOrder(a: seq<Task>, b: seq<Task>, values: Values, current: Bits)
    requires Known(a, values) && Known(b, values) && multiset(a) == multiset(b)
    ensures ClearMask(a, values, current) == ClearMask(b, values, current)
    decreases |a|
  {
    hide Clears, Or, Known;
    SameMembers(a, b);
    if a != [] {
      assert a[0] in b;
      var k :| 0 <= k < |b| && b[k] == a[0];
      SameRest(a, b, k);
      MaskTakeOut(b, k, values, current);
      KnownRest(a, values);
      MaskOfAnyOrder(a[1..], b[..k] + b[k + 1..], values, current);
    }
  }

  lemma KnownRest(ws: seq<Task>, values: Values)
    requires Known(ws, values) && ws != []
    ensures Known(ws[1..], values)
  {
  }

  lemma DeliveredToMembers(a: seq<Task>, b: seq<Task>, values: Values, current: Bits)
    requires forall t :: t in a <==> t in b
    ensures Delivered(a, values, current) == Delivered(b, values, current)
  {
    hide Satisfied, Handed;
  }

  lemma LeftOfMembers(a: seq<Task>, b: seq<Task>, values: Values, current: Bits)
    requires Known(a, values) && Known(b, values) && forall t :: t in a <==> t in b
    ensures forall t :: t in NotOver(a, values, current) <==> t in NotOver(b, values, current)
  {
    OverMembers(a, values, current);
    OverMembers(b, values, current);
    hide Satisfied, NotOver, Known;
  }

  /** The order of the list decides nothing but the order in which tasks are woken. */
  lemma OrderDoesNotMatter(g: Group, h: Group, more: Bits)
    requires NobodyOverdue(g) && NobodyOverdue(h)
    requires g.bits == h.bits && g.values == h.values && multiset(g.waiting) == multiset(h.waiting)
    ensures var a, b := AfterSet(g, more), AfterSet(h, more);
            a.bits == b.bits && a.values == b.values && (forall t :: t in a.waiting <==> t in b.waiting)
  {
    var full := Or(g.bits, more);
    WellKept(g);
    WellKept(h);
    MaskOfAnyOrder(g.waiting, h.waiting, g.values, full);
    SameMembers(g.waiting, h.waiting);
    DeliveredToMembers(g.waiting, h.waiting, g.values, full);
    LeftOfMembers(g.waiting, h.waiting, g.values, full);
    hide *;
    SetUnfolds(g, more);
    SetUnfolds(h, more);
  }

  lemma SetUnfolds(g: Group, more: Bits)
    requires Known(g.waiting, g.values)
    ensures var full, after := Or(g.bits, more), AfterSet(g, more);
            && after.bits == Without(full, ClearMask(g.waiting, g.values, full))
            && after.waiting == NotOver(g.waiting, g.values, full)
            && after.values == Delivered(g.waiting, g.values, full)
  {
  }

  // ----- Rendezvous -----

  lemma RendezvousReads(waitFor: Bits, full: Bits)
    requires UserBits(waitFor) && WaitOver(full, waitFor, true)
    ensures var v := StoredWait(waitFor, true, true); Satisfied(v, full) && Clears(v, full) == waitFor
  {
    StoredWaitReads(waitFor, true, true);
  }

  lemma {:induction false} AllMeet(ws: seq<Task>, values: Values, waitFor: Bits, full: Bits)
    requires Known(ws, values) && UserBits(waitFor) && WaitOver(full, waitFor, true)
    requires forall i | 0 <= i < |ws| :: values[ws[i]] == StoredWait(waitFor, true, true)
    ensures NotOver(ws, values, full) == []
    ensures ClearMask(ws, values, full) == if ws == [] then 0 else waitFor
  {
    hide StoredWait, Satisfied, Clears, Or, WaitOver, UserBits;
    if ws != [] {
      RendezvousReads(waitFor, full);
      AllMeet(ws[1..], values, waitFor, full);
      OrLaws(waitFor, 0, 0);
    }
  }

  lemma MetBitsAreGone(full: Bits, waitFor: Bits)
    ensures Without(Without(full, waitFor), waitFor) == Without(full, waitFor) == Without(Without(full, 0), waitFor)
    ensures Without(full, waitFor) & waitFor == 0
  {
  }

  /** A rendezvous: when the last of the tasks that meet on the same bits arrives, all the others leave together,
      every one of them sees all the bits, and the bits are clear again for the next round. */
  lemma Rendezvous(g: Group, task: Task, more: Bits, waitFor: Bits, mayBlock: bool)
    requires NobodyOverdue(g) && UserBits(more) && UserBits(waitFor)
    requires WaitOver(Or(g.bits, more), waitFor, true)
    requires forall i | 0 <= i < |g.waiting| :: g.values[g.waiting[i]] == StoredWait(waitFor, true, true)
    ensures var after := AfterSync(g, task, more, waitFor, mayBlock);
            && after.waiting == [] && after.bits == Without(Or(g.bits, more), waitFor) && after.bits & waitFor == 0
            && forall t | t in g.waiting ::
                 && t in after.values && WasReleased(after.values[t])
                 && WaitedBits(after.values[t]) == Or(g.bits, more)
  {
    WellKept(g);
    var full := Or(g.bits, more);
    AllMeet(g.waiting, g.values, waitFor, full);
    MetBitsAreGone(full, waitFor);
    hide Or, Without, StoredWait, WasReleased, WaitedBits, WaitOver, NobodyOverdue, NotOver, ClearMask, Delivered,
      Satisfied, UserBits;
    forall t | t in g.waiting
      ensures var after := AfterSet(g, more);
              t in after.values && WasReleased(after.values[t]) && WaitedBits(after.values[t]) == full
    {
      ReleasedFindsFullBits(g, more, t);
    }
  }

  // ----- Bit by bit -----

  predicate OneBit(b: Bits)
  {
    || b == 0x0001 || b == 0x0002 || b == 0x0004 || b == 0x0008
    || b == 0x0010 || b == 0x0020 || b == 0x0040 || b == 0x0080
    || b == 0x0100 || b == 0x0200 || b == 0x0400 || b == 0x0800
    || b == 0x1000 || b == 0x2000 || b == 0x4000 || b == 0x8000
  }

  predicate IsSet(bits: Bits, b: Bits)
  {
    bits & b != 0
  }

  lemma LowestBit(x: Bits)
    requires x != 0
    ensures var b := x & (0 - x); OneBit(b) && IsSet(x, b)
  {
  }

  lemma BitsOfBoth(x: Bits, y: Bits, b: Bits)
    requires OneBit(b)
    ensures IsSet(x & y, b) <==> IsSet(x, b) && IsSet(y, b)
  {
  }

  lemma BitsLeft(x: Bits, y: Bits, b: Bits)
    requires OneBit(b)
    ensures IsSet(Without(x, y), b) <==> IsSet(x, b) && !IsSet(y, b)
  {
    LeftPart(x, y, b);
    AllOrNone(x, b);
    AllOrNone(y, b);
    WithoutItself(b);
    hide Without, OneBit;
  }

  lemma LeftPart(x: Bits, y: Bits, b: Bits)
    ensures Without(x, y) & b == Without(x & b, y & b)
  {
  }

  lemma AllOrNone(x: Bits, b: Bits)
    requires OneBit(b)
    ensures (x & b == 0 || x & b == b) && b != 0
  {
  }

  lemma WithoutItself(b: Bits)
    ensures Without(b, b) == 0 && Without(b, 0) == b && Without(0, b) == 0 && Without(0, 0) == 0
  {
  }

  lemma BitsOfEither(x: Bits, y: Bits, b: Bits)
    ensures IsSet(Or(x, y), b) <==> IsSet(x, b) || IsSet(y, b)
  {
    EitherPart(x, y, b);
    OrIsZero(x & b, y & b);
    hide Or;
  }

  lemma EitherPart(x: Bits, y: Bits, b: Bits)
    ensures Or(x, y) & b == Or(x & b, y & b)
  {
  }

  lemma OrIsZero(x: Bits, y: Bits)
    ensures Or(x, y) == 0 <==> x == 0 && y == 0
  {
  }

  /** What ends a wait: for all, every bit waited for is set; for any, one of them is. */
  ghost predicate Ends(current: Bits, waitFor: Bits, all: bool)
  {
    if all then forall b | OneBit(b) && IsSet(waitFor, b) :: IsSet(current, b)
    else exists b :: OneBit(b) && IsSet(waitFor, b) && IsSet(current, b)
  }

  lemma WaitOverIsEnds(current: Bits, waitFor: Bits, all: bool)
    ensures WaitOver(current, waitFor, all) <==> Ends(current, waitFor, all)
  {
    if all {
      AllIsEvery(current, waitFor);
    } else {
      AnyIsOne(current, waitFor);
    }
    hide IsSet, OneBit;
  }

  lemma AllIsEvery(current: Bits, waitFor: Bits)
    ensures current & waitFor == waitFor <==> forall b | OneBit(b) && IsSet(waitFor, b) :: IsSet(current, b)
  {
    if current & waitFor == waitFor {
      forall b | OneBit(b) && IsSet(waitFor, b) ensures IsSet(current, b) {
        BitsOfBoth(current, waitFor, b);
      }
    } else {
      MissingBits(current, waitFor);
      var missing := Without(waitFor, current);
      LowestBit(missing);
      var b := missing & (0 - missing);
      BitsLeft(waitFor, current, b);
      hide *;
    }
  }

  lemma MissingBits(current: Bits, waitFor: Bits)
    ensures current & waitFor != waitFor ==> Without(waitFor, current) != 0
  {
  }

  lemma AnyIsOne(current: Bits, waitFor: Bits)
    ensures current & waitFor != 0 <==> exists b :: OneBit(b) && IsSet(waitFor, b) && IsSet(current, b)
  {
    var common := current & waitFor;
    if common != 0 {
      LowestBit(common);
      BitsOfBoth(current, waitFor, common & (0 - common));
      hide *;
    } else {
      forall b | OneBit(b) && IsSet(waitFor, b) ensures !IsSet(current, b) {
        BitsOfBoth(current, waitFor, b);
      }
    }
  }

  /** A waiter whose wait `current` ends and who asked for bit `b`, among others, to be cleared then. */
  ghost predicate TakesAway(value: Bits, current: Bits, b: Bits)
  {
    Ends(current, WaitedBits(value), WaitsForAll(value)) && ClearsOnExit(value) && IsSet(WaitedBits(value), b)
  }

  lemma {:induction false} MaskBitByBit(ws: seq<Task>, values: Values, current: Bits, b: Bits)
    requires Known(ws, values)
    ensures IsSet(ClearMask(ws, values, current), b) <==> exists t :: t in ws && TakesAway(values[t], current, b)
  {
    if ws == [] {
      assert ClearMask(ws, values, current) == 0;
    } else {
      var rest := ClearMask(ws[1..], values, current);
      MaskBitByBit(ws[1..], values, current, b);
      BitsOfEither(Clears(values[ws[0]], current), rest, b);
      ClearsBitByBit(values[ws[0]], current, b);
      assert ws == [ws[0]] + ws[1..];
      hide Or, IsSet, Clears, TakesAway;
    }
  }

  lemma ClearsBitByBit(value: Bits, current: Bits, b: Bits)
    ensures IsSet(Clears(value, current), b) <==> TakesAway(value, current, b)
  {
    WaitOverIsEnds(current, WaitedBits(value), WaitsForAll(value));
    NoBitOfNone(b);
    hide IsSet, WaitOver, Ends, WaitedBits, WaitsForAll, ClearsOnExit;
  }

  lemma NoBitOfNone(b: Bits)
    ensures !IsSet(0, b)
  {
  }

  /** Bit `b` was there or is new, and no waiter whose wait is over takes it away. */
  ghost predicate Remains(bits: Bits, ws: seq<Task>, values: Values, more: Bits, b: Bits)
    requires Known(ws, values)
  {
    (IsSet(bits, b) || IsSet(more, b)) && !exists t :: t in ws && TakesAway(values[t], Or(bits, more), b)
  }

  ghost predicate BitsAfterSet(bits: Bits, ws: seq<Task>, values: Values, more: Bits, bits': Bits)
    requires Known(ws, values)
  {
    forall b | OneBit(b) :: IsSet(bits', b) <==> Remains(bits, ws, values, more, b)
  }

  /** Of the waiters those stay whose wait `full` does not end. */
  ghost predicate WaitersAfterSet(ws: seq<Task>, values: Values, full: Bits, ws': seq<Task>)
    requires Known(ws, values)
  {
    forall t :: t in ws' <==> t in ws && !Ends(full, WaitedBits(values[t]), WaitsForAll(values[t]))
  }

  lemma WaitersBitByBit(ws: seq<Task>, values: Values, full: Bits)
    requires Known(ws, values)
    ensures WaitersAfterSet(ws, values, full, NotOver(ws, values, full))
  {
    OverMembers(ws, values, full);
    forall t | t in ws
      ensures Satisfied(values[t], full) <==> Ends(full, WaitedBits(values[t]), WaitsForAll(values[t]))
    {
      WaitOverIsEnds(full, WaitedBits(values[t]), WaitsForAll(values[t]));
    }
    hide Ends, WaitedBits, WaitsForAll, Satisfied, NotOver;
  }

  lemma SetBitByBit(g: Group, more: Bits)
    requires NobodyOverdue(g)
    ensures Known(g.waiting, g.values)
    ensures BitsAfterSet(g.bits, g.waiting, g.values, more, AfterSet(g, more).bits)
    ensures WaitersAfterSet(g.waiting, g.values, Or(g.bits, more), AfterSet(g, more).waiting)
  {
    WellKept(g);
    var full := Or(g.bits, more);
    WaitersBitByBit(g.waiting, g.values, full);
    hide Or, Without, IsSet, OneBit, ClearMask, NotOver, Remains, WaitersAfterSet, Delivered, NobodyOverdue;
    forall b | OneBit(b)
      ensures IsSet(Without(full, ClearMask(g.waiting, g.values, full)), b)
         <==> Remains(g.bits, g.waiting, g.values, more, b)
    {
      RemainsOrNot(g.bits, g.waiting, g.values, more, b);
    }
  }

  lemma RemainsOrNot(bits: Bits, ws: seq<Task>, values: Values, more: Bits, b: Bits)
    requires Known(ws, values) && OneBit(b)
    ensures var full := Or(bits, more);
            IsSet(Without(full, ClearMask(ws, values, full)), b) <==> Remains(bits, ws, values, more, b)
  {
    var full := Or(bits, more);
    BitsOfEither(bits, more, b);
    MaskBitByBit(ws, values, full, b);
    BitsLeft(full, ClearMask(ws, values, full), b);
    hide Or, Without, IsSet, OneBit, ClearMask, TakesAway;
  }

  /** After a rendezvous has set `more`: the same, and the bits waited for go if they are all there. */
  ghost predicate BitsAfterSync(bits: Bits, ws: seq<Task>, values: Values, more: Bits, waitFor: Bits, bits': Bits)
    requires Known(ws, values)
  {
    forall b | OneBit(b) ::
      IsSet(bits', b) <==>
        Remains(bits, ws, values, more, b) && !(Ends(Or(bits, more), waitFor, true) && IsSet(waitFor, b))
  }

  lemma SyncBitByBit(g: Group, task: Task, more: Bits, waitFor: Bits, mayBlock: bool)
    requires NobodyOverdue(g)
    ensures Known(g.waiting, g.values)
    ensures BitsAfterSync(g.bits, g.waiting, g.values, more, waitFor, AfterSync(g, task, more, waitFor, mayBlock).bits)
  {
    SetBitByBit(g, more);
    WaitOverIsEnds(Or(g.bits, more), waitFor, true);
    ClearBitByBit(AfterSet(g, more), waitFor);
    hide WaitOver, Or, IsSet, OneBit, Remains, Ends, AfterSet, StoredWait, NobodyOverdue, Without;
  }

  lemma ClearBitByBit(g: Group, mask: Bits)
    ensures forall b | OneBit(b) :: IsSet(AfterClear(g, mask).bits, b) <==> IsSet(g.bits, b) && !IsSet(mask, b)
  {
    hide IsSet, OneBit, Without;
    forall b | OneBit(b)
      ensures IsSet(Without(g.bits, mask), b) <==> IsSet(g.bits, b) && !IsSet(mask, b)
    {
      BitsLeft(g.bits, mask, b);
    }
  }

  // ----- The code -----

  class EventGroup {
    var uxEventBits: Bits
    var waiting: seq<Task>                       // xTasksWaitingForBits, head first
    var itemValue: Values                        // each task's event list item

    ghost function State(): Group
      reads this
    {
      Group(uxEventBits, waiting, itemValue)
    }

    ghost predicate Valid()
      reads this
    {
      NobodyOverdue(State())
    }

    constructor ()
      ensures Valid() && State() == Group(0, [], map[])
    {
      uxEventBits, waiting, itemValue := 0, [], map[];
    }

    /** listREMOVE_ITEM on the list of waiters. */
    method TakeOff(item: nat)
      requires item < |waiting|
      modifies this`waiting
      ensures item <= |waiting| == |old(waiting)| - 1
      ensures waiting == old(waiting)[..item] + old(waiting)[item + 1..]
      ensures waiting[..item] == old(waiting)[..item] && waiting[item..] == old(waiting)[item..][1..]
    {
      waiting := waiting[..item] + waiting[item + 1..];
    }

    /** The walk over the list: matched items are taken out, the rest stay in order. */
    method ReleaseMatching() returns (bitsToClear: Bits)
      requires Distinct(waiting) && Known(waiting, itemValue)
      modifies this`waiting, this`itemValue
      ensures waiting == NotOver(old(waiting), old(itemValue), uxEventBits)
      ensures itemValue == Delivered(old(waiting), old(itemValue), uxEventBits)
      ensures bitsToClear == ClearMask(old(waiting), old(itemValue), uxEventBits)
    {
      bitsToClear := 0;
      ghost var all, values := waiting, itemValue;
      ghost var done := 0;
      NobodyYet(values, uxEventBits);
      hide Satisfied, Or, WaitedBits, WaitsForAll, ClearsOnExit, Handed, NotOver, ClearMask, Delivered;
      var item := 0;
      assert all[..0] == [];
      while item < |waiting|
        invariant 0 <= item <= |waiting| && 0 <= done <= |all|
        invariant Known(all[..done], values)
        invariant waiting[..item] == NotOver(all[..done], values, uxEventBits)
        invariant waiting[item..] == all[done..]
        invariant bitsToClear == ClearMask(all[..done], values, uxEventBits)
        invariant itemValue == Delivered(all[..done], values, uxEventBits)
        decreases |all| - done
      {
        Advance(all, done);
        assert waiting[item..][0] == all[done..][0];
        var task := waiting[item];
        DeliveredStep(values, all[..done], task, uxEventBits);
        OverAppend(all[..done], task, values, uxEventBits);
        MaskAppend(all[..done], task, values, uxEventBits);
        OrLaws(bitsToClear, 0, 0);
        var value := itemValue[task];
        if Satisfied(value, uxEventBits) {
          if ClearsOnExit(value) {
            bitsToClear := Or(bitsToClear, WaitedBits(value));
          }
          itemValue := itemValue[task := Handed(uxEventBits)];
          TakeOff(item);
        } else {
          Advance(waiting, item);
          item := item + 1;
        }
        done := done + 1;
      }
      assert all[..done] == all;
    }

    /** xEventGroupSetBits. */
    method SetBits(bitsToSet: Bits) returns (result: Bits)
      requires Valid() && UserBits(bitsToSet)
      modifies this
      ensures Valid() && State() == AfterSet(old(State()), bitsToSet)
      ensures result == uxEventBits
      ensures Known(old(waiting), old(itemValue))
      ensures BitsAfterSet(old(uxEventBits), old(waiting), old(itemValue), bitsToSet, uxEventBits)
      ensures WaitersAfterSet(old(waiting), old(itemValue), Or(old(uxEventBits), bitsToSet), waiting)
    {
      WellKept(State());
      SetKeeps(State(), bitsToSet);
      SetBitByBit(State(), bitsToSet);
      hide BitsAfterSet, WaitersAfterSet, AfterSet;
      hide Satisfied, NotOver, ClearMask, Delivered, Or, Without, NobodyOverdue, UserBits;
      uxEventBits := Or(uxEventBits, bitsToSet);
      var bitsToClear := ReleaseMatching();
      uxEventBits := Without(uxEventBits, bitsToClear);
      result := uxEventBits;
    }

    /** uxEventBits &= ~mask. */
    method Erase(mask: Bits)
      requires Valid()
      modifies this`uxEventBits
      ensures Valid() && State() == AfterClear(old(State()), mask)
    {
      ClearKeeps(State(), mask);
      hide NobodyOverdue, Without;
      uxEventBits := Without(uxEventBits, mask);
    }

    /** xEventGroupClearBits. */
    method ClearBits(bitsToClear: Bits) returns (result: Bits)
      requires Valid() && UserBits(bitsToClear)
      modifies this`uxEventBits
      ensures Valid() && result == old(uxEventBits) && State() == AfterClear(old(State()), bitsToClear)
      ensures forall b | OneBit(b) :: IsSet(uxEventBits, b) <==> IsSet(old(uxEventBits), b) && !IsSet(bitsToClear, b)
      ensures waiting == old(waiting) && itemValue == old(itemValue)
    {
      ClearBitByBit(State(), bitsToClear);
      result := uxEventBits;
      Erase(bitsToClear);
    }

    /** vTaskPlaceOnUnorderedEventList: the task joins the end of the list with what it waits for. */
    method Block(task: Task, waitFor: Bits, clear: bool, all: bool)
      requires Valid() && task !in waiting && UserBits(waitFor) && !WaitOver(uxEventBits, waitFor, all)
      modifies this`waiting, this`itemValue
      ensures Valid() && State() == AfterBlock(old(State()), task, waitFor, clear, all)
    {
      BlockKeeps(State(), task, waitFor, clear, all);
      hide NobodyOverdue, StoredWait;
      itemValue := itemValue[task := StoredWait(waitFor, clear, all)];
      waiting := waiting + [task];
    }

    /** xEventGroupWaitBits up to the point where the caller blocks, or its answer. */
    method WaitBits(task: Task, waitFor: Bits, clear: bool, all: bool, mayBlock: bool)
      returns (blocked: bool, result: Bits)
      requires Valid() && task !in waiting && UserBits(waitFor)
      modifies this
      ensures Valid() && State() == AfterWait(old(State()), task, waitFor, clear, all, mayBlock)
      ensures blocked <==> mayBlock && !Ends(old(uxEventBits), waitFor, all)
      ensures !blocked ==> result == old(uxEventBits) && waiting == old(waiting) && itemValue == old(itemValue)
      ensures forall b | OneBit(b) ::
                IsSet(uxEventBits, b) <==>
                  IsSet(old(uxEventBits), b) && !(clear && Ends(old(uxEventBits), waitFor, all) && IsSet(waitFor, b))
      ensures blocked ==> waiting == old(waiting) + [task] && itemValue.Keys == old(itemValue).Keys + {task}
      ensures blocked ==> WaitedBits(itemValue[task]) == waitFor && WaitsForAll(itemValue[task]) == all
                          && ClearsOnExit(itemValue[task]) == clear && !WasReleased(itemValue[task])
    {
      WaitOverIsEnds(uxEventBits, waitFor, all);
      ClearBitByBit(State(), waitFor);
      StoredWaitReads(waitFor, clear, all);
      hide IsSet, OneBit, Ends, StoredWait, WaitedBits, WaitsForAll, ClearsOnExit, WasReleased, UserBits;
      hide WaitOver, NobodyOverdue, AfterClear, AfterBlock;
      blocked, result := false, uxEventBits;
      if WaitOver(uxEventBits, waitFor, all) {
        if clear {
          Erase(waitFor);
        }
      } else if mayBlock {
        blocked := true;
        Block(task, waitFor, clear, all);
      }
    }

    /** uxTaskResetEventItemValue. */
    method ResetItemValue(task: Task) returns (value: Bits)
      requires Valid() && task !in waiting && task in itemValue
      modifies this`itemValue
      ensures Valid() && value == old(itemValue)[task] && State() == AfterReset(old(State()), task)
    {
      ResetKeeps(State(), task);
      hide NobodyOverdue;
      value := itemValue[task];
      itemValue := itemValue - {task};
    }

    /** The second half of xEventGroupWaitBits and, with `clear` and `all`, of xEventGroupSync: the caller runs
        again, released or timed out. */
    method Resume(task: Task, waitFor: Bits, clear: bool, all: bool) returns (result: Bits)
      requires Valid() && task !in waiting && task in itemValue && UserBits(waitFor)
      modifies this
      ensures Valid() && State() == AfterResume(old(State()), task, waitFor, clear, all)
      ensures result == if WasReleased(old(itemValue)[task]) then WaitedBits(old(itemValue)[task]) else old(uxEventBits)
      ensures forall b | OneBit(b) ::
                IsSet(uxEventBits, b) <==>
                  && IsSet(old(uxEventBits), b)
                  && !(!WasReleased(old(itemValue)[task]) && clear && Ends(old(uxEventBits), waitFor, all)
                       && IsSet(waitFor, b))
      ensures waiting == old(waiting) && itemValue == old(itemValue) - {task}
    {
      WaitOverIsEnds(uxEventBits, waitFor, all);
      ClearBitByBit(State(), waitFor);
      hide IsSet, OneBit, Ends;
      WellKept(State());
      UserBitsKept(uxEventBits, 0);
      hide WaitOver, NobodyOverdue, WasReleased, WaitedBits, UserBits, Without;
      result := ResetItemValue(task);
      if !WasReleased(result) {
        result := uxEventBits;
        if WaitOver(result, waitFor, all) && clear {
          Erase(waitFor);
        }
      }
      result := WaitedBits(result);
    }

    /** A waiter whose block time expires leaves the list; its list item keeps what it waited for. */
    method TimeOut(task: Task, ghost k: nat)
      requires Valid() && k < |waiting| && waiting[k] == task
      modifies this`waiting
      ensures Valid() && State() == AfterLeaving(old(State()), k)
      ensures waiting == old(waiting)[..k] + old(waiting)[k + 1..] && task !in waiting
    {
      WellKept(State());
      LeavingKeeps(State(), k);
      hide NobodyOverdue;
      var i := 0;
      while waiting[i] != task
        invariant 0 <= i <= k
        decreases k - i
      {
        i := i + 1;
      }
      TakeOff(i);
    }

    /** xEventGroupSync up to the point where the caller blocks, or its answer. */
    method Sync(task: Task, bitsToSet: Bits, waitFor: Bits, mayBlock: bool) returns (blocked: bool, result: Bits)
      requires Valid() && task !in waiting && UserBits(bitsToSet) && UserBits(waitFor)
      modifies this
      ensures Valid() && State() == AfterSync(old(State()), task, bitsToSet, waitFor, mayBlock)
      ensures Known(old(waiting), old(itemValue))
      ensures var full := Or(old(uxEventBits), bitsToSet);
              && (blocked <==> mayBlock && !Ends(full, waitFor, true))
              && (!blocked ==> result == if Ends(full, waitFor, true) then full else uxEventBits)
              && WaitersAfterSet(old(waiting), old(itemValue), full,
                                 if blocked && waiting != [] then waiting[..|waiting| - 1] else waiting)
              && (blocked ==> waiting != [] && waiting[|waiting| - 1] == task)
      ensures blocked ==> task in itemValue && WaitedBits(itemValue[task]) == waitFor && WaitsForAll(itemValue[task])
                          && ClearsOnExit(itemValue[task]) && !WasReleased(itemValue[task])
      ensures BitsAfterSync(old(uxEventBits), old(waiting), old(itemValue), bitsToSet, waitFor, uxEventBits)
    {
      var original := uxEventBits;
      SyncReady(State(), task, bitsToSet, waitFor);
      SetBitByBit(State(), bitsToSet);
      SyncBitByBit(State(), task, bitsToSet, waitFor, mayBlock);
      WaitOverIsEnds(Or(uxEventBits, bitsToSet), waitFor, true);
      StoredWaitReads(waitFor, true, true);
      hide WaitedBits, WaitsForAll, ClearsOnExit, WasReleased;
      hide WaitOver, AfterClear, AfterSet, Or, NobodyOverdue, UserBits, Ends, StoredWait, BitsAfterSet, BitsAfterSync,
        WaitersAfterSet;
      var left := SetBits(bitsToSet);
      blocked, result := false, Or(original, bitsToSet);
      if WaitOver(Or(original, bitsToSet), waitFor, true) {
        Erase(waitFor);
      } else if mayBlock {
        blocked := true;
        Block(task, waitFor, true, true);
      } else {
        result := uxEventBits;
      }
    }
  }

  lemma SyncReady(g: Group, task: Task, more: Bits, waitFor: Bits)
    requires NobodyOverdue(g) && task !in g.waiting
    ensures Known(g.waiting, g.values) && task !in AfterSet(g, more).waiting
    ensures !WaitOver(Or(g.bits, more), waitFor, true) ==> !WaitOver(AfterSet(g, more).bits, waitFor, true)
  {
    WellKept(g);
    hide WaitOver, Or, NobodyOverdue, NotOver, ClearMask, Delivered, Satisfied, Without;
    var full := Or(g.bits, more);
    OverMembers(g.waiting, g.values, full);
    WithoutLess(full, ClearMask(g.waiting, g.values, full), waitFor, true);
  }
}
