/** The firmware's work queue: any number of threads initialising, filling, running and ending it,
    interleaved at every access to its flag and locks. */
module SysQueue {

  const DEFAULT_SYS_QUEUE_SIZE := 4
  const ENTRY_BYTES := 12                                // sizeof(SYS_QUEUE_VEC): three pointers

  type CInt = n: int | -0x8000_0000 <= n < 0x8000_0000

  datatype Option<T> = None | Some(value: T)

  datatype Flag = Off | Running | SendDeinitSignal | ReadyDeinit

  /** An entry: the context it is for, and which of its two callbacks are not NULL. */
  datatype Item = Item(ctx: nat, hasFunction: bool, hasDestroyer: bool)

  datatype Event = Called(ctx: nat) | Destroyed(ctx: nat)

  /** Who is between filling the queue in and announcing it, or between withdrawing it and freeing it. */
  datatype Stage = Dead | Publishing(thread: nat) | Alive | Freeing(thread: nat)

  datatype Shared = Shared(
    flag: Flag,
    lock: Option<nat>, globalLock: Option<nat>,          // the thread that set it; None is `false`
    size: nat, head: nat, tail: nat, count: nat,
    vector: Option<seq<Item>>,
    panicked: bool,
    fault: bool,                                         // `vector` was used while NULL or out of bounds
    // history
    stage: Stage,
    accepted: seq<Item>, finished: seq<bool>,            // finished[i]: whether item i was run (or only destroyed)
    log: seq<Event>, partial: seq<Event>)                // what has been called; the part due to an unfinished item

  datatype Call = Init(size: CInt) | Deinit | Enqueue(item: Item) | Run

  datatype InitPC =
    | InitGlobal(size: CInt) | InitLock(size: CInt) | InitTakeGlobal(size: CInt) | InitCheck(size: CInt)
    | InitFill(size: CInt) | InitUnlock | InitUnlockGlobal | InitRunning

  datatype DeinitPC =
    | DeinitTakeGlobal | DeinitLock | DeinitCheck | DeinitNothing | DeinitNothingGlobal
    | DeinitUnlock | DeinitWait | DeinitRelock | DeinitOff | DeinitFree | DeinitFinalUnlock | DeinitFinalGlobal

  datatype AddPC =
    | AddFlag(item: Item) | AddGlobal(item: Item) | AddLock(item: Item) | AddCheck(item: Item) | AddFull(item: Item)
    | AddWrite(item: Item) | AddAdvance(item: Item) | AddUnlock

  datatype RunPC =
    | RunFlag | RunLock | RunCheck | RunFunction | RunDestroyer | RunAdvance
    | DrainCheck | DrainDestroyer | DrainAdvance | DrainReady | RunUnlock

  /** Where a thread is: outside, or inside one of the four calls. */
  datatype PC = Idle | InInit(i: InitPC) | InDeinit(d: DeinitPC) | InAdd(a: AddPC) | InRun(r: RunPC)

  /** What the environment decides at a step: which call to start, whether a wait gives up, whether malloc fails. */
  datatype Choice = Choice(call: Call, giveUp: bool, outOfMemory: bool)

  function Panic(sh: Shared): (Shared, PC)
  {
    (sh.(panicked := true), Idle)
  }

  /** A step leaves each lock as it was, frees it, or takes it for the thread stepping. */
  predicate LocksMoved(sh: Shared, sh': Shared, t: nat)
  {
    && (sh'.lock == sh.lock || sh'.lock == None || sh'.lock == Some(t))
    && (sh'.globalLock == sh.globalLock || sh'.globalLock == None || sh'.globalLock == Some(t))
    && (sh'.stage == sh.stage || sh'.stage == Dead || sh'.stage == Alive || sh'.stage.thread == t)
  }

  /** The queue size an init settles on. */
  function ChosenSize(n: CInt): (size: nat)
    ensures 0 < size < 0x8000_0000
  {
    if n > 0 then n else DEFAULT_SYS_QUEUE_SIZE
  }

  /** How many whole entries malloc gives: the byte count is a product of 32-bit sizes, and wraps. */
  function Entries(size: nat): nat
  {
    ENTRY_BYTES * size % 0x1_0000_0000 / ENTRY_BYTES
  }

  function FreshVector(size: nat): (vector: seq<Item>)
    ensures |vector| == Entries(size)
  {
    seq(Entries(size), _ => Item(0, false, false))
  }

  /** The byte count does not wrap. */
  predicate Fits(size: nat)
  {
    ENTRY_BYTES * size <= 0xFFFF_FFFF
  }

  function InitStep(sh: Shared, at: InitPC, t: nat, c: Choice): (r: (Shared, PC))
    ensures LocksMoved(sh, r.0, t)
  {
    match at
    case InitGlobal(n) => if sh.globalLock.Some? then Panic(sh) else (sh, InInit(InitLock(n)))
    case InitLock(n) =>
      if sh.lock.None? then (sh.(lock := Some(t)), InInit(InitTakeGlobal(n)))
      else if c.giveUp then Panic(sh) else (sh, InInit(InitGlobal(n)))
    case InitTakeGlobal(n) =>
      if sh.globalLock.None? then (sh.(globalLock := Some(t)), InInit(InitCheck(n)))
      else if c.giveUp then Panic(sh) else (sh, InInit(at))
    case InitCheck(n) => if sh.vector.Some? || sh.flag != Off then Panic(sh) else (sh, InInit(InitFill(n)))
    case InitFill(n) =>
      if c.outOfMemory then Panic(sh)
      else
        var made := sh.(size := ChosenSize(n), head := 0, tail := 0, count := 0,
                        vector := Some(FreshVector(ChosenSize(n))), stage := Publishing(t));
        (made, InInit(InitUnlock))
    case InitUnlock => (sh.(lock := None), InInit(InitUnlockGlobal))
    case InitUnlockGlobal => (sh.(globalLock := None), InInit(InitRunning))
    case InitRunning => (sh.(flag := Running, stage := Alive), Idle)
  }

  function DeinitStep(sh: Shared, at: DeinitPC, t: nat, c: Choice): (r: (Shared, PC))
    ensures LocksMoved(sh, r.0, t)
  {
    match at
    case DeinitTakeGlobal =>
      if sh.globalLock.None? then (sh.(globalLock := Some(t)), InDeinit(DeinitLock))
      else if c.giveUp then Panic(sh) else (sh, InDeinit(at))
    case DeinitLock =>
      if sh.lock.None? then (sh.(lock := Some(t)), InDeinit(DeinitCheck))
      else if c.giveUp then Panic(sh) else (sh, InDeinit(at))
    case DeinitCheck =>
      if sh.flag == Running then (sh.(flag := SendDeinitSignal), InDeinit(DeinitUnlock))
      else if sh.flag == Off && sh.vector.None? then (sh, InDeinit(DeinitNothing))
      else Panic(sh)
    case DeinitNothing => (sh.(lock := None), InDeinit(DeinitNothingGlobal))
    case DeinitNothingGlobal => (sh.(globalLock := None), Idle)
    case DeinitUnlock => (sh.(lock := None), InDeinit(DeinitWait))
    case DeinitWait =>
      if sh.flag == ReadyDeinit then (sh, InDeinit(DeinitRelock))
      else if c.giveUp then Panic(sh) else (sh, InDeinit(at))
    case DeinitRelock =>
      if sh.lock.None? then (sh.(lock := Some(t)), InDeinit(DeinitOff))
      else if c.giveUp then Panic(sh) else (sh, InDeinit(at))
    case DeinitOff => (sh.(flag := Off, stage := Freeing(t)), InDeinit(DeinitFree))
    case DeinitFree => (sh.(vector := None, stage := Dead), InDeinit(DeinitFinalUnlock))
    case DeinitFinalUnlock => (sh.(lock := None), InDeinit(DeinitFinalGlobal))
    case DeinitFinalGlobal => (sh.(globalLock := None), Idle)
  }

  /** Whether slot `i` of the vector can be used. */
  predicate Usable(sh: Shared, i: nat)
  {
    sh.vector.Some? && i < |sh.vector.value|
  }

  function AddStep(sh: Shared, at: AddPC, t: nat, c: Choice): (r: (Shared, PC))
    ensures LocksMoved(sh, r.0, t)
    requires sh.size > 0 || !at.AddAdvance?
  {
    match at
    case AddFlag(item) => if sh.flag == Off then (sh, Idle) else (sh, InAdd(AddGlobal(item)))
    case AddGlobal(item) => if sh.globalLock.Some? then (sh, Idle) else (sh, InAdd(AddLock(item)))
    case AddLock(item) =>
      if sh.lock.None? then (sh.(lock := Some(t)), InAdd(AddCheck(item)))
      else if c.giveUp then (sh, Idle) else (sh, InAdd(AddGlobal(item)))
    case AddCheck(item) => if sh.flag != Running then (sh, InAdd(AddUnlock)) else (sh, InAdd(AddFull(item)))
    case AddFull(item) => if sh.count >= sh.size then (sh, InAdd(AddUnlock)) else (sh, InAdd(AddWrite(item)))
    case AddWrite(item) =>
      if Usable(sh, sh.head) then (sh.(vector := Some(sh.vector.value[sh.head := item])), InAdd(AddAdvance(item)))
      else (sh.(fault := true), InAdd(AddAdvance(item)))
    case AddAdvance(item) =>
      (sh.(head := (sh.head + 1) % sh.size, count := sh.count + 1, accepted := sh.accepted + [item]), InAdd(AddUnlock))
    case AddUnlock => (sh.(lock := None), Idle)
  }

  predicate SameLocks(sh: Shared, after: Shared)
  {
    && after.lock == sh.lock && after.globalLock == sh.globalLock
    && after.stage == sh.stage && after.flag == sh.flag && after.panicked == sh.panicked
  }

  /** Runs the destroyer of the item at the tail, when it has one, and clears it. */
  function CallDestroyer(sh: Shared): (after: Shared)
    ensures SameLocks(sh, after)
  {
    if !Usable(sh, sh.tail) then sh.(fault := true)
    else
      var item := sh.vector.value[sh.tail];
      if item.hasDestroyer then
        sh.(log := sh.log + [Destroyed(item.ctx)], partial := sh.partial + [Destroyed(item.ctx)],
            vector := Some(sh.vector.value[sh.tail := item.(hasDestroyer := false)]))
      else sh
  }

  /** Drops the item at the tail, whose callbacks are done. */
  function Advance(sh: Shared, run: bool): (after: Shared)
    requires sh.size > 0
    ensures SameLocks(sh, after)
  {
    sh.(tail := (sh.tail + 1) % sh.size, count := if sh.count > 0 then sh.count - 1 else 0,
        finished := sh.finished + [run], partial := [])
  }

  /** The steps of running or draining that call back, and those that drop the item. */
  predicate CallsBack(at: RunPC)
  {
    at.RunFunction? || at.RunDestroyer? || at.DrainDestroyer?
  }

  predicate Advances(at: RunPC)
  {
    at.RunAdvance? || at.DrainAdvance?
  }

  function RunStep(sh: Shared, at: RunPC, t: nat, c: Choice): (r: (Shared, PC))
    ensures LocksMoved(sh, r.0, t)
    requires sh.size > 0 || !Advances(at)
  {
    match at
    case RunFlag => if sh.flag == Off || sh.flag == ReadyDeinit then (sh, Idle) else (sh, InRun(RunLock))
    case RunLock =>
      if sh.lock.None? then (sh.(lock := Some(t)), InRun(RunCheck))
      else if c.giveUp then (sh, Idle) else (sh, InRun(at))
    case RunCheck =>
      if sh.flag == Running then (sh, if sh.count < 1 then InRun(RunUnlock) else InRun(RunFunction))
      else if sh.flag == SendDeinitSignal then (sh, InRun(DrainCheck))
      else (sh, InRun(RunUnlock))
    case RunFunction =>
      if !Usable(sh, sh.tail) then (sh.(fault := true), InRun(RunDestroyer))
      else
        var item := sh.vector.value[sh.tail];
        if item.hasFunction then
          (sh.(log := sh.log + [Called(item.ctx)], partial := sh.partial + [Called(item.ctx)],
               vector := Some(sh.vector.value[sh.tail := item.(hasFunction := false)])), InRun(RunDestroyer))
        else Panic(sh)
    case RunDestroyer => (CallDestroyer(sh), InRun(RunAdvance))
    case RunAdvance => (Advance(sh, true), InRun(RunUnlock))
    case DrainCheck =>
      if sh.count == 0 then (sh, InRun(DrainReady))
      else if c.giveUp then Panic(sh) else (sh, InRun(DrainDestroyer))
    case DrainDestroyer => (CallDestroyer(sh), InRun(DrainAdvance))
    case DrainAdvance => (Advance(sh, false), InRun(DrainCheck))
    case DrainReady => (sh.(flag := ReadyDeinit), InRun(RunUnlock))
    case RunUnlock => (sh.(lock := None), Idle)
  }

  function StartCall(c: Choice): PC
  {
    match c.call
    case Init(n) => InInit(InitGlobal(n))
    case Deinit => InDeinit(DeinitTakeGlobal)
    case Enqueue(item) => InAdd(AddFlag(item))
    case Run => InRun(RunFlag)
  }

  /** One step of thread `t`. */
  function ThreadStep(sh: Shared, pc: PC, t: nat, c: Choice): (r: (Shared, PC))
    requires Defined(sh, pc)
    ensures LocksMoved(sh, r.0, t)
  {
    match pc
    case Idle => (sh, StartCall(c))
    case InInit(i) => InitStep(sh, i, t, c)
    case InDeinit(d) => DeinitStep(sh, d, t, c)
    case InAdd(a) => AddStep(sh, a, t, c)
    case InRun(r) => RunStep(sh, r, t, c)
  }

  /** The side condition of a step: dividing by the queue size is defined. */
  predicate Defined(sh: Shared, pc: PC)
  {
    sh.size > 0 || !((pc.InAdd? && pc.a.AddAdvance?) || (pc.InRun? && Advances(pc.r)))
  }

  // ----- What holds of the shared state and of each thread -----

  predicate HoldsLock(pc: PC)
  {
    match pc
    case Idle => false
    case InInit(i) => i.InitTakeGlobal? || i.InitCheck? || i.InitFill? || i.InitUnlock?
    case InDeinit(d) =>
      d.DeinitCheck? || d.DeinitNothing? || d.DeinitUnlock? || d.DeinitOff? || d.DeinitFree? || d.DeinitFinalUnlock?
    case InAdd(a) => !a.AddFlag? && !a.AddGlobal? && !a.AddLock?
    case InRun(r) => !r.RunFlag? && !r.RunLock?
  }

  predicate HoldsGlobal(pc: PC)
  {
    (pc.InInit? && !pc.i.InitGlobal? && !pc.i.InitLock? && !pc.i.InitTakeGlobal? && !pc.i.InitRunning?)
    || (pc.InDeinit? && !pc.d.DeinitTakeGlobal?)
  }

  predicate Publishes(pc: PC)
  {
    pc.InInit? && (pc.i.InitUnlock? || pc.i.InitUnlockGlobal? || pc.i.InitRunning?)
  }

  /** The callbacks an item is due: both when it is run, the destroyer alone when it is only discarded. */
  function Due(item: Item, run: bool): seq<Event>
  {
    (if run then [Called(item.ctx)] else []) + (if item.hasDestroyer then [Destroyed(item.ctx)] else [])
  }

  function DueAll(items: seq<Item>, modes: seq<bool>): seq<Event>
    requires |items| == |modes|
  {
    if items == [] then []
    else DueAll(items[..|items| - 1], modes[..|modes| - 1]) + Due(items[|items| - 1], modes[|modes| - 1])
  }

  /** The slot `i` places after the tail. */
  function At(tail: nat, i: nat, size: nat): nat
  {
    if tail + i >= size then tail + i - size else tail + i
  }

  ghost predicate FrontIntact(sh: Shared)
  {
    sh.count > 0 && sh.vector.Some? && sh.tail < |sh.vector.value| && |sh.finished| < |sh.accepted| ==>
      sh.vector.value[sh.tail] == sh.accepted[|sh.finished|]
  }

  /** The ring holds the accepted items not yet finished, in order; only the front one may be half done. */
  ghost predicate RingOk(sh: Shared)
  {
    && |sh.accepted| == |sh.finished| + sh.count
    && (sh.vector.Some? ==>
          && 0 < sh.size == |sh.vector.value| && sh.tail < sh.size && sh.count <= sh.size
          && sh.head == At(sh.tail, sh.count, sh.size)
          && forall i | 0 < i < sh.count :: sh.vector.value[At(sh.tail, i, sh.size)] == sh.accepted[|sh.finished| + i])
  }

  ghost predicate StageOk(sh: Shared)
  {
    && (match sh.stage
        case Dead => sh.flag == Off && sh.vector.None? && sh.count == 0
        case Alive => sh.flag != Off && sh.vector.Some?
        case _ => sh.flag == Off && sh.vector.Some? && sh.count == 0)
    && (sh.flag == ReadyDeinit ==> sh.count == 0)
  }

  /** Every callback due so far has been called, in order and once; nothing else has. */
  ghost predicate LogOk(sh: Shared)
  {
    && !sh.fault && |sh.finished| <= |sh.accepted|
    && sh.log == DueAll(sh.accepted[..|sh.finished|], sh.finished) + sh.partial
    && (sh.lock.None? ==> FrontIntact(sh) && sh.partial == [])
  }

  ghost predicate SharedOk(sh: Shared)
  {
    StageOk(sh) && RingOk(sh) && LogOk(sh)
  }

  /** The locks and the stage say which thread is where. */
  ghost predicate HoldsOk(sh: Shared, pc: PC, t: nat)
  {
    && (HoldsLock(pc) <==> sh.lock == Some(t))
    && (HoldsGlobal(pc) <==> sh.globalLock == Some(t))
    && (Publishes(pc) <==> sh.stage == Publishing(t))
    && (pc == InDeinit(DeinitFree) <==> sh.stage == Freeing(t))
  }

  predicate AsksFor(i: InitPC)
  {
    i.InitGlobal? || i.InitLock? || i.InitTakeGlobal? || i.InitCheck? || i.InitFill?
  }

  /** What a thread, being where it is, can rely on, when no queue is asked for that is too big to allocate. */
  ghost predicate FactsOk(sh: Shared, pc: PC)
  {
    match pc
    case Idle => true
    case InInit(i) =>
      && (i.InitFill? ==> sh.stage == Dead)
      && (AsksFor(i) ==> Fits(ChosenSize(i.size)))
    case InDeinit(d) =>
      && (d.DeinitNothing? ==> sh.stage == Dead)
      && (d.DeinitUnlock? || d.DeinitWait? ==> sh.flag == SendDeinitSignal || sh.flag == ReadyDeinit)
      && (d.DeinitRelock? || d.DeinitOff? ==> sh.flag == ReadyDeinit)
    case InAdd(a) =>
      && (a.AddFull? || a.AddWrite? || a.AddAdvance? ==> sh.flag == Running)
      && (a.AddWrite? || a.AddAdvance? ==> sh.count < sh.size)
      && (a.AddAdvance? ==> Usable(sh, sh.head) && sh.vector.value[sh.head] == a.item)
    case InRun(r) =>
      && (r.RunFunction? || r.RunDestroyer? || r.RunAdvance? ==> sh.flag == Running && sh.count > 0)
      && (r.DrainCheck? || r.DrainDestroyer? || r.DrainAdvance? || r.DrainReady? ==> sh.flag == SendDeinitSignal)
      && (r.DrainDestroyer? || r.DrainAdvance? ==> sh.count > 0)
      && (r.DrainReady? ==> sh.count == 0)
  }

  /** How far the item at the front has been dealt with by whoever holds the lock. */
  ghost predicate MiddleOk(sh: Shared, pc: PC)
  {
    if pc == InRun(RunDestroyer) then
      && Usable(sh, sh.tail) && |sh.finished| < |sh.accepted|
      && sh.vector.value[sh.tail] == sh.accepted[|sh.finished|].(hasFunction := false)
      && sh.partial == [Called(sh.accepted[|sh.finished|].ctx)]
    else if pc == InRun(RunAdvance) || pc == InRun(DrainAdvance) then
      && |sh.finished| < |sh.accepted|
      && sh.partial == Due(sh.accepted[|sh.finished|], pc.r.RunAdvance?)
    else
      FrontIntact(sh) && sh.partial == []
  }

  ghost predicate ThreadOk(sh: Shared, pc: PC, t: nat)
  {
    HoldsOk(sh, pc, t) && FactsOk(sh, pc) && (HoldsLock(pc) ==> MiddleOk(sh, pc))
  }

  lemma StepDefined(sh: Shared, pc: PC, t: nat)
    requires SharedOk(sh) && ThreadOk(sh, pc, t)
    ensures Defined(sh, pc)
  {
    hide DueAll, LogOk, MiddleOk, HoldsOk;
  }

  lemma WrapIsMod(x: nat, n: nat)
    requires x < n
    ensures (x + 1) % n == if x + 1 == n then 0 else x + 1
  {
  }

  // ----- Each call keeps what holds of the shared state, and of its own thread -----

  lemma InitKeepsShared(sh: Shared, at: InitPC, t: nat, c: Choice)
    requires SharedOk(sh) && ThreadOk(sh, InInit(at), t)
    ensures var (sh', pc') := InitStep(sh, at, t, c); sh'.panicked || SharedOk(sh')
  {
    hide DueAll, Entries, FreshVector, Fits;
    if at.InitFill? {
      SlotsIfFits(ChosenSize(at.size));
    }
  }

  lemma SlotsIfFits(size: nat)
    requires size < 0x8000_0000
    ensures Entries(size) == size <==> Fits(size)
    ensures Entries(size) <= size
  {
    if !Fits(size) {
      assert ENTRY_BYTES * size % 0x1_0000_0000 <= ENTRY_BYTES * size - 0x1_0000_0000;
    }
  }

  lemma InitKeepsThread(sh: Shared, at: InitPC, t: nat, c: Choice)
    requires SharedOk(sh) && ThreadOk(sh, InInit(at), t)
    ensures var (sh', pc') := InitStep(sh, at, t, c); sh'.panicked || ThreadOk(sh', pc', t)
  {
    hide DueAll, Entries, FreshVector, Fits, ChosenSize;
  }

  lemma DeinitKeepsShared(sh: Shared, at: DeinitPC, t: nat, c: Choice)
    requires SharedOk(sh) && ThreadOk(sh, InDeinit(at), t)
    ensures var (sh', pc') := DeinitStep(sh, at, t, c); sh'.panicked || SharedOk(sh')
  {
    hide DueAll;
  }

  lemma DeinitKeepsHolds(sh: Shared, at: DeinitPC, t: nat, c: Choice)
    requires SharedOk(sh) && ThreadOk(sh, InDeinit(at), t)
    ensures var (sh', pc') := DeinitStep(sh, at, t, c); sh'.panicked || HoldsOk(sh', pc', t)
  {
    hide DueAll, RingOk, LogOk, MiddleOk;
  }

  lemma DeinitKeepsFacts(sh: Shared, at: DeinitPC, t: nat, c: Choice)
    requires SharedOk(sh) && ThreadOk(sh, InDeinit(at), t)
    ensures var (sh', pc') := DeinitStep(sh, at, t, c); sh'.panicked || FactsOk(sh', pc')
  {
    hide DueAll, RingOk, LogOk, MiddleOk;
  }

  lemma DeinitKeepsMiddle(sh: Shared, at: DeinitPC, t: nat, c: Choice)
    requires SharedOk(sh) && ThreadOk(sh, InDeinit(at), t)
    ensures var (sh', pc') := DeinitStep(sh, at, t, c); sh'.panicked || (HoldsLock(pc') ==> MiddleOk(sh', pc'))
  {
    hide DueAll, FactsOk;
  }

  lemma DeinitKeepsThread(sh: Shared, at: DeinitPC, t: nat, c: Choice)
    requires SharedOk(sh) && ThreadOk(sh, InDeinit(at), t)
    ensures var (sh', pc') := DeinitStep(sh, at, t, c); sh'.panicked || ThreadOk(sh', pc', t)
  {
    DeinitKeepsHolds(sh, at, t, c);
    DeinitKeepsFacts(sh, at, t, c);
    DeinitKeepsMiddle(sh, at, t, c);
    hide SharedOk, HoldsOk, FactsOk, MiddleOk, DeinitStep;
  }

  lemma AddKeepsShared(sh: Shared, at: AddPC, t: nat, c: Choice)
    requires SharedOk(sh) && ThreadOk(sh, InAdd(at), t) && (sh.size > 0 || !at.AddAdvance?)
    ensures var (sh', pc') := AddStep(sh, at, t, c); sh'.panicked || SharedOk(sh')
  {
    hide DueAll;
    if at.AddAdvance? {
      AcceptKeepsShared(sh, at, t, c);
    } else if at.AddWrite? {
      WriteKeepsShared(sh, at, t, c);
    }
  }

  lemma AcceptKeepsShared(sh: Shared, at: AddPC, t: nat, c: Choice)
    requires SharedOk(sh) && ThreadOk(sh, InAdd(at), t) && sh.size > 0 && at.AddAdvance?
    ensures var (sh', pc') := AddStep(sh, at, t, c); sh'.panicked || SharedOk(sh')
  {
    hide DueAll;
    WrapIsMod(sh.head, sh.size);
    assert (sh.accepted + [at.item])[..|sh.finished|] == sh.accepted[..|sh.finished|];
  }

  lemma WriteKeepsShared(sh: Shared, at: AddPC, t: nat, c: Choice)
    requires SharedOk(sh) && ThreadOk(sh, InAdd(at), t) && at.AddWrite?
    ensures var (sh', pc') := AddStep(sh, at, t, c); sh'.panicked || SharedOk(sh')
  {
    hide DueAll;
  }

  lemma AddKeepsThread(sh: Shared, at: AddPC, t: nat, c: Choice)
    requires SharedOk(sh) && ThreadOk(sh, InAdd(at), t) && (sh.size > 0 || !at.AddAdvance?)
    ensures var (sh', pc') := AddStep(sh, at, t, c); sh'.panicked || ThreadOk(sh', pc', t)
  {
    hide DueAll;
  }

  lemma RunKeepsShared(sh: Shared, at: RunPC, t: nat, c: Choice)
    requires SharedOk(sh) && ThreadOk(sh, InRun(at), t) && (sh.size > 0 || !Advances(at))
    ensures var (sh', pc') := RunStep(sh, at, t, c); sh'.panicked || SharedOk(sh')
  {
    if Advances(at) {
      AdvanceKeeps(sh, at.RunAdvance?);
      hide DueAll, RingOk, LogOk, FrontIntact, Advance, Due;
    } else if CallsBack(at) {
      CallKeepsShared(sh, at, t, c);
    } else {
      PlainKeepsShared(sh, at, t, c);
    }
  }

  lemma CallKeepsShared(sh: Shared, at: RunPC, t: nat, c: Choice)
    requires SharedOk(sh) && ThreadOk(sh, InRun(at), t) && CallsBack(at)
    ensures var (sh', pc') := RunStep(sh, at, t, c); sh'.panicked || SharedOk(sh')
  {
    hide DueAll, Due, Advance;
  }

  lemma PlainKeepsShared(sh: Shared, at: RunPC, t: nat, c: Choice)
    requires SharedOk(sh) && ThreadOk(sh, InRun(at), t) && !CallsBack(at) && !Advances(at)
    ensures var (sh', pc') := RunStep(sh, at, t, c); sh'.panicked || SharedOk(sh')
  {
    hide DueAll, Due, CallDestroyer, Advance;
  }

  lemma RunKeepsHolds(sh: Shared, at: RunPC, t: nat, c: Choice)
    requires SharedOk(sh) && ThreadOk(sh, InRun(at), t) && (sh.size > 0 || !Advances(at))
    ensures var (sh', pc') := RunStep(sh, at, t, c); sh'.panicked || HoldsOk(sh', pc', t)
  {
    hide SharedOk, MiddleOk, FactsOk, CallDestroyer, Advance;
  }

  lemma RunKeepsPlace(sh: Shared, at: RunPC, t: nat, c: Choice)
    requires SharedOk(sh) && ThreadOk(sh, InRun(at), t) && (sh.size > 0 || !Advances(at))
    ensures var (sh', pc') := RunStep(sh, at, t, c);
            sh'.panicked || (FactsOk(sh', pc') && (HoldsLock(pc') ==> MiddleOk(sh', pc')))
  {
    if Advances(at) {
      AdvanceKeeps(sh, at.RunAdvance?);
      hide DueAll, RingOk, LogOk, FrontIntact, Due, StageOk;
    } else if CallsBack(at) {
      CallKeepsPlace(sh, at, t, c);
    } else {
      PlainKeepsPlace(sh, at, t, c);
    }
  }

  lemma CallKeepsPlace(sh: Shared, at: RunPC, t: nat, c: Choice)
    requires SharedOk(sh) && ThreadOk(sh, InRun(at), t) && CallsBack(at)
    ensures var (sh', pc') := RunStep(sh, at, t, c); sh'.panicked || (FactsOk(sh', pc') && MiddleOk(sh', pc'))
  {
    hide DueAll, Advance;
  }

  lemma PlainKeepsPlace(sh: Shared, at: RunPC, t: nat, c: Choice)
    requires SharedOk(sh) && ThreadOk(sh, InRun(at), t) && !CallsBack(at) && !Advances(at)
    ensures var (sh', pc') := RunStep(sh, at, t, c);
            sh'.panicked || (FactsOk(sh', pc') && (HoldsLock(pc') ==> MiddleOk(sh', pc')))
  {
    hide DueAll, Due, CallDestroyer, Advance;
  }

  lemma AdvanceKeeps(sh: Shared, run: bool)
    requires SharedOk(sh) && sh.count > 0 && sh.size > 0 && sh.vector.Some?
    requires sh.lock.Some?
    requires |sh.finished| < |sh.accepted| && sh.partial == Due(sh.accepted[|sh.finished|], run)
    ensures var sh' := Advance(sh, run); RingOk(sh') && FrontIntact(sh') && LogOk(sh')
  {
    hide StageOk, Usable;
    var n := |sh.finished|;
    WrapIsMod(sh.tail, sh.size);
    var sh' := Advance(sh, run);
    forall i | 0 <= i < sh'.count
      ensures sh.vector.value[At(sh'.tail, i, sh.size)] == sh.accepted[n + 1 + i]
    {
      assert At(sh'.tail, i, sh.size) == At(sh.tail, i + 1, sh.size);
    }
    assert At(sh'.tail, 0, sh.size) == sh'.tail;
    assert sh.accepted[..n + 1][..n] == sh.accepted[..n];
    assert (sh.finished + [run])[..n] == sh.finished;
  }

  // ----- No step disturbs what another thread relies on -----

  lemma InitSparesOthers(sh: Shared, at: InitPC, t: nat, c: Choice, other: PC, u: nat)
    requires SharedOk(sh) && ThreadOk(sh, InInit(at), t)
    requires u != t && ThreadOk(sh, other, u)
    ensures var sh' := InitStep(sh, at, t, c).0; sh'.panicked || ThreadOk(sh', other, u)
  {
    hide DueAll, Entries, FreshVector, Fits, ChosenSize;
  }

  lemma DeinitSparesOthers(sh: Shared, at: DeinitPC, t: nat, c: Choice, other: PC, u: nat)
    requires SharedOk(sh) && ThreadOk(sh, InDeinit(at), t)
    requires u != t && ThreadOk(sh, other, u)
    ensures var sh' := DeinitStep(sh, at, t, c).0; sh'.panicked || ThreadOk(sh', other, u)
  {
    hide DueAll;
  }

  lemma AddSparesOthers(sh: Shared, at: AddPC, t: nat, c: Choice, other: PC, u: nat)
    requires SharedOk(sh) && ThreadOk(sh, InAdd(at), t) && (sh.size > 0 || !at.AddAdvance?)
    requires u != t && ThreadOk(sh, other, u)
    ensures var sh' := AddStep(sh, at, t, c).0; sh'.panicked || ThreadOk(sh', other, u)
  {
    hide DueAll;
  }

  lemma RunSparesOthers(sh: Shared, at: RunPC, t: nat, c: Choice, other: PC, u: nat)
    requires SharedOk(sh) && ThreadOk(sh, InRun(at), t) && (sh.size > 0 || !Advances(at))
    requires u != t && ThreadOk(sh, other, u)
    ensures var sh' := RunStep(sh, at, t, c).0; sh'.panicked || ThreadOk(sh', other, u)
  {
    hide DueAll;
  }

  // ----- Whole runs, for any number of threads -----

  /** The call this choice may start asks for no more than can be counted in bytes. */
  predicate Allocatable(c: Choice)
  {
    c.call.Init? ==> Fits(ChosenSize(c.call.size))
  }

  datatype State = State(shared: Shared, threads: seq<PC>)

  ghost predicate Inv(s: State)
  {
    !s.shared.panicked ==>
      && SharedOk(s.shared)
      && (forall t | 0 <= t < |s.threads| :: ThreadOk(s.shared, s.threads[t], t))
      && (s.shared.lock.Some? ==> s.shared.lock.value < |s.threads|)
      && (s.shared.globalLock.Some? ==> s.shared.globalLock.value < |s.threads|)
      && (s.shared.stage.Publishing? || s.shared.stage.Freeing? ==> s.shared.stage.thread < |s.threads|)
  }

  /** A panic stops everything; otherwise any thread may take the next step. */
  ghost predicate Next(s: State, t: nat, c: Choice, s': State)
  {
    && !s.shared.panicked && t < |s.threads| && Defined(s.shared, s.threads[t])
    && var (sh', pc') := ThreadStep(s.shared, s.threads[t], t, c);
       s' == State(sh', s.threads[t := pc'])
  }

  ghost predicate Initial(s: State)
  {
    && s.shared == Shared(Off, None, None, 0, 0, 0, 0, None, false, false, Dead, [], [], [], [])
    && forall t | 0 <= t < |s.threads| :: s.threads[t] == Idle
  }

  lemma InitialInv(s: State)
    requires Initial(s)
    ensures Inv(s)
  {
  }

  lemma OwnStep(sh: Shared, pc: PC, t: nat, c: Choice)
    requires SharedOk(sh) && ThreadOk(sh, pc, t) && Defined(sh, pc) && Allocatable(c)
    ensures var (sh', pc') := ThreadStep(sh, pc, t, c);
            sh'.panicked || (SharedOk(sh') && ThreadOk(sh', pc', t))
  {
    hide InitStep, DeinitStep, AddStep, RunStep, SharedOk, FactsOk, MiddleOk;
    match pc {
      case Idle => StartOk(sh, t, c);
      case InInit(i) => InitKeepsShared(sh, i, t, c); InitKeepsThread(sh, i, t, c);
      case InDeinit(d) => DeinitKeepsShared(sh, d, t, c); DeinitKeepsThread(sh, d, t, c);
      case InAdd(a) => AddKeepsShared(sh, a, t, c); AddKeepsThread(sh, a, t, c);
      case InRun(r) => RunKeepsShared(sh, r, t, c); RunKeepsHolds(sh, r, t, c); RunKeepsPlace(sh, r, t, c);
    }
  }

  lemma StartOk(sh: Shared, t: nat, c: Choice)
    requires SharedOk(sh) && ThreadOk(sh, Idle, t) && Allocatable(c)
    ensures ThreadOk(sh, StartCall(c), t)
  {
    hide DueAll, Fits, ChosenSize;
  }

  lemma OthersSpared(sh: Shared, pc: PC, t: nat, c: Choice, other: PC, u: nat)
    requires SharedOk(sh) && ThreadOk(sh, pc, t) && Defined(sh, pc)
    requires u != t && ThreadOk(sh, other, u)
    ensures var sh' := ThreadStep(sh, pc, t, c).0;
            sh'.panicked || ThreadOk(sh', other, u)
  {
    hide InitStep, DeinitStep, AddStep, RunStep, HoldsOk, FactsOk, MiddleOk, LogOk, StageOk;
    match pc {
      case Idle =>
      case InInit(i) => InitSparesOthers(sh, i, t, c, other, u);
      case InDeinit(d) => DeinitSparesOthers(sh, d, t, c, other, u);
      case InAdd(a) => AddSparesOthers(sh, a, t, c, other, u);
      case InRun(r) => RunSparesOthers(sh, r, t, c, other, u);
    }
  }

  lemma StepKeepsInv(s: State, t: nat, c: Choice, s': State)
    requires Inv(s) && Next(s, t, c, s') && Allocatable(c)
    ensures Inv(s')
  {
    hide ThreadStep, SharedOk, HoldsOk, FactsOk, MiddleOk, RingOk;
    var sh, pc := s.shared, s.threads[t];
    OwnStep(sh, pc, t, c);
    if !s'.shared.panicked {
      forall u | 0 <= u < |s'.threads| ensures ThreadOk(s'.shared, s'.threads[u], u) {
        if u != t {
          OthersSpared(sh, pc, t, c, s.threads[u], u);
        }
      }
    }
  }

  /** A run of any number of threads, from before the queue is made. */
  ghost predicate Run(run: seq<State>, who: seq<nat>, choices: seq<Choice>)
  {
    && |run| == |who| + 1 == |choices| + 1 && Initial(run[0])
    && forall i | 0 <= i < |who| :: Next(run[i], who[i], choices[i], run[i + 1])
  }

  /** In every run in which no queue is asked for that is too big to allocate. */
  lemma {:induction false} RunKeepsInv(run: seq<State>, who: seq<nat>, choices: seq<Choice>)
    requires Run(run, who, choices) && forall i | 0 <= i < |choices| :: Allocatable(choices[i])
    ensures Inv(run[|who|])
  {
    hide Inv, Next, Initial, Allocatable;
    if |who| == 0 {
      InitialInv(run[0]);
    } else {
      var k := |who| - 1;
      RunKeepsInv(run[..|who|], who[..k], choices[..k]);
      assert Next(run[k], who[k], choices[k], run[k + 1]);
      StepKeepsInv(run[k], who[k], choices[k], run[k + 1]);
    }
  }

  // ----- What that means -----

  /** What the ring holds, from the tail on. */
  ghost function Pending(sh: Shared): seq<Item>
  {
    seq(sh.count, i requires 0 <= i =>
      if Usable(sh, At(sh.tail, i, sh.size)) then sh.vector.value[At(sh.tail, i, sh.size)] else Item(0, false, false))
  }

  /** Outside a panic: callbacks were called exactly as due, item by item in the order accepted; what is not
      finished is still in the ring, in order; once the queue is ready to end, everything is finished. */
  lemma EveryItemOnceInOrder(s: State)
    requires Inv(s) && !s.shared.panicked
    ensures var sh := s.shared;
            && |sh.accepted| == |sh.finished| + sh.count
            && sh.log == DueAll(sh.accepted[..|sh.finished|], sh.finished) + sh.partial
            && (sh.lock == None && sh.vector.Some? ==>
                  sh.partial == [] && Pending(sh) == sh.accepted[|sh.finished|..])
            && (sh.vector.Some? ==> sh.head == (sh.tail + sh.count) % sh.size)
            && (sh.flag == Off || sh.flag == ReadyDeinit ==> |sh.finished| == |sh.accepted|)
  {
    hide DueAll;
    var sh := s.shared;
    if sh.vector.Some? {
      AtIsMod(sh.tail, sh.count, sh.size);
    }
  }

  lemma AtIsMod(tail: nat, i: nat, size: nat)
    requires tail < size && i <= size
    ensures (tail + i) % size == At(tail, i, size)
  {
    if tail + i >= size {
      assert tail + i == size + (tail + i - size);
    }
  }

  predicate GoesRound(was: Flag, now: Flag)
  {
    match was
    case Off => now == Running
    case Running => now == SendDeinitSignal
    case SendDeinitSignal => now == ReadyDeinit
    case ReadyDeinit => now == Off
  }

  /** The flag only ever goes round: off, running, asked to end, ready to end, off. */
  lemma FlagGoesRound(s: State, t: nat, c: Choice, s': State)
    requires Inv(s) && Next(s, t, c, s') && s'.shared.flag != s.shared.flag
    ensures GoesRound(s.shared.flag, s'.shared.flag)
  {
    hide RingOk, LogOk, MiddleOk, InitStep, DeinitStep, AddStep, RunStep, GoesRound, StageOk, HoldsOk, FactsOk;
    var sh, pc := s.shared, s.threads[t];
    assert ThreadOk(sh, pc, t);
    match pc {
      case Idle =>
      case InInit(i) => InitMovesFlag(sh, i, t, c);
      case InDeinit(d) => DeinitMovesFlag(sh, d, t, c);
      case InAdd(a) => AddLeavesFlag(sh, a, t, c);
      case InRun(r) => RunMovesFlag(sh, r, t, c);
    }
  }

  lemma InitMovesFlag(sh: Shared, at: InitPC, t: nat, c: Choice)
    requires StageOk(sh) && ThreadOk(sh, InInit(at), t)
    ensures var sh' := InitStep(sh, at, t, c).0; sh'.flag == sh.flag || GoesRound(sh.flag, sh'.flag)
  {
    hide MiddleOk, Fits, ChosenSize, FreshVector;
  }

  lemma DeinitMovesFlag(sh: Shared, at: DeinitPC, t: nat, c: Choice)
    requires ThreadOk(sh, InDeinit(at), t)
    ensures var sh' := DeinitStep(sh, at, t, c).0; sh'.flag == sh.flag || GoesRound(sh.flag, sh'.flag)
  {
    hide MiddleOk, HoldsOk;
  }

  lemma AddLeavesFlag(sh: Shared, at: AddPC, t: nat, c: Choice)
    requires sh.size > 0 || !at.AddAdvance?
    ensures AddStep(sh, at, t, c).0.flag == sh.flag
  {
  }

  lemma RunMovesFlag(sh: Shared, at: RunPC, t: nat, c: Choice)
    requires ThreadOk(sh, InRun(at), t) && (sh.size > 0 || !Advances(at))
    ensures var sh' := RunStep(sh, at, t, c).0; sh'.flag == sh.flag || GoesRound(sh.flag, sh'.flag)
  {
    hide MiddleOk, HoldsOk, CallDestroyer, Advance;
  }

  predicate UsesVector(pc: PC)
  {
    (pc.InAdd? && pc.a.AddWrite?) || (pc.InRun? && (pc.r.RunFunction? || pc.r.RunDestroyer? || pc.r.DrainDestroyer?))
  }

  /** The vector is only used by the thread holding the lock, while it is there, and within its bounds. */
  lemma VectorOnlyUnderLock(s: State, t: nat)
    requires Inv(s) && !s.shared.panicked && t < |s.threads| && UsesVector(s.threads[t])
    ensures s.shared.lock == Some(t)
    ensures Usable(s.shared, if s.threads[t].InAdd? then s.shared.head else s.shared.tail)
    ensures forall u | 0 <= u < |s.threads| && u != t :: !HoldsLock(s.threads[u])
  {
    hide DueAll;
    assert ThreadOk(s.shared, s.threads[t], t);
    forall u | 0 <= u < |s.threads| && u != t ensures !HoldsLock(s.threads[u]) {
      assert ThreadOk(s.shared, s.threads[u], u);
    }
  }

  /** An item's function is only called while the queue runs; it is only discarded after the request to end. */
  lemma DiscardedOnlyAfterSignal(s: State, t: nat, c: Choice, s': State)
    requires Inv(s) && Next(s, t, c, s') && s'.shared.finished != s.shared.finished
    ensures s'.shared.finished == s.shared.finished + [s.shared.flag == Running]
    ensures s.shared.flag == Running || s.shared.flag == SendDeinitSignal
  {
    hide DueAll, RingOk;
    assert ThreadOk(s.shared, s.threads[t], t);
  }

  lemma HolderIsBusy(s: State, t: nat)
    requires Inv(s) && !s.shared.panicked
    requires s.shared.lock == Some(t) || s.shared.globalLock == Some(t)
             || s.shared.stage == Publishing(t) || s.shared.stage == Freeing(t)
    ensures t < |s.threads| && s.threads[t] != Idle
  {
    hide SharedOk, FactsOk, MiddleOk;
    assert ThreadOk(s.shared, s.threads[t], t);
  }

  /** No call leaves a lock behind, nor a queue half made. */
  lemma LocksGivenBack(s: State)
    requires Inv(s) && !s.shared.panicked
    requires forall t | 0 <= t < |s.threads| :: s.threads[t] == Idle
    ensures s.shared.lock == None && s.shared.globalLock == None
    ensures s.shared.vector.Some? <==> s.shared.flag != Off
  {
    hide DueAll;
    if s.shared.lock.Some? {
      HolderIsBusy(s, s.shared.lock.value);
    } else if s.shared.globalLock.Some? {
      HolderIsBusy(s, s.shared.globalLock.value);
    } else if s.shared.stage.Publishing? || s.shared.stage.Freeing? {
      HolderIsBusy(s, s.shared.stage.thread);
    }
  }

  // ----- Queues too big to allocate -----

  /** Init has settled on `size`: every slot below it can be used if and only if the byte count does not wrap. */
  lemma EverySlotUsableIff(sh: Shared, n: CInt, t: nat, c: Choice)
    requires !c.outOfMemory
    ensures var (sh', pc') := InitStep(sh, InitFill(n), t, c);
            sh'.size == ChosenSize(n)
            && ((forall i | 0 <= i < sh'.size :: Usable(sh', i)) <==> Fits(ChosenSize(n)))
  {
    var sh' := InitStep(sh, InitFill(n), t, c).0;
    SlotsIfFits(ChosenSize(n));
    hide Entries, Fits, ChosenSize;
    if Entries(ChosenSize(n)) < ChosenSize(n) {
      assert !Usable(sh', Entries(ChosenSize(n)));
    }
  }

  /** A size for which malloc is asked for 8 bytes: not even the first slot can be used. */
  lemma WrappedAllocation(sh: Shared, t: nat, c: Choice)
    requires !c.outOfMemory
    ensures var sh' := InitStep(sh, InitFill(357913942), t, c).0;
            ENTRY_BYTES * 357913942 % 0x1_0000_0000 == 8 && sh'.size == 357913942 && !Usable(sh', 0)
  {
  }

  /** A run of a single thread from some state, and where it ends. */
  ghost predicate Alone(run: seq<State>, choices: seq<Choice>)
  {
    && |run| == |choices| + 1 && (forall i | 0 <= i < |run| :: |run[i].threads| == 1)
    && forall i | 0 <= i < |choices| :: Next(run[i], 0, choices[i], run[i + 1])
  }

  ghost predicate AlwaysCalls(choices: seq<Choice>, size: nat)
  {
    forall i | 0 <= i < |choices| :: choices[i].call.Init? ==> ChosenSize(choices[i].call.size) == size
  }

  function Last(run: seq<State>): State
    requires run != []
  {
    run[|run| - 1]
  }

  lemma OneStepMore(run: seq<State>, choices: seq<Choice>, c: Choice, size: nat)
    returns (run': seq<State>, choices': seq<Choice>)
    requires Alone(run, choices) && AlwaysCalls(choices, size)
    requires !Last(run).shared.panicked && Defined(Last(run).shared, Last(run).threads[0])
    requires c.call.Init? ==> ChosenSize(c.call.size) == size
    ensures Alone(run', choices') && AlwaysCalls(choices', size) && run'[0] == run[0]
    ensures var (sh', pc') := ThreadStep(Last(run).shared, Last(run).threads[0], 0, c); Last(run') == State(sh', [pc'])
  {
    var (sh', pc') := ThreadStep(Last(run).shared, Last(run).threads[0], 0, c);
    run', choices' := run + [State(sh', [pc'])], choices + [c];
    hide ThreadStep;
    assert Last(run).threads[0 := pc'] == [pc'];
    assert Next(Last(run), 0, c, State(sh', [pc']));
  }

  /** A running queue that has accepted `k` items and whose vector is what malloc gave for `size`. */
  ghost predicate Filling(s: State, size: nat, k: nat)
  {
    && |s.threads| == 1 && s.threads[0] == Idle && !s.shared.panicked
    && s.shared.flag == Running && s.shared.lock == None && s.shared.globalLock == None
    && s.shared.size == size && s.shared.head == k == s.shared.count
    && s.shared.vector.Some? && |s.shared.vector.value| == Entries(size)
  }

  ghost predicate Before(s: State)
  {
    |s.threads| == 1 && Initial(s)
  }

  lemma MakeQueue(n: CInt) returns (run: seq<State>, choices: seq<Choice>)
    ensures Alone(run, choices) && AlwaysCalls(choices, ChosenSize(n))
    ensures Before(run[0]) && Filling(Last(run), ChosenSize(n), 0)
  {
    hide Entries, ChosenSize, Fits, Alone, AlwaysCalls;
    var c, size := Choice(Init(n), false, false), ChosenSize(n);
    run, choices := StartAlone(size);
    run, choices := OneStepMore(run, choices, c, size);
    run, choices := OneStepMore(run, choices, c, size);
    run, choices := OneStepMore(run, choices, c, size);
    run, choices := OneStepMore(run, choices, c, size);
    run, choices := OneStepMore(run, choices, c, size);
    run, choices := OneStepMore(run, choices, c, size);
    run, choices := OneStepMore(run, choices, c, size);
    run, choices := OneStepMore(run, choices, c, size);
    run, choices := OneStepMore(run, choices, c, size);
  }

  lemma StartAlone(size: nat) returns (run: seq<State>, choices: seq<Choice>)
    ensures Alone(run, choices) && AlwaysCalls(choices, size) && Before(run[0])
    ensures Last(run) == State(Shared(Off, None, None, 0, 0, 0, 0, None, false, false, Dead, [], [], [], []), [Idle])
  {
    run := [State(Shared(Off, None, None, 0, 0, 0, 0, None, false, false, Dead, [], [], [], []), [Idle])];
    choices := [];
  }

  /** Enqueueing up to where the slot is written: five tests that succeed. */
  lemma ComeToWrite(run: seq<State>, choices: seq<Choice>, item: Item, size: nat, k: nat)
    returns (run': seq<State>, choices': seq<Choice>)
    requires Alone(run, choices) && AlwaysCalls(choices, size) && Filling(Last(run), size, k) && k < size
    ensures Alone(run', choices') && AlwaysCalls(choices', size) && run'[0] == run[0]
    ensures Last(run') == State(Last(run).shared.(lock := Some(0)), [InAdd(AddWrite(item))])
  {
    assert Last(run).threads == [Idle];
    hide Entries, ChosenSize, Fits, Alone, AlwaysCalls;
    var c := Choice(Enqueue(item), false, false);
    run', choices' := OneStepMore(run, choices, c, size);
    run', choices' := OneStepMore(run', choices', c, size);
    run', choices' := OneStepMore(run', choices', c, size);
    run', choices' := OneStepMore(run', choices', c, size);
    run', choices' := OneStepMore(run', choices', c, size);
    run', choices' := OneStepMore(run', choices', c, size);
  }

  lemma EnqueueOne(run: seq<State>, choices: seq<Choice>, item: Item, size: nat, k: nat)
    returns (run': seq<State>, choices': seq<Choice>)
    requires Alone(run, choices) && AlwaysCalls(choices, size) && Filling(Last(run), size, k)
    requires k < Entries(size) < size
    ensures Alone(run', choices') && AlwaysCalls(choices', size) && run'[0] == run[0]
    ensures Filling(Last(run'), size, k + 1)
  {
    hide Entries, ChosenSize, Fits, Alone, AlwaysCalls;
    var c := Choice(Enqueue(item), false, false);
    WrapIsMod(k, size);
    run', choices' := ComeToWrite(run, choices, item, size, k);
    run', choices' := OneStepMore(run', choices', c, size);
    run', choices' := OneStepMore(run', choices', c, size);
    run', choices' := OneStepMore(run', choices', c, size);
  }

  lemma {:induction false} FillUp(n: CInt, k: nat) returns (run: seq<State>, choices: seq<Choice>)
    requires k <= Entries(ChosenSize(n)) < ChosenSize(n)
    ensures Alone(run, choices) && AlwaysCalls(choices, ChosenSize(n))
    ensures Before(run[0]) && Filling(Last(run), ChosenSize(n), k)
  {
    hide Entries, ChosenSize, Fits, Alone, AlwaysCalls, Filling, Before;
    if k == 0 {
      run, choices := MakeQueue(n);
    } else {
      run, choices := FillUp(n, k - 1);
      run, choices := EnqueueOne(run, choices, Item(0, true, true), ChosenSize(n), k - 1);
    }
  }

  /** The first item beyond what was allocated is written out of bounds. */
  lemma Overrun(n: CInt) returns (run: seq<State>, choices: seq<Choice>)
    requires !Fits(ChosenSize(n))
    ensures Alone(run, choices) && AlwaysCalls(choices, ChosenSize(n)) && Before(run[0])
    ensures Last(run).shared.fault && !Last(run).shared.panicked
  {
    SlotsIfFits(ChosenSize(n));
    hide Entries, ChosenSize, Fits, Alone, AlwaysCalls, Before;
    var size := ChosenSize(n);
    var k := Entries(size);
    run, choices := FillUp(n, k);
    run, choices := ComeToWrite(run, choices, Item(0, true, true), size, k);
    run, choices := OneStepMore(run, choices, Choice(Enqueue(Item(0, true, true)), false, false), size);
  }

  /** A run whose queues are all of one size and that uses the vector where there is none of it. */
  ghost predicate Faults(run: seq<State>, who: seq<nat>, choices: seq<Choice>, size: nat)
  {
    && Run(run, who, choices) && AlwaysCalls(choices, size)
    && !run[|who|].shared.panicked && run[|who|].shared.fault
  }

  lemma NoFault(run: seq<State>, who: seq<nat>, choices: seq<Choice>, size: nat)
    requires Fits(size)
    ensures !Faults(run, who, choices, size)
  {
    hide Fits, ChosenSize, Next, Initial, DueAll;
    if Run(run, who, choices) && AlwaysCalls(choices, size) {
      RunKeepsInv(run, who, choices);
    }
  }

  /** Queues of a size are used within bounds in every run, of any number of threads, if and only if the byte count
      of that size does not wrap. */
  lemma FaultIff(n: CInt)
    ensures (exists run, who, choices :: Faults(run, who, choices, ChosenSize(n))) <==> !Fits(ChosenSize(n))
  {
    var size := ChosenSize(n);
    hide Entries, ChosenSize, Fits, Next, Initial;
    if Fits(size) {
      forall run, who, choices ensures !Faults(run, who, choices, size) {
        NoFault(run, who, choices, size);
      }
    } else {
      var run, choices := Overrun(n);
      AloneIsARun(run, choices);
      assert Faults(run, seq(|choices|, _ => 0), choices, size);
    }
  }

  lemma AloneIsARun(run: seq<State>, choices: seq<Choice>)
    requires Alone(run, choices) && Before(run[0])
    ensures Run(run, seq(|choices|, _ => 0), choices)
  {
    hide Next, Initial;
  }
}
