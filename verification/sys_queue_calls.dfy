/** What one call to the work queue does when nobody disturbs it: that it comes back, with what, and when it panics. */
module SysQueueCalls {

  import opened SysQueue

  /** Thread `t` takes steps alone, the environment choosing `choices` one after the other: the shared state when the
      thread first comes to `there`, or nothing if it does not come there within these steps. */
  ghost function Undisturbed(sh: Shared, pc: PC, t: nat, choices: seq<Choice>, there: PC): Option<Shared>
    decreases |choices|
  {
    if pc == there then Some(sh)
    else if choices == [] || sh.panicked || !Defined(sh, pc) then None
    else var (sh', pc') := ThreadStep(sh, pc, t, choices[0]); Undisturbed(sh', pc', t, choices[1..], there)
  }

  lemma Go(sh: Shared, pc: PC, t: nat, choices: seq<Choice>, there: PC)
    requires pc != there && choices != [] && !sh.panicked && Defined(sh, pc)
    ensures var (sh', pc') := ThreadStep(sh, pc, t, choices[0]);
            Undisturbed(sh, pc, t, choices, there) == Undisturbed(sh', pc', t, choices[1..], there)
  {
  }

  /** Consecutive steps of one thread among many. */
  ghost predicate StepsOf(run: seq<State>, t: nat, choices: seq<Choice>)
  {
    |run| == |choices| + 1 && forall i | 0 <= i < |choices| :: Next(run[i], t, choices[i], run[i + 1])
  }

  /** Such steps are steps of the queue: from any state where the thread is at some place, they lead to the one where
      it has come to `there` and nobody else has moved. */
  lemma {:induction false} Steps(s: State, t: nat, choices: seq<Choice>, there: PC) returns (run: seq<State>)
    requires t < |s.threads| && Undisturbed(s.shared, s.threads[t], t, choices, there).Some?
    ensures 0 < |run| <= |choices| + 1 && StepsOf(run, t, choices[..|run| - 1]) && run[0] == s
    ensures Last(run) == State(Undisturbed(s.shared, s.threads[t], t, choices, there).value, s.threads[t := there])
    decreases |choices|
  {
    if s.threads[t] == there {
      run := [s];
      assert s.threads[t := there] == s.threads;
    } else {
      var (sh', pc') := ThreadStep(s.shared, s.threads[t], t, choices[0]);
      var next := State(sh', s.threads[t := pc']);
      assert Next(s, t, choices[0], next);
      hide ThreadStep, Next, Defined;
      var rest := Steps(next, t, choices[1..], there);
      assert next.threads[t := there] == s.threads[t := there];
      run := [s] + rest;
      StepBefore(s, t, choices, rest);
    }
  }

  lemma StepBefore(s: State, t: nat, choices: seq<Choice>, rest: seq<State>)
    requires 0 < |rest| <= |choices| && StepsOf(rest, t, choices[1..][..|rest| - 1]) && Next(s, t, choices[0], rest[0])
    ensures StepsOf([s] + rest, t, choices[..|rest|])
  {
    hide Next;
    forall i | 0 <= i < |rest| ensures Next(([s] + rest)[i], t, choices[..|rest|][i], ([s] + rest)[i + 1]) {
      if i > 0 {
        assert choices[1..][..|rest| - 1][i - 1] == choices[i];
      }
    }
  }

  /** A whole call, made by the first choice and not disturbed: the shared state when it has come back. */
  ghost function Returned(sh: Shared, t: nat, choices: seq<Choice>): Option<Shared>
  {
    if choices == [] then None else Undisturbed(sh, StartCall(choices[0]), t, choices[1..], Idle)
  }

  lemma CallIsARun(s: State, t: nat, choices: seq<Choice>) returns (run: seq<State>)
    requires t < |s.threads| && s.threads[t] == Idle && !s.shared.panicked && Returned(s.shared, t, choices).Some?
    ensures 0 < |run| <= |choices| + 1 && StepsOf(run, t, choices[..|run| - 1]) && run[0] == s
    ensures Last(run) == State(Returned(s.shared, t, choices).value, s.threads)
  {
    var next := State(s.shared, s.threads[t := StartCall(choices[0])]);
    assert Next(s, t, choices[0], next);
    hide ThreadStep, StartCall, Next;
    var rest := Steps(next, t, choices[1..], Idle);
    assert next.threads[t := Idle] == s.threads;
    run := [s] + rest;
    StepBefore(s, t, choices, rest);
  }

  /** The queue as a thread outside it finds it: as it should be. */
  ghost predicate Outside(sh: Shared, t: nat)
  {
    !sh.panicked && SharedOk(sh) && ThreadOk(sh, Idle, t)
  }

  /** So is it for any thread that is outside, in every state a run comes to. */
  lemma OutsideInEveryRun(s: State, t: nat)
    requires Inv(s) && !s.shared.panicked && t < |s.threads| && s.threads[t] == Idle
    ensures Outside(s.shared, t)
  {
    hide SharedOk, ThreadOk;
  }

  /** The items still to be run, the next one first. */
  ghost function Remaining(sh: Shared): (items: seq<Item>)
    requires |sh.finished| <= |sh.accepted|
  {
    sh.accepted[|sh.finished|..]
  }

  // ----- Running -----

  lemma FrontUsable(sh: Shared, t: nat)
    requires Outside(sh, t) && sh.lock == None && sh.count > 0
    ensures |sh.finished| < |sh.accepted| && |Remaining(sh)| == sh.count && Usable(sh, sh.tail) && sh.size > 0
    ensures sh.vector.value[sh.tail] == Remaining(sh)[0] && !sh.fault
  {
    hide DueAll;
  }

  /** A run that finds the queue unlocked comes to look at its flag with the lock taken. */
  lemma TakesLock(sh: Shared, t: nat, choices: seq<Choice>)
    requires !sh.panicked && sh.lock == None && (sh.flag == Running || sh.flag == SendDeinitSignal)
    requires |choices| >= 3 && choices[0].call == Call.Run
    ensures Returned(sh, t, choices)
            == Undisturbed(sh.(lock := Some(t)), InRun(RunCheck), t, choices[1..][1..][1..], Idle)
  {
    Go(sh, InRun(RunFlag), t, choices[1..], Idle);
    Go(sh, InRun(RunLock), t, choices[1..][1..], Idle);
  }

  lemma Unlocks(sh: Shared, t: nat, choices: seq<Choice>)
    requires !sh.panicked && choices != []
    ensures Undisturbed(sh, InRun(RunUnlock), t, choices, Idle) == Some(sh.(lock := None))
  {
    Go(sh, InRun(RunUnlock), t, choices, Idle);
  }

  /** What is called for an item that is run. */
  ghost function CalledFor(item: Item): seq<Event>
  {
    [Called(item.ctx)] + if item.hasDestroyer then [Destroyed(item.ctx)] else []
  }

  /** From the look at the item at the tail to the end of the call. */
  lemma Serves(sh: Shared, t: nat, choices: seq<Choice>, item: Item)
    requires !sh.panicked && |choices| >= 4 && Usable(sh, sh.tail) && sh.size > 0 && sh.count > 0
    requires sh.vector.value[sh.tail] == item && item.hasFunction
    ensures var back := Undisturbed(sh, InRun(RunFunction), t, choices, Idle);
            && back.Some?
            && back.value == sh.(lock := None, count := sh.count - 1, finished := sh.finished + [true], partial := [],
                                 log := sh.log + CalledFor(item), tail := back.value.tail, vector := back.value.vector)
  {
    hide AddStep, InitStep, DeinitStep;
    var called := RunStep(sh, RunFunction, t, choices[0]).0;
    Go(sh, InRun(RunFunction), t, choices, Idle);
    Destroys(called, t, choices[1..], item.(hasFunction := false));
  }

  lemma Destroys(sh: Shared, t: nat, choices: seq<Choice>, item: Item)
    requires !sh.panicked && |choices| >= 3 && Usable(sh, sh.tail) && sh.size > 0 && sh.count > 0
    requires sh.vector.value[sh.tail] == item
    ensures var back := Undisturbed(sh, InRun(RunDestroyer), t, choices, Idle);
            && back.Some?
            && back.value == sh.(lock := None, count := sh.count - 1, finished := sh.finished + [true], partial := [],
                                 log := sh.log + if item.hasDestroyer then [Destroyed(item.ctx)] else [],
                                 tail := back.value.tail, vector := back.value.vector)
  {
    hide AddStep, InitStep, DeinitStep;
    var destroyed := CallDestroyer(sh);
    Go(sh, InRun(RunDestroyer), t, choices, Idle);
    Go(destroyed, InRun(RunAdvance), t, choices[1..], Idle);
    Unlocks(Advance(destroyed, true), t, choices[1..][1..]);
  }

  /** A run of a running queue calls the function of the item whose turn it is, then its destroyer if it has one,
      and takes it off; the queue goes on running and is unlocked again. An item without a function is a panic. */
  lemma RunServes(sh: Shared, t: nat, choices: seq<Choice>)
    requires Outside(sh, t) && sh.lock == None && sh.flag == Running && sh.count >= 1
    requires |choices| >= 8 && choices[0].call == Call.Run
    ensures |Remaining(sh)| == sh.count
    ensures Returned(sh, t, choices).Some?
    ensures var item, back := Remaining(sh)[0], Returned(sh, t, choices).value;
            if !item.hasFunction then back.panicked && back.log == sh.log
            else
              && !back.panicked && !back.fault && back.flag == Running
              && back.lock == None && back.globalLock == sh.globalLock
              && back.count == sh.count - 1 && back.size == sh.size
              && back.accepted == sh.accepted && back.finished == sh.finished + [true]
              && back.log == sh.log + [Called(item.ctx)]
                             + if item.hasDestroyer then [Destroyed(item.ctx)] else []
  {
    FrontUsable(sh, t);
    TakesLock(sh, t, choices);
    hide SharedOk, ThreadOk, AddStep, InitStep, DeinitStep, StartCall;
    var rest := choices[1..][1..][1..];
    var taken := sh.(lock := Some(t));
    Go(taken, InRun(RunCheck), t, rest, Idle);
    if Remaining(sh)[0].hasFunction {
      Serves(taken, t, rest[1..], Remaining(sh)[0]);
    } else {
      Go(taken, InRun(RunFunction), t, rest[1..], Idle);
    }
  }

  /** With nothing to run, or nothing to run it on, a run changes nothing. */
  lemma RunOfNothing(sh: Shared, t: nat, choices: seq<Choice>)
    requires Outside(sh, t) && sh.lock == None && |choices| >= 5 && choices[0].call == Call.Run
    requires sh.flag == Off || sh.flag == ReadyDeinit || (sh.flag == Running && sh.count == 0)
    ensures Returned(sh, t, choices) == Some(sh)
  {
    hide SharedOk, ThreadOk, AddStep, InitStep, DeinitStep;
    if sh.flag == Running {
      TakesLock(sh, t, choices);
      var rest := choices[1..][1..][1..];
      Go(sh.(lock := Some(t)), InRun(RunCheck), t, rest, Idle);
      Unlocks(sh.(lock := Some(t)), t, rest[1..]);
    } else {
      Go(sh, InRun(RunFlag), t, choices[1..], Idle);
    }
  }

  // ----- Running out -----

  /** The destroyers of some items, in their order. */
  ghost function Destroyers(items: seq<Item>): seq<Event>
  {
    if items == [] then []
    else (if items[0].hasDestroyer then [Destroyed(items[0].ctx)] else []) + Destroyers(items[1..])
  }

  /** A thread about to look whether anything is left, having locked the queue. */
  ghost predicate Draining(sh: Shared, t: nat)
  {
    !sh.panicked && SharedOk(sh) && ThreadOk(sh, InRun(DrainCheck), t)
  }

  lemma DrainingFront(sh: Shared, t: nat)
    requires Draining(sh, t)
    ensures |sh.finished| <= |sh.accepted| && |Remaining(sh)| == sh.count && sh.lock == Some(t) && !sh.panicked
    ensures sh.flag == SendDeinitSignal && !sh.fault && sh.partial == []
    ensures sh.count > 0 ==> Usable(sh, sh.tail) && sh.size > 0 && sh.vector.value[sh.tail] == Remaining(sh)[0]
  {
    hide DueAll;
  }

  /** One turn of the loop. */
  ghost function DrainedOne(sh: Shared): Shared
    requires sh.size > 0
  {
    Advance(CallDestroyer(sh), false)
  }

  lemma DrainOne(sh: Shared, t: nat, choices: seq<Choice>)
    requires Draining(sh, t) && sh.count > 0 && |choices| >= 3 && !choices[0].giveUp
    ensures sh.size > 0 && Draining(DrainedOne(sh), t) && Remaining(DrainedOne(sh)) == Remaining(sh)[1..]
    ensures Undisturbed(sh, InRun(DrainCheck), t, choices, Idle)
            == Undisturbed(DrainedOne(sh), InRun(DrainCheck), t, choices[3..], Idle)
    ensures var after, item := DrainedOne(sh), Remaining(sh)[0];
            && after.count == sh.count - 1 && after.globalLock == sh.globalLock && after.size == sh.size
            && after.accepted == sh.accepted && after.finished == sh.finished + [false]
            && after.log == sh.log + if item.hasDestroyer then [Destroyed(item.ctx)] else []
  {
    DrainingFront(sh, t);
    var c := Choice(Call.Run, false, false);
    OwnStep(sh, InRun(DrainCheck), t, c);
    OwnStep(sh, InRun(DrainDestroyer), t, c);
    OwnStep(CallDestroyer(sh), InRun(DrainAdvance), t, c);
    hide SharedOk, ThreadOk, AddStep, InitStep, DeinitStep;
    Go(sh, InRun(DrainCheck), t, choices, Idle);
    Go(sh, InRun(DrainDestroyer), t, choices[1..], Idle);
    Go(CallDestroyer(sh), InRun(DrainAdvance), t, choices[1..][1..], Idle);
    assert choices[1..][1..][1..] == choices[3..];
  }

  lemma DrainsNothing(sh: Shared, t: nat, choices: seq<Choice>)
    requires !sh.panicked && sh.count == 0 && |choices| >= 3
    ensures Undisturbed(sh, InRun(DrainCheck), t, choices, Idle) == Some(sh.(flag := ReadyDeinit, lock := None))
  {
    Go(sh, InRun(DrainCheck), t, choices, Idle);
    Go(sh, InRun(DrainReady), t, choices[1..], Idle);
    Unlocks(sh.(flag := ReadyDeinit), t, choices[1..][1..]);
  }

  /** Items that were discarded and not run. */
  ghost function Discarded(n: nat): (modes: seq<bool>)
    ensures |modes| == n && forall i | 0 <= i < n :: !modes[i]
  {
    seq(n, _ => false)
  }

  lemma DiscardedFirst(n: nat)
    requires n > 0
    ensures Discarded(n) == [false] + Discarded(n - 1)
  {
  }

  lemma {:induction false} Drains(sh: Shared, t: nat, choices: seq<Choice>)
    requires Draining(sh, t) && |choices| >= 3 * sh.count + 3
    requires forall i | 0 <= i < |choices| :: !choices[i].giveUp
    ensures |sh.finished| <= |sh.accepted|
    ensures var back := Undisturbed(sh, InRun(DrainCheck), t, choices, Idle);
            && back.Some? && !back.value.panicked && !back.value.fault
            && back.value.flag == ReadyDeinit && back.value.count == 0
            && back.value.lock == None && back.value.globalLock == sh.globalLock
            && back.value.accepted == sh.accepted
            && back.value.finished == sh.finished + Discarded(sh.count)
            && back.value.log == sh.log + Destroyers(Remaining(sh))
    decreases sh.count
  {
    hide Draining, Undisturbed, DrainedOne, Discarded;
    DrainingFront(sh, t);
    if sh.count == 0 {
      DrainsNothing(sh, t, choices);
    } else {
      DrainOne(sh, t, choices);
      Drains(DrainedOne(sh), t, choices[3..]);
      DiscardedFirst(sh.count);
      assert sh.finished + [false] + Discarded(sh.count - 1) == sh.finished + ([false] + Discarded(sh.count - 1));
    }
  }

  /** After the signal to end, a run that does not run out of time calls every destroyer that is left, in order, and
      no function; it leaves the queue empty, ready to end, and unlocked. */
  lemma RunDrains(sh: Shared, t: nat, choices: seq<Choice>)
    requires Outside(sh, t) && sh.lock == None && sh.flag == SendDeinitSignal
    requires |choices| >= 3 * sh.count + 7 && choices[0].call == Call.Run
    requires forall i | 0 <= i < |choices| :: !choices[i].giveUp
    ensures |sh.finished| <= |sh.accepted|
    ensures var back := Returned(sh, t, choices);
            && back.Some? && !back.value.panicked && !back.value.fault
            && back.value.flag == ReadyDeinit && back.value.count == 0
            && back.value.lock == None && back.value.globalLock == sh.globalLock
            && back.value.accepted == sh.accepted
            && back.value.finished == sh.finished + Discarded(sh.count)
            && back.value.log == sh.log + Destroyers(Remaining(sh))
  {
    TakesLock(sh, t, choices);
    var c := Choice(Call.Run, false, false);
    var taken := sh.(lock := Some(t));
    OwnStep(sh, Idle, t, c);
    OwnStep(sh, InRun(RunFlag), t, c);
    OwnStep(sh, InRun(RunLock), t, c);
    OwnStep(taken, InRun(RunCheck), t, c);
    var rest := choices[1..][1..][1..];
    Go(taken, InRun(RunCheck), t, rest, Idle);
    hide SharedOk, ThreadOk, ThreadStep;
    Drains(taken, t, rest[1..]);
  }

  // ----- Making, filling and ending -----

  /** Making a queue that is off: it comes back running, empty, of the size asked for or of four items, and unlocked,
      if there is memory for it. Without memory, or when the queue is not off, making it is a panic. */
  lemma InitMakes(sh: Shared, t: nat, choices: seq<Choice>, n: CInt)
    requires Outside(sh, t) && sh.lock == None && sh.globalLock == None
    requires |choices| >= 9 && choices[0].call == Call.Init(n)
    ensures var back := Returned(sh, t, choices);
            && back.Some? && back.value.accepted == sh.accepted && back.value.finished == sh.finished
            && back.value.log == sh.log
            && (back.value.panicked <==> sh.stage != Dead || choices[5].outOfMemory)
            && (!back.value.panicked ==>
                  && back.value.flag == Running && back.value.count == 0 && back.value.vector.Some?
                  && back.value.size == (if n > 0 then n else 4)
                  && back.value.lock == None && back.value.globalLock == None)
  {
    hide SharedOk, ThreadOk, AddStep, RunStep, DeinitStep, Entries, FreshVector;
    var c3, locked := choices[3..], sh.(lock := Some(t));
    var c4, both := choices[4..], locked.(globalLock := Some(t));
    Go(sh, InInit(InitGlobal(n)), t, choices[1..], Idle);
    Go(sh, InInit(InitLock(n)), t, choices[1..][1..], Idle);
    assert choices[1..][1..][1..] == c3;
    Go(locked, InInit(InitTakeGlobal(n)), t, c3, Idle);
    assert c3[1..] == c4;
    Go(both, InInit(InitCheck(n)), t, c4, Idle);
    DeadIff(sh, t);
    if sh.stage == Dead {
      InitFills(both, t, c4[1..], n);
    }
  }

  /** Outside all calls, when nobody holds a lock, a queue is dead or alive as its vector and its flag say. */
  lemma DeadIff(sh: Shared, t: nat)
    requires Outside(sh, t)
    ensures sh.stage == Dead ==> sh.vector.None? && sh.flag == Off
    ensures sh.stage != Dead ==> sh.vector.Some?
  {
    hide RingOk, LogOk, ThreadOk;
  }

  lemma InitFills(sh: Shared, t: nat, choices: seq<Choice>, n: CInt)
    requires !sh.panicked && |choices| >= 4
    ensures var back := Undisturbed(sh, InInit(InitFill(n)), t, choices, Idle);
            if choices[0].outOfMemory then back == Some(sh.(panicked := true))
            else
              && back.Some?
              && back.value == sh.(flag := Running, lock := None, globalLock := None, count := 0, head := 0, tail := 0,
                                   size := if n > 0 then n else 4, stage := Alive, vector := back.value.vector)
              && back.value.vector.Some?
  {
    hide AddStep, RunStep, DeinitStep, Entries, FreshVector;
    Go(sh, InInit(InitFill(n)), t, choices, Idle);
    if !choices[0].outOfMemory {
      var made := InitStep(sh, InitFill(n), t, choices[0]).0;
      Go(made, InInit(InitUnlock), t, choices[1..], Idle);
      Go(made.(lock := None), InInit(InitUnlockGlobal), t, choices[1..][1..], Idle);
      Go(made.(lock := None, globalLock := None), InInit(InitRunning), t, choices[1..][1..][1..], Idle);
    }
  }

  /** Enqueueing on a queue nobody has locked always comes back, and never panics. The item is accepted, behind those
      already waiting, exactly if the queue is running and not full; otherwise nothing changes. */
  lemma EnqueueAccepts(sh: Shared, t: nat, choices: seq<Choice>, item: Item)
    requires Outside(sh, t) && sh.lock == None && sh.globalLock == None
    requires |choices| >= 9 && choices[0].call == Call.Enqueue(item)
    ensures |sh.finished| <= |sh.accepted|
    ensures var back := Returned(sh, t, choices);
            if sh.flag == Running && sh.count < sh.size then
              && back.Some? && !back.value.panicked && !back.value.fault
              && back.value.flag == Running && back.value.lock == None && back.value.globalLock == None
              && back.value.count == sh.count + 1 && back.value.size == sh.size
              && back.value.accepted == sh.accepted + [item] && back.value.finished == sh.finished
              && back.value.log == sh.log
            else back == Some(sh)
  {
    hide AddStep, RunStep, DeinitStep, InitStep;
    HeadUsable(sh, t);
    hide SharedOk, ThreadOk;
    if sh.flag == Off {
      OffRefuses(sh, t, choices, item);
    } else {
      ComesToCheck(sh, t, choices, item);
      var rest := choices[1..][1..][1..][1..];
      if sh.flag == Running && sh.count < sh.size {
        Accepts(sh.(lock := Some(t)), t, rest, item);
      } else {
        Refuses(sh.(lock := Some(t)), t, rest, item);
      }
    }
  }

  lemma HeadUsable(sh: Shared, t: nat)
    requires Outside(sh, t)
    ensures sh.flag == Running ==> sh.size > 0 && Usable(sh, sh.head)
    ensures !sh.fault && |sh.finished| <= |sh.accepted|
  {
    hide DueAll;
  }

  lemma OffRefuses(sh: Shared, t: nat, choices: seq<Choice>, item: Item)
    requires !sh.panicked && sh.flag == Off && |choices| >= 2 && choices[0].call == Call.Enqueue(item)
    ensures Returned(sh, t, choices) == Some(sh)
  {
    Go(sh, InAdd(AddFlag(item)), t, choices[1..], Idle);
  }

  lemma ComesToCheck(sh: Shared, t: nat, choices: seq<Choice>, item: Item)
    requires !sh.panicked && sh.lock == None && sh.globalLock == None && sh.flag != Off
    requires |choices| >= 4 && choices[0].call == Call.Enqueue(item)
    ensures Returned(sh, t, choices)
            == Undisturbed(sh.(lock := Some(t)), InAdd(AddCheck(item)), t, choices[1..][1..][1..][1..], Idle)
  {
    Go(sh, InAdd(AddFlag(item)), t, choices[1..], Idle);
    Go(sh, InAdd(AddGlobal(item)), t, choices[1..][1..], Idle);
    Go(sh, InAdd(AddLock(item)), t, choices[1..][1..][1..], Idle);
  }

  lemma Refuses(sh: Shared, t: nat, choices: seq<Choice>, item: Item)
    requires !sh.panicked && |choices| >= 3 && (sh.flag != Running || sh.count >= sh.size)
    ensures Undisturbed(sh, InAdd(AddCheck(item)), t, choices, Idle) == Some(sh.(lock := None))
  {
    Go(sh, InAdd(AddCheck(item)), t, choices, Idle);
    if sh.flag != Running {
      Go(sh, InAdd(AddUnlock), t, choices[1..], Idle);
    } else {
      Go(sh, InAdd(AddFull(item)), t, choices[1..], Idle);
      Go(sh, InAdd(AddUnlock), t, choices[1..][1..], Idle);
    }
  }

  lemma Accepts(sh: Shared, t: nat, choices: seq<Choice>, item: Item)
    requires !sh.panicked && |choices| >= 5 && sh.flag == Running && sh.count < sh.size && Usable(sh, sh.head)
    ensures var back := Undisturbed(sh, InAdd(AddCheck(item)), t, choices, Idle);
            && back.Some?
            && back.value == sh.(lock := None, count := sh.count + 1, accepted := sh.accepted + [item],
                                 head := back.value.head, vector := back.value.vector)
  {
    hide InitStep, DeinitStep, RunStep;
    Go(sh, InAdd(AddCheck(item)), t, choices, Idle);
    Go(sh, InAdd(AddFull(item)), t, choices[1..], Idle);
    Writes(sh, t, choices[1..][1..], item);
  }

  lemma Writes(sh: Shared, t: nat, choices: seq<Choice>, item: Item)
    requires !sh.panicked && |choices| >= 3 && sh.size > 0 && Usable(sh, sh.head)
    ensures var back := Undisturbed(sh, InAdd(AddWrite(item)), t, choices, Idle);
            && back.Some?
            && back.value == sh.(lock := None, count := sh.count + 1, accepted := sh.accepted + [item],
                                 head := back.value.head, vector := back.value.vector)
  {
    hide InitStep, DeinitStep, RunStep;
    var written := AddStep(sh, AddWrite(item), t, choices[0]).0;
    var rest := choices[1..][1..];
    Go(sh, InAdd(AddWrite(item)), t, choices, Idle);
    Go(written, InAdd(AddAdvance(item)), t, choices[1..], Idle);
    Go(AddStep(written, AddAdvance(item), t, choices[1]).0, InAdd(AddUnlock), t, rest, Idle);
  }

  /** Ending a queue that is off changes nothing; ending one twice is a panic. */
  lemma DeinitOfNothing(sh: Shared, t: nat, choices: seq<Choice>)
    requires Outside(sh, t) && sh.lock == None && sh.globalLock == None && sh.flag != Running
    requires |choices| >= 6 && choices[0].call == Call.Deinit
    ensures var back := Returned(sh, t, choices);
            if sh.stage == Dead then back == Some(sh) else back.Some? && back.value.panicked
  {
    DeadIff(sh, t);
    hide SharedOk, ThreadOk, AddStep, RunStep, InitStep;
    var both, rest := sh.(lock := Some(t), globalLock := Some(t)), choices[1..][1..][1..];
    Go(sh, InDeinit(DeinitTakeGlobal), t, choices[1..], Idle);
    Go(sh.(globalLock := Some(t)), InDeinit(DeinitLock), t, choices[1..][1..], Idle);
    Go(both, InDeinit(DeinitCheck), t, rest, Idle);
    if sh.stage == Dead {
      Go(both, InDeinit(DeinitNothing), t, rest[1..], Idle);
      Go(both.(lock := None), InDeinit(DeinitNothingGlobal), t, rest[1..][1..], Idle);
    }
  }

  /** Ending a running queue comes to wait, with the signal given and the queue unlocked. */
  lemma DeinitSignals(sh: Shared, t: nat, choices: seq<Choice>)
    requires !sh.panicked && sh.lock == None && sh.globalLock == None && sh.flag == Running
    requires |choices| >= 5 && choices[0].call == Call.Deinit
    ensures Undisturbed(sh, StartCall(choices[0]), t, choices[1..], InDeinit(DeinitWait))
            == Some(sh.(flag := SendDeinitSignal, globalLock := Some(t)))
  {
    hide AddStep, RunStep, InitStep;
    var there := InDeinit(DeinitWait);
    var both, rest := sh.(lock := Some(t), globalLock := Some(t)), choices[1..][1..][1..];
    Go(sh, InDeinit(DeinitTakeGlobal), t, choices[1..], there);
    Go(sh.(globalLock := Some(t)), InDeinit(DeinitLock), t, choices[1..][1..], there);
    Go(both, InDeinit(DeinitCheck), t, rest, there);
    Go(both.(flag := SendDeinitSignal), InDeinit(DeinitUnlock), t, rest[1..], there);
  }

  /** The rest of it, once the queue is ready to end. */
  lemma DeinitFinishes(sh: Shared, t: nat, choices: seq<Choice>)
    requires !sh.panicked && sh.lock == None && sh.flag == ReadyDeinit && |choices| >= 6
    ensures Undisturbed(sh, InDeinit(DeinitWait), t, choices, Idle)
            == Some(sh.(flag := Off, vector := None, stage := Dead, globalLock := None))
  {
    hide AddStep, RunStep, InitStep;
    Go(sh, InDeinit(DeinitWait), t, choices, Idle);
    Go(sh, InDeinit(DeinitRelock), t, choices[1..], Idle);
    Frees(sh.(lock := Some(t)), t, choices[1..][1..]);
  }

  lemma Frees(sh: Shared, t: nat, choices: seq<Choice>)
    requires !sh.panicked && |choices| >= 4
    ensures Undisturbed(sh, InDeinit(DeinitOff), t, choices, Idle)
            == Some(sh.(flag := Off, vector := None, stage := Dead, lock := None, globalLock := None))
  {
    hide AddStep, RunStep, InitStep;
    var freed, rest := sh.(flag := Off, vector := None, stage := Dead), choices[1..][1..];
    Go(sh, InDeinit(DeinitOff), t, choices, Idle);
    Go(sh.(flag := Off, stage := Freeing(t)), InDeinit(DeinitFree), t, choices[1..], Idle);
    Go(freed, InDeinit(DeinitFinalUnlock), t, rest, Idle);
    Go(freed.(lock := None), InDeinit(DeinitFinalGlobal), t, rest[1..], Idle);
  }

  /** One thread ends a running queue and waits; another runs it; the first goes on. Every destroyer that was left has
      been called, in order, and no function; the queue is off, without its vector, and unlocked. */
  lemma DeinitEnds(sh: Shared, t: nat, ending: seq<Choice>, u: nat, running: seq<Choice>, rest: seq<Choice>)
    requires t != u && Outside(sh, t) && Outside(sh, u)
    requires sh.lock == None && sh.globalLock == None && sh.flag == Running
    requires |ending| >= 5 && ending[0].call == Call.Deinit && |rest| >= 6
    requires |running| >= 3 * sh.count + 7 && running[0].call == Call.Run
    requires forall i | 0 <= i < |running| :: !running[i].giveUp
    ensures |sh.finished| <= |sh.accepted|
    ensures var signalled := Undisturbed(sh, StartCall(ending[0]), t, ending[1..], InDeinit(DeinitWait));
            && signalled.Some? && var drained := Returned(signalled.value, u, running);
            && drained.Some? && var ended := Undisturbed(drained.value, InDeinit(DeinitWait), t, rest, Idle);
            && ended.Some? && !ended.value.panicked && !ended.value.fault
            && ended.value.flag == Off && ended.value.vector == None && ended.value.count == 0
            && ended.value.lock == None && ended.value.globalLock == None
            && ended.value.accepted == sh.accepted && |ended.value.finished| == |sh.accepted|
            && ended.value.log == sh.log + Destroyers(Remaining(sh))
  {
    DeinitSignals(sh, t, ending);
    var signalled := sh.(flag := SendDeinitSignal, globalLock := Some(t));
    SignalledOutside(sh, t, u);
    RunDrains(signalled, u, running);
    DeinitFinishes(Returned(signalled, u, running).value, t, rest);
  }

  /** Ended by one thread and run by none, a queue makes that thread wait until it panics. */
  lemma {:induction false} DeinitNeedsARun(sh: Shared, t: nat, choices: seq<Choice>)
    requires !sh.panicked && sh.flag == SendDeinitSignal
    ensures Undisturbed(sh, InDeinit(DeinitWait), t, choices, Idle) in {None, Some(sh.(panicked := true))}
    decreases |choices|
  {
    if choices != [] {
      Go(sh, InDeinit(DeinitWait), t, choices, Idle);
      if !choices[0].giveUp {
        DeinitNeedsARun(sh, t, choices[1..]);
      }
    }
  }

  lemma SignalledOutside(sh: Shared, t: nat, u: nat)
    requires t != u && Outside(sh, u) && sh.flag == Running
    ensures Outside(sh.(flag := SendDeinitSignal, globalLock := Some(t)), u)
    ensures |sh.accepted| == |sh.finished| + sh.count
  {
    hide DueAll;
  }

  // ----- A lock that another holds -----

  /** While another thread holds the lock, a run or an enqueueing comes back, if it does, with nothing changed. */
  lemma {:induction false} HeldOut(sh: Shared, pc: PC, t: nat, choices: seq<Choice>)
    requires !sh.panicked && sh.lock.Some?
    requires (pc.InRun? && (pc.r.RunFlag? || pc.r.RunLock?))
             || (pc.InAdd? && (pc.a.AddFlag? || pc.a.AddGlobal? || pc.a.AddLock?))
    ensures Undisturbed(sh, pc, t, choices, Idle) in {None, Some(sh)}
    ensures choices != [] && choices[0].giveUp && pc == InRun(RunLock)
            ==> Undisturbed(sh, pc, t, choices, Idle) == Some(sh)
    ensures choices != [] && choices[0].giveUp && pc.InAdd? && pc.a.AddLock?
            ==> Undisturbed(sh, pc, t, choices, Idle) == Some(sh)
    decreases |choices|
  {
    if choices != [] {
      Go(sh, pc, t, choices, Idle);
      var next := ThreadStep(sh, pc, t, choices[0]).1;
      if next != Idle {
        HeldOut(sh, next, t, choices[1..]);
      }
    }
  }

  /** A thread making or ending the queue that cannot get on: a lock it needs is held by another. */
  ghost predicate Blocked(sh: Shared, pc: PC)
  {
    || ((pc == InDeinit(DeinitTakeGlobal) || (pc.InInit? && (pc.i.InitGlobal? || pc.i.InitLock?)))
        && (sh.lock.Some? || sh.globalLock.Some?))
    || (pc == InDeinit(DeinitLock) && sh.lock.Some?)
    || (pc.InInit? && pc.i.InitTakeGlobal? && sh.globalLock.Some?)
  }

  /** It waits until its time is up, and then it is a panic: making or ending the queue never comes back otherwise. */
  lemma {:induction false} BlockedPanics(sh: Shared, pc: PC, t: nat, choices: seq<Choice>)
    requires !sh.panicked && Blocked(sh, pc)
    ensures var back := Undisturbed(sh, pc, t, choices, Idle);
            back.Some? ==> back.value.panicked && back.value.flag == sh.flag && back.value.vector == sh.vector
    decreases |choices|
  {
    if choices != [] {
      Go(sh, pc, t, choices, Idle);
      var (next, at) := ThreadStep(sh, pc, t, choices[0]);
      if at != Idle {
        BlockedPanics(next, at, t, choices[1..]);
      }
    }
  }
}
