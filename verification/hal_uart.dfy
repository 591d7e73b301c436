/** A Modbus request over UART 1: the transmit and receive DMA channels, the USART and the timer that turns the line
    around share one control block with a function that is polled. Every handler and every poll is one step. */
module HalUart {

  const UART1_TRANSFER_COMPLETE := 1
  const UART1_RECEIVE_COMPLETE := 2
  const RECEIVE_AND_PROCESS_DATA_COMPLETE := 3
  const E_UART1_TIMEOUT := 202
  const E_DMA1_CH4_TRANSMIT_ERROR := 210
  const E_RECEIVE_ERROR_BASE := 224
  const E_DMA1_CH5_RECEIVE_ERROR := 250
  const E_DMA5_BUFFER_OVERFLOW := 462

  // ----- What a request goes through -----

  datatype Timer = Stopped | Running | Expired

  datatype Phase =
    | Idle
    | Sending(left: nat, status: nat, timer: Timer)
    | Receiving(left: nat, status: nat)

  /** The transaction layer: where the current request is, its timeout, the last SysTick value looked at, the requests
      accepted and the statuses called back so far, and the SysTick wraps observed since the last acceptance. */
  datatype Line = Line(phase: Phase, timeout: nat, lastVal: nat, accepted: nat, callbacks: seq<nat>, wraps: nat)

  datatype Event =
    | SendReq(prepared: bool, timeout: nat, val: nat)
    | Dma4(error: bool, complete: bool)
    | Dma5(error: bool, complete: bool)
    | Usart(errors: nat, idle: bool)
    | Tim2Update
    | Tim2(val: nat)
    | Poll(val: nat)

  /** What the hardware can do: a channel interrupts while it is enabled, a timer expires while it runs, and the USART
      has four error flags. Receive interrupts may come at any time. */
  ghost predicate Possible(line: Line, event: Event)
  {
    match event
    case Dma4(_, _) => line.phase.Sending?
    case Usart(errors, _) => errors < 16
    case Tim2Update => line.phase.Sending? && line.phase.timer == Running
    case _ => true
  }

  ghost function Finished(line: Line, status: nat): Line
  {
    line.(phase := Idle, callbacks := line.callbacks + [status])
  }

  ghost function WithStatus(line: Line, status: nat): Line
  {
    match line.phase
    case Idle => line
    case Sending(left, _, timer) => line.(phase := Sending(left, status, timer))
    case Receiving(left, _) => line.(phase := Receiving(left, status))
  }

  function Count(left: nat, lastVal: nat, val: nat): nat
  {
    if val > lastVal && left > 0 then left - 1 else left
  }

  /** A poll that looks at the clock. */
  ghost function Observed(line: Line, val: nat): Line
    requires line.phase != Idle
  {
    var left := Count(line.phase.left, line.lastVal, val);
    var seen := line.(lastVal := val, wraps := line.wraps + if val > line.lastVal then 1 else 0);
    if left == 0 then Finished(seen, E_UART1_TIMEOUT)
    else seen.(phase := if line.phase.Sending? then Sending(left, line.phase.status, line.phase.timer)
                        else Receiving(left, line.phase.status))
  }

  ghost function Polled(line: Line, val: nat): Line
  {
    if line.phase == Idle then line
    else if line.phase.status == 0 || line.phase.status == UART1_TRANSFER_COMPLETE then Observed(line, val)
    else if line.phase.status == UART1_RECEIVE_COMPLETE then Finished(line, RECEIVE_AND_PROCESS_DATA_COMPLETE)
    else Finished(line, line.phase.status)
  }

  ghost function After(line: Line, event: Event): Line
    requires Possible(line, event)
  {
    match event
    case SendReq(prepared, timeout, val) =>
      if line.phase != Idle then line
      else if !prepared then line.(timeout := timeout)
      else Line(Sending(timeout, 0, Stopped), timeout, val, line.accepted + 1, line.callbacks, 0)
    case Dma4(error, complete) =>
      if error then WithStatus(line, E_DMA1_CH4_TRANSMIT_ERROR)
      else if complete then line.(phase := Sending(line.phase.left, UART1_TRANSFER_COMPLETE, Running))
      else line
    case Dma5(error, complete) =>
      if error then WithStatus(line, E_DMA1_CH5_RECEIVE_ERROR)
      else if complete then WithStatus(line, E_DMA5_BUFFER_OVERFLOW)
      else line
    case Usart(errors, idle) =>
      if errors != 0 then WithStatus(line, E_RECEIVE_ERROR_BASE + errors)
      else if idle then WithStatus(line, UART1_RECEIVE_COMPLETE)
      else line
    case Tim2Update => line.(phase := Sending(line.phase.left, line.phase.status, Expired))
    case Tim2(val) =>
      if line.phase.Sending? && line.phase.timer == Expired
        then line.(phase := Receiving(line.timeout, 0), lastVal := val)
      else line
    case Poll(val) => Polled(line, val)
  }

  // ----- What holds at every step -----

  /** How many more wraps the current request can take. */
  ghost function Patience(line: Line): nat
  {
    match line.phase
    case Idle => 0
    case Sending(left, _, _) => left + line.timeout
    case Receiving(left, _) => left
  }

  /** One request at a time, one callback each, and the wraps spent are those the timeouts have given up. */
  ghost predicate Inv(line: Line)
  {
    && line.accepted == |line.callbacks| + (if line.phase == Idle then 0 else 1)
    && (line.phase != Idle ==>
          && line.phase.left <= line.timeout && (line.phase.left == 0 ==> line.timeout == 0)
          && (line.timeout == 0 ==> line.wraps == 0)
          && line.wraps + Patience(line) <= 2 * line.timeout)
    && (line.phase.Receiving? ==> line.phase.status != UART1_TRANSFER_COMPLETE)
  }

  lemma StepKeepsInv(line: Line, event: Event)
    requires Inv(line) && Possible(line, event)
    ensures Inv(After(line, event))
  {
  }

  /** A step calls back at most once, only for the request it ends, and within twice its timeout; without a timeout,
      the poll that ends the request may itself see a wrap. */
  lemma StepCallsBack(line: Line, event: Event)
    requires Inv(line) && Possible(line, event)
    ensures var next := After(line, event);
            && line.callbacks <= next.callbacks
            && (next.callbacks != line.callbacks <==> line.phase != Idle && next.phase == Idle)
            && (next.callbacks != line.callbacks ==>
                  && |next.callbacks| == |line.callbacks| + 1
                  && next.callbacks[|line.callbacks|] != UART1_TRANSFER_COMPLETE
                  && next.wraps <= if line.timeout == 0 then 1 else 2 * line.timeout)
  {
  }

  /** A poll that observes a wrap, or finds something to report, brings the callback closer. */
  ghost predicate Progress(line: Line, event: Event)
  {
    event.Poll? && line.phase != Idle
    && (event.val > line.lastVal || line.phase.status > UART1_TRANSFER_COMPLETE)
  }

  lemma StepSpendsPatience(line: Line, event: Event)
    requires Inv(line) && Possible(line, event) && line.phase != Idle
    ensures var next := After(line, event);
            && (next.phase != Idle ==> Patience(next) <= Patience(line))
            && (next.phase != Idle && Progress(line, event) ==> Patience(next) < Patience(line))
            && (Progress(line, event) && Patience(line) <= 1 ==> next.phase == Idle)
  {
  }

  ghost predicate Run(lines: seq<Line>, events: seq<Event>)
  {
    && |lines| == |events| + 1
    && forall i | 0 <= i < |events| :: Possible(lines[i], events[i]) && lines[i + 1] == After(lines[i], events[i])
  }

  ghost predicate Begins(line: Line)
  {
    line.phase == Idle && line.accepted == 0 && line.callbacks == []
  }

  lemma {:induction false} RunKeepsInv(lines: seq<Line>, events: seq<Event>, n: nat)
    requires Run(lines, events) && n < |lines| && Inv(lines[0])
    ensures Inv(lines[n])
  {
    hide Inv, After, Possible;
    if n > 0 {
      RunKeepsInv(lines, events, n - 1);
      StepKeepsInv(lines[n - 1], events[n - 1]);
    }
  }

  /** In every run, every request accepted so far but the one under way has had exactly one callback. */
  lemma OneCallbackEach(lines: seq<Line>, events: seq<Event>, n: nat)
    requires Run(lines, events) && n < |lines| && Begins(lines[0])
    ensures lines[n].accepted == |lines[n].callbacks| + (if lines[n].phase == Idle then 0 else 1)
  {
    assert Inv(lines[0]);
    RunKeepsInv(lines, events, n);
    hide After, Possible;
  }

  /** A run whose last step calls back for a request that has seen more wraps than twice its timeout. */
  ghost predicate EndsLate(lines: seq<Line>, events: seq<Event>, timeout: nat)
  {
    && Run(lines, events) && events != [] && Begins(lines[0])
    && lines[|events|].callbacks != lines[|events| - 1].callbacks
    && lines[|events| - 1].timeout == timeout && lines[|events|].wraps > 2 * timeout
  }

  /** Only a request without a timeout can: it is sent, and the first poll sees a wrap and ends it. */
  lemma EndsLateIff(timeout: nat)
    ensures (exists lines, events :: EndsLate(lines, events, timeout)) <==> timeout == 0
  {
    forall lines, events | EndsLate(lines, events, timeout) ensures timeout == 0 {
      var n := |events| - 1;
      assert Inv(lines[0]) && Possible(lines[n], events[n]) && lines[n + 1] == After(lines[n], events[n]);
      RunKeepsInv(lines, events, n);
      StepCallsBack(lines[n], events[n]);
    }
    if timeout == 0 {
      var idle := Line(Idle, 0, 0, 0, [], 0);
      var sent := Line(Sending(0, 0, Stopped), 0, 0, 1, [], 0);
      var ended := Line(Idle, 0, 1, 1, [E_UART1_TIMEOUT], 1);
      assert EndsLate([idle, sent, ended], [SendReq(true, 0, 0), Poll(1)], 0);
    }
  }

  ghost function ProgressMade(lines: seq<Line>, events: seq<Event>): nat
    requires |lines| == |events| + 1
  {
    if events == [] then 0 else (if Progress(lines[0], events[0]) then 1 else 0) + ProgressMade(lines[1..], events[1..])
  }

  /** A request under way has had its callback once polls have made progress as often as it has patience: at most
      twice its timeout, whatever the hardware does meanwhile. */
  lemma {:induction false} CallbackComes(lines: seq<Line>, events: seq<Event>)
    requires Run(lines, events) && Inv(lines[0]) && lines[0].phase != Idle
    requires ProgressMade(lines, events) >= Patience(lines[0]) && ProgressMade(lines, events) >= 1
    ensures exists n | 0 < n < |lines| :: |lines[n].callbacks| == |lines[0].callbacks| + 1
    decreases |events|
  {
    var next := lines[1];
    StepKeepsInv(lines[0], events[0]);
    StepSpendsPatience(lines[0], events[0]);
    StepCallsBack(lines[0], events[0]);
    hide After, Possible, Inv, Progress, Patience;
    if next.phase != Idle {
      assert Run(lines[1..], events[1..]);
      CallbackComes(lines[1..], events[1..]);
      var m :| 0 < m < |lines[1..]| && |lines[1..][m].callbacks| == |lines[1..][0].callbacks| + 1;
      assert lines[1..][m] == lines[m + 1];
    }
  }

  // ----- What is called back -----

  /** An event that has something to report: an error, or the idle line that ends an answer. */
  ghost predicate Reports(event: Event)
  {
    match event
    case Dma4(error, _) => error
    case Dma5(error, complete) => error || complete
    case Usart(errors, idle) => errors != 0 || idle
    case _ => false
  }

  /** An event that leaves a report as it is: it reports nothing, does not turn the line around, and is no poll. */
  ghost predicate LeavesReport(line: Line, event: Event)
  {
    match event
    case SendReq(_, _, _) => true
    case Dma4(error, complete) => !error && !complete
    case Dma5(_, _) => !Reports(event)
    case Usart(_, _) => !Reports(event)
    case Tim2Update => true
    case Tim2(_) => !(line.phase.Sending? && line.phase.timer == Expired)
    case Poll(_) => false
  }

  /** What a report comes to in the callback. */
  ghost predicate ToldAs(event: Event, status: nat)
    requires Reports(event)
  {
    match event
    case Dma4(_, _) => status == 210
    case Dma5(error, _) => status == if error then 250 else 462
    case Usart(errors, _) => status == if errors != 0 then 224 + errors else 3
  }

  /** `line` is one in which `event` was the last to report. */
  ghost predicate Reported(line: Line, event: Event)
    requires Reports(event)
  {
    && line.phase != Idle && line.phase.status > 1
    && forall val :: Polled(line, val).phase == Idle && |Polled(line, val).callbacks| == |line.callbacks| + 1
                     && line.callbacks < Polled(line, val).callbacks
                     && ToldAs(event, Polled(line, val).callbacks[|line.callbacks|])
  }

  lemma ReportIsKept(line: Line, event: Event, other: Event)
    requires Reports(event) && Reported(line, event) && Possible(line, other) && LeavesReport(line, other)
    ensures Reported(After(line, other), event) && After(line, other).callbacks == line.callbacks
  {
    var next := After(line, other);
    assert next.phase != Idle && next.phase.status == line.phase.status;
    forall val ensures Polled(next, val).callbacks == Polled(line, val).callbacks && Polled(next, val).phase == Idle {
    }
  }

  lemma ReportIsMade(line: Line, event: Event)
    requires Reports(event) && Possible(line, event) && line.phase != Idle
    ensures Reported(After(line, event), event) && After(line, event).callbacks == line.callbacks
  {
  }

  lemma {:induction false} ReportStands(lines: seq<Line>, events: seq<Event>, i: nat, j: nat)
    requires Run(lines, events) && i < j <= |events| && lines[i].phase != Idle && Reports(events[i])
    requires forall k | i < k < j :: LeavesReport(lines[k], events[k])
    ensures Reported(lines[j], events[i]) && lines[j].callbacks == lines[i].callbacks
  {
    hide After, Possible, Reported, Reports, LeavesReport;
    if j == i + 1 {
      ReportIsMade(lines[i], events[i]);
    } else {
      ReportStands(lines, events, i, j - 1);
      ReportIsKept(lines[j - 1], events[i], events[j - 1]);
    }
  }

  /** The poll after a report, with nothing newer to report and no turn-around in between, calls back at once: 210 for
      an error of the transmit channel, 250 and 462 for an error and an overflow of the receive channel, 224 and the
      flags for an error of the USART, and 3 for an idle line. */
  lemma ReportIsToldAs(lines: seq<Line>, events: seq<Event>, i: nat, j: nat)
    requires Run(lines, events) && i < j < |events| && lines[i].phase != Idle && Reports(events[i]) && events[j].Poll?
    requires forall k | i < k < j :: LeavesReport(lines[k], events[k])
    ensures lines[j + 1].phase == Idle && |lines[j + 1].callbacks| == |lines[i].callbacks| + 1
    ensures lines[i].callbacks < lines[j + 1].callbacks
    ensures match events[i]
            case Dma4(_, _) => lines[j + 1].callbacks[|lines[i].callbacks|] == 210
            case Dma5(error, _) => lines[j + 1].callbacks[|lines[i].callbacks|] == if error then 250 else 462
            case Usart(errors, _) =>
              lines[j + 1].callbacks[|lines[i].callbacks|] == if errors != 0 then 224 + errors else 3
            case _ => true
  {
    ReportStands(lines, events, i, j);
    assert lines[j + 1] == After(lines[j], events[j]) == Polled(lines[j], events[j].val);
    hide After, Possible, Polled, LeavesReport;
  }

  /** An event with nothing to report: a poll, the end of a transmission, or one that leaves a report as it is. */
  ghost predicate Quiet(line: Line, event: Event)
  {
    event.Poll? || LeavesReport(line, event) || (event.Dma4? && !Reports(event))
  }

  /** How many polls saw a wrap of the counter. */
  ghost function WrapsSeen(lines: seq<Line>, events: seq<Event>, i: nat, j: nat): nat
    requires i <= j <= |events| < |lines|
  {
    if i == j then 0
    else WrapsSeen(lines, events, i, j - 1)
         + (if events[j - 1].Poll? && events[j - 1].val > lines[j - 1].lastVal then 1 else 0)
  }

  /** A stage that has just begun: a request accepted, or the line turned around. */
  ghost predicate Begun(line: Line)
  {
    line.phase != Idle && line.phase.status == 0 && line.phase.left == line.timeout
  }

  /** `line` is `seen` wraps into a stage with nothing to report. */
  ghost predicate Waiting(line: Line, timeout: nat, seen: nat)
  {
    && line.phase != Idle && line.phase.status <= 1 && line.timeout == timeout
    && line.phase.left == if seen < timeout then timeout - seen else 0
  }

  lemma QuietStep(line: Line, event: Event, timeout: nat, seen: nat)
    requires Waiting(line, timeout, seen) && Possible(line, event) && Quiet(line, event)
    ensures var next := After(line, event);
            var now := seen + if event.Poll? && event.val > line.lastVal then 1 else 0;
            if event.Poll? && now >= timeout then next.phase == Idle && next.callbacks == line.callbacks + [202]
            else Waiting(next, timeout, now) && next.callbacks == line.callbacks
  {
  }

  lemma {:induction false} QuietSoFar(lines: seq<Line>, events: seq<Event>, i: nat, j: nat)
    requires Run(lines, events) && i <= j <= |events| && Begun(lines[i])
    requires forall k | i <= k < j :: Quiet(lines[k], events[k])
    requires forall k | i < k <= j :: lines[k].phase != Idle
    ensures Waiting(lines[j], lines[i].timeout, WrapsSeen(lines, events, i, j))
    ensures lines[j].callbacks == lines[i].callbacks
  {
    hide After, Possible, Quiet;
    if j > i {
      QuietSoFar(lines, events, i, j - 1);
      QuietStep(lines[j - 1], events[j - 1], lines[i].timeout, WrapsSeen(lines, events, i, j - 1));
    }
  }

  /** With nothing to report since a stage began, a poll calls back exactly if the polls of the stage, itself included,
      have seen as many wraps as the timeout, and then with 202. */
  lemma TimesOutExactly(lines: seq<Line>, events: seq<Event>, i: nat, j: nat)
    requires Run(lines, events) && i <= j < |events| && Begun(lines[i]) && events[j].Poll?
    requires forall k | i <= k < j :: Quiet(lines[k], events[k])
    requires forall k | i < k <= j :: lines[k].phase != Idle
    ensures if WrapsSeen(lines, events, i, j + 1) >= lines[i].timeout then
              lines[j + 1].phase == Idle && lines[j + 1].callbacks == lines[i].callbacks + [202]
            else lines[j + 1].phase != Idle && lines[j + 1].callbacks == lines[i].callbacks
  {
    QuietSoFar(lines, events, i, j);
    QuietStep(lines[j], events[j], lines[i].timeout, WrapsSeen(lines, events, i, j));
    hide After, Possible, Quiet;
  }

  /** A stage begins when a request is accepted and when the line is turned around, and 202 is called back by a poll
      only: what was reported, if anything, is another number. */
  lemma StagesBegin(line: Line, event: Event)
    requires Possible(line, event)
    ensures event.SendReq? && line.phase == Idle && event.prepared ==>
              Begun(After(line, event)) && After(line, event).phase.Sending?
              && After(line, event).timeout == event.timeout && After(line, event).lastVal == event.val
    ensures event.Tim2? && line.phase.Sending? && line.phase.timer == Expired ==>
              Begun(After(line, event)) && After(line, event).phase.Receiving?
              && After(line, event).lastVal == event.val
  {
  }

  /** A transmission that is complete starts the turn-around timer; only that does. */
  lemma TurnsAroundAfterSending(line: Line, event: Event)
    requires Possible(line, event) && line.phase != Idle
    ensures event.Dma4? && event.complete && !event.error ==>
              After(line, event).phase.Sending? && After(line, event).phase.timer == Running
    ensures line.phase.Sending? && event.Tim2Update? ==> After(line, event).phase == line.phase.(timer := Expired)
    ensures After(line, event).phase.Receiving? && !line.phase.Receiving? ==>
              event.Tim2? && line.phase.timer == Expired
  {
  }

  // ----- The code -----

  datatype UartStatus = UartOk | UartBusy | UartLocked

  datatype Callback = MasterSendReq | MasterReceive

  class Uart1 {
    var startMonitor: bool
    var locked: bool
    var valCntCurrent: nat
    var timeoutMs: nat
    var statusRegister: nat
    var callback: Callback
    var dma4En: bool                             // DMA1_CCR4_EN, transmit
    var dma5En: bool                             // DMA1_CCR5_EN, receive
    var re: bool                                 // USART1_CR1 RE
    var tim2Cen: bool
    var tim2Uif: bool
    var driverTransmits: bool                    // the line driver's direction pin
    var rtuLock: bool                            // master_rs485_rtu.lock
    var rtuTimeoutMs: nat                        // master_rs485_rtu.timeout_ms
    ghost var accepted: nat
    ghost var callbacks: seq<nat>
    ghost var wraps: nat

    ghost function Phase(): Phase
      reads this
    {
      if !rtuLock then Idle
      else if callback == MasterReceive then Receiving(timeoutMs, statusRegister)
      else Sending(timeoutMs, statusRegister, if tim2Uif then Expired else if tim2Cen then Running else Stopped)
    }

    ghost function State(): Line
      reads this
    {
      Line(Phase(), rtuTimeoutMs, valCntCurrent, accepted, callbacks, wraps)
    }

    /** The registers agree with the phase. */
    ghost predicate Valid()
      reads this
    {
      && rtuLock == locked == startMonitor && !(tim2Cen && tim2Uif)
      && dma4En == (rtuLock && callback == MasterSendReq)
      && dma5En == re == (rtuLock && callback == MasterReceive)
      && driverTransmits == !re
      && (tim2Cen || tim2Uif ==> dma4En)
      && Inv(State())
    }

    /** Transmission and reception are never enabled together. */
    lemma NeverBothWays()
      requires Valid()
      ensures !(dma4En && (dma5En || re)) && (driverTransmits <==> !re)
      ensures dma4En || dma5En || re ==> rtuLock && locked
    {
    }

    constructor ()
      ensures Valid() && Begins(State())
    {
      startMonitor, locked, valCntCurrent, timeoutMs, statusRegister := false, false, 0, 0, 0;
      callback := MasterSendReq;
      dma4En, dma5En, re, tim2Cen, tim2Uif, driverTransmits := false, false, false, false, false, true;
      rtuLock, rtuTimeoutMs := false, 0;
      accepted, callbacks, wraps := 0, [], 0;
    }

    /** init_timeout_ms. */
    method InitTimeout(timeout: nat, val: nat)
      modifies this`valCntCurrent, this`timeoutMs
      ensures valCntCurrent == val && timeoutMs == timeout
    {
      valCntCurrent := val;
      timeoutMs := timeout;
    }

    /** is_timeout_ms: a SysTick value above the last one is a wrap of the down-counter. */
    method IsTimeout(val: nat) returns (over: bool)
      modifies this`valCntCurrent, this`timeoutMs, this`wraps
      ensures valCntCurrent == val && timeoutMs == Count(old(timeoutMs), old(valCntCurrent), val)
      ensures wraps == old(wraps) + if val > old(valCntCurrent) then 1 else 0
      ensures over <==> timeoutMs == 0
    {
      if val > valCntCurrent {
        if timeoutMs != 0 {
          timeoutMs := timeoutMs - 1;
        }
        wraps := wraps + 1;
      }
      valCntCurrent := val;
      over := timeoutMs == 0;
    }

    /** uart1_transmit, with the lock tried once: nothing else can hold it here. */
    method Transmit(size: nat, timeout: nat, val: nat) returns (status: UartStatus)
      modifies this`startMonitor, this`locked, this`driverTransmits, this`re, this`dma4En, this`dma5En,
               this`statusRegister, this`callback, this`valCntCurrent, this`timeoutMs
      ensures status == if size == 0 then UartOk else if old(dma4En) || old(re) then UartBusy
                        else if old(locked) then UartLocked else UartOk
      ensures status == UartOk && size > 0 ==>
        && startMonitor && locked && driverTransmits && !re && !dma5En && dma4En
        && statusRegister == 0 && callback == MasterSendReq && valCntCurrent == val && timeoutMs == timeout
      ensures status != UartOk || size == 0 ==> unchanged(this)
    {
      if size == 0 {
        return UartOk;
      }
      if dma4En || re {
        return UartBusy;
      }
      if locked {
        return UartLocked;
      }
      locked := true;
      startMonitor := false;
      driverTransmits := true;
      re := false;
      dma4En := false;
      dma5En := false;
      statusRegister := 0;
      callback := MasterSendReq;
      InitTimeout(timeout, val);
      startMonitor := true;
      dma4En := true;
      status := UartOk;
    }

    /** uart1_receive. */
    method Receive(timeout: nat, val: nat)
      modifies this`startMonitor, this`driverTransmits, this`re, this`dma4En, this`dma5En,
               this`statusRegister, this`callback, this`valCntCurrent, this`timeoutMs
      ensures startMonitor && !driverTransmits && re && dma5En && !dma4En
      ensures statusRegister == 0 && callback == MasterReceive && valCntCurrent == val && timeoutMs == timeout
    {
      startMonitor := false;
      driverTransmits := false;
      re := false;
      dma5En := false;
      dma4En := false;
      statusRegister := 0;
      callback := MasterReceive;
      InitTimeout(timeout, val);
      startMonitor := true;
      dma5En := true;
      re := true;
    }

    /** master_send_req from where it tries the lock; `prepared` is whether the request could be built, and `size` how
        long it is. The answer says whether the request was accepted: with the lock free and the request built, it
        always is. */
    method MasterSend(prepared: bool, size: nat, timeout: nat, val: nat) returns (ok: bool)
      requires Valid() && size > 0
      modifies this
      ensures Valid() && State() == After(old(State()), SendReq(prepared, timeout, val))
      ensures ok <==> old(Phase()) == Idle && prepared
    {
      StepKeepsInv(State(), SendReq(prepared, timeout, val));
      hide Inv;
      if rtuLock {
        return false;
      }
      rtuLock := true;
      rtuTimeoutMs := timeout;
      if !prepared {
        rtuLock := false;
        return false;
      }
      var status := Transmit(size, timeout, val);
      ok := status == UartOk;
      UnlockOnError(ok);
      accepted, wraps := accepted + (if ok then 1 else 0), 0;
    }

    /** sys_unlock when the transmission could not be started. */
    method UnlockOnError(ok: bool)
      modifies this`rtuLock
      ensures rtuLock == (old(rtuLock) && ok)
    {
      if !ok {
        rtuLock := false;
      }
    }

    /** DMA1_Channel4_IRQHandler. */
    method Dma4Handler(teif: bool, tcif: bool)
      requires Valid() && dma4En
      modifies this`statusRegister, this`tim2Uif, this`tim2Cen
      ensures Valid() && State() == After(old(State()), Dma4(teif, tcif))
    {
      StepKeepsInv(State(), Dma4(teif, tcif));
      hide Inv;
      if teif {
        statusRegister := E_DMA1_CH4_TRANSMIT_ERROR;
        return;
      }
      if tcif {
        tim2Uif := false;
        tim2Cen := true;
        statusRegister := UART1_TRANSFER_COMPLETE;
      }
    }

    /** DMA1_Channel5_IRQHandler. */
    method Dma5Handler(teif: bool, tcif: bool)
      requires Valid()
      modifies this`statusRegister
      ensures Valid() && State() == After(old(State()), Dma5(teif, tcif))
    {
      StepKeepsInv(State(), Dma5(teif, tcif));
      hide Inv;
      if teif {
        statusRegister := E_DMA1_CH5_RECEIVE_ERROR;
        return;
      }
      if tcif {
        statusRegister := E_DMA5_BUFFER_OVERFLOW;
      }
    }

    /** USART1_IRQHandler; `errors` are the low four bits ORE, NE, FE and PE. */
    method UsartHandler(errors: nat, idle: bool)
      requires Valid() && errors < 16
      modifies this`statusRegister
      ensures Valid() && State() == After(old(State()), Usart(errors, idle))
    {
      StepKeepsInv(State(), Usart(errors, idle));
      hide Inv;
      if errors != 0 {
        statusRegister := E_RECEIVE_ERROR_BASE + errors;
        return;
      }
      if idle {
        statusRegister := UART1_RECEIVE_COMPLETE;
      }
    }

    /** The one-pulse timer runs out. */
    method Tim2Hardware()
      requires Valid() && tim2Cen
      modifies this`tim2Cen, this`tim2Uif
      ensures Valid() && State() == After(old(State()), Tim2Update)
    {
      StepKeepsInv(State(), Tim2Update);
      hide Inv;
      tim2Cen := false;
      tim2Uif := true;
    }

    /** TIM2_IRQHandler. */
    method Tim2Handler(val: nat)
      requires Valid()
      modifies this
      ensures Valid() && State() == After(old(State()), Tim2(val))
    {
      StepKeepsInv(State(), Tim2(val));
      hide Inv;
      if tim2Uif {
        tim2Uif := false;
        Receive(rtuTimeoutMs, val);
      }
    }

    /** _master_send_req and _master_receive: the lock is given back, then the caller is told. */
    method CallBack(status: nat)
      modifies this`rtuLock, this`callbacks
      ensures if callback == MasterSendReq && status == UART1_TRANSFER_COMPLETE then unchanged(this)
              else !rtuLock && callbacks == old(callbacks) + [status]
    {
      match callback {
        case MasterSendReq =>
          if status != UART1_TRANSFER_COMPLETE {
            rtuLock := false;
            callbacks := callbacks + [status];
          }
        case MasterReceive =>
          rtuLock := false;
          callbacks := callbacks + [status];
      }
    }

    /** The end of a transaction. */
    method Finish(status: nat)
      requires status != UART1_TRANSFER_COMPLETE
      modifies this`tim2Cen, this`tim2Uif, this`dma4En, this`dma5En, this`re, this`startMonitor, this`locked,
               this`driverTransmits, this`rtuLock, this`callbacks
      ensures !tim2Cen && !tim2Uif && !dma4En && !dma5En && !re && !startMonitor && !locked && driverTransmits
      ensures !rtuLock && callbacks == old(callbacks) + [status]
    {
      tim2Cen := false;
      tim2Uif := false;
      dma4En := false;
      dma5En := false;
      re := false;
      startMonitor := false;
      locked := false;
      driverTransmits := true;
      CallBack(status);
    }

    /** process_uart1_time_event. */
    method ProcessTimeEvent(val: nat)
      requires Valid()
      modifies this
      ensures Valid() && State() == After(old(State()), Poll(val))
    {
      StepKeepsInv(State(), Poll(val));
      hide Inv;
      if startMonitor {
        var status := statusRegister;
        if status == UART1_TRANSFER_COMPLETE {
          var over := IsTimeout(val);
          if over {
            Finish(E_UART1_TIMEOUT);
          }
        } else if status == UART1_RECEIVE_COMPLETE {
          Finish(RECEIVE_AND_PROCESS_DATA_COMPLETE);
        } else if status != 0 {
          Finish(status);
        } else {
          var over := IsTimeout(val);
          if over {
            Finish(E_UART1_TIMEOUT);
          }
        }
      }
    }
  }
}
