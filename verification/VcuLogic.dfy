/** The pure safety predicates over one telemetry snapshot. */
module VcuPredicates {
  import opened Words
  import opened VehicleData
  import BmsAlgo

  datatype VcuState = INIT | IDLE | READY | DRIVE | EMERGENCY_STOP | FAULT

  const WARN_MIN_PACK_DECI_V := 720
  const WARN_MAX_PACK_DECI_V := 852
  const WARN_MAX_TEMP_C := 55
  const CRITICAL_MAX_TEMP_C := 70
  const WARN_MAX_CHARGE_CENTI_A := 1100
  const CRITICAL_MAX_CHARGE_CENTI_A := 1300
  const WARN_MAX_DISCHARGE_CENTI_A := 900
  const CRITICAL_MAX_DISCHARGE_CENTI_A := 1500

  predicate IsCurrentCritical(centiA: int32) {
    centiA >= CRITICAL_MAX_CHARGE_CENTI_A || centiA <= -CRITICAL_MAX_DISCHARGE_CENTI_A
  }

  predicate IsCurrentWarning(centiA: int32) {
    centiA >= WARN_MAX_CHARGE_CENTI_A || centiA <= -WARN_MAX_DISCHARGE_CENTI_A
  }

  /** The cell limits are in mV and the field in 0.1 mV; the code compares them as they are. */
  predicate HasWarningCondition(d: TelemetryData) {
    && d.bmsDataValid
    && (|| (d.cellVoltageDataValid &&
             (d.cellVoltageMinDeciMv < BmsAlgo.CELL_UNDERVOLT_WARN_MV ||
              d.cellVoltageMaxDeciMv > BmsAlgo.CELL_OVERVOLT_WARN_MV))
        || d.packVoltageDeciV <= WARN_MIN_PACK_DECI_V
        || d.packVoltageDeciV >= WARN_MAX_PACK_DECI_V
        || d.tempHighestC >= WARN_MAX_TEMP_C
        || IsCurrentWarning(d.currentCentiA))
  }

  predicate HasCriticalCondition(d: TelemetryData, state: VcuState) {
    || d.motorErrorFlags != 0
    || (d.bmsDataValid && d.bmsSystemState == 4)
    || (d.motorTimeoutActive && state != IDLE)
    || (d.bmsTimeoutActive && state != IDLE)
    || (d.bmsDataValid &&
         (|| (d.cellVoltageDataValid &&
               (d.cellVoltageMinDeciMv < BmsAlgo.CELL_UNDERVOLT_CRIT_MV ||
                d.cellVoltageMaxDeciMv > BmsAlgo.CELL_OVERVOLT_CRIT_MV))
          || d.packVoltageDeciV <= CRITICAL_MIN_PACK_DECI_V
          || d.packVoltageDeciV >= CRITICAL_MAX_PACK_DECI_V
          || d.tempHighestC >= CRITICAL_MAX_TEMP_C
          || IsCurrentCritical(d.currentCentiA)))
  }

  predicate IsResetInterlockSatisfied(d: TelemetryData, state: VcuState) {
    && !(d.motorErrorFlags != 0 || (d.bmsDataValid && d.bmsSystemState == 4))
    && !HasCriticalCondition(d, state)
  }

  predicate IsReadyEntryPermitted(d: TelemetryData) {
    d.bmsDataValid && !HasCriticalCondition(d, IDLE) && !HasWarningCondition(d)
  }
}

/** The vehicle's state machine: what one tick computes, and the class that runs it. */
module VcuLogic {
  import opened Words
  import opened VehicleData
  import opened VcuPredicates
  import opened RelayManager

  const TASK_PERIOD_MS := 20
  const CONTACTOR_OPEN_DELAY_MS := 20
  const REASSERT_PERIOD_MS := 1000
  const QUEUE_LENGTH := 8

  datatype VcuEvent = NONE | START_REQUEST | DRIVE_ENABLE | EMERGENCY_STOP_EVENT | FAULT_DETECTED | RESET

  /** A command to the world outside the state machine. */
  datatype Act = ZERO_TORQUE | ALL_ON | ALL_OFF(silent: bool) | CLEAR_FAULT

  datatype Vcu = Vcu(
    state: VcuState,
    queueReady: bool,
    queue: seq<VcuEvent>,
    mutexReady: bool,
    stateTimer: uint32,
    uptimeMs: uint32,
    data: TelemetryData,
    eStopPending: bool,
    faultPending: bool,
    openedInEstop: bool,
    openedInFault: bool,
    lastEstopLogMs: uint32,
    lastFaultLogMs: uint32)

  const UNINITIALIZED: Vcu :=
    Vcu(INIT, false, [], false, 0, 0, ZERO_DATA, false, false, false, false, 0, 0)

  /** `(uint32_t)-1000`. */
  const LOG_LONG_AGO: uint32 := 0xFFFF_FC18

  function TransitionTo(v: Vcu, next: VcuState): Vcu {
    var w := v.(state := next, stateTimer := 0);
    if next == EMERGENCY_STOP then w.(openedInEstop := false, lastEstopLogMs := LOG_LONG_AGO)
    else if next == FAULT then w.(openedInFault := false, lastFaultLogMs := LOG_LONG_AGO)
    else w
  }

  predicate HvLive(state: VcuState) {
    state == READY || state == DRIVE
  }

  /** The staged shutdown: torque first, contactors after the delay, then again once a second. */
  function ShutdownActs(timer: uint32, alreadyOpen: bool, lastLog: uint32): seq<Act> {
    (if timer <= TASK_PERIOD_MS then [ZERO_TORQUE] else [])
    + (if timer < CONTACTOR_OPEN_DELAY_MS then []
       else if !alreadyOpen then [ALL_OFF(false)]
       else if Sub32(timer, lastLog) >= REASSERT_PERIOD_MS then [ALL_OFF(true)]
       else [])
  }

  function NextLog(timer: uint32, lastLog: uint32): uint32 {
    if Sub32(timer, lastLog) >= REASSERT_PERIOD_MS then timer else lastLog
  }

  /** The periodic logic of the current state. */
  function Handle(v: Vcu): (Vcu, seq<Act>) {
    match v.state
    case READY => (v, if v.stateTimer <= TASK_PERIOD_MS then [ALL_ON] else [])
    case EMERGENCY_STOP =>
      (v.(openedInEstop := v.openedInEstop || v.stateTimer >= CONTACTOR_OPEN_DELAY_MS,
          lastEstopLogMs := NextLog(v.stateTimer, v.lastEstopLogMs)),
       ShutdownActs(v.stateTimer, v.openedInEstop, v.lastEstopLogMs))
    case FAULT =>
      (v.(openedInFault := v.openedInFault || v.stateTimer >= CONTACTOR_OPEN_DELAY_MS,
          lastFaultLogMs := NextLog(v.stateTimer, v.lastFaultLogMs)),
       ShutdownActs(v.stateTimer, v.openedInFault, v.lastFaultLogMs))
    case _ => (v, [])
  }

  /** One polled event in a state that no trip has changed. */
  function OnEvent(v: Vcu, event: VcuEvent, actuatorFault: bool): (Vcu, seq<Act>) {
    if event == EMERGENCY_STOP_EVENT then (TransitionTo(v, EMERGENCY_STOP), [])
    else if event == FAULT_DETECTED then (if v.state != FAULT then TransitionTo(v, FAULT) else v, [])
    else if event == RESET && (v.state == FAULT || v.state == EMERGENCY_STOP) then
      if !IsResetInterlockSatisfied(v.data, v.state) then (v, [])
      else (TransitionTo(v, IDLE), [CLEAR_FAULT])
    else if v.state == IDLE && event == START_REQUEST && IsReadyEntryPermitted(v.data) && !actuatorFault then
      Handle(TransitionTo(v, READY))
    else if v.state == READY && event == DRIVE_ENABLE then Handle(TransitionTo(v, DRIVE))
    else Handle(v)
  }

  function Advance(v: Vcu): Vcu {
    v.(stateTimer := Add32(v.stateTimer, TASK_PERIOD_MS), uptimeMs := Add32(v.uptimeMs, TASK_PERIOD_MS))
  }

  /** A pending trip that changes the state ends the run before the actuator check. */
  predicate TripsAtOnce(v: Vcu) {
    (v.eStopPending && v.state != EMERGENCY_STOP) || (v.faultPending && v.state != FAULT)
  }

  /** The run's first part: the two bypass flags, E-STOP before FAULT. */
  function AfterTrip(v: Vcu): Vcu
    requires TripsAtOnce(v)
  {
    if v.eStopPending && v.state != EMERGENCY_STOP then TransitionTo(v.(eStopPending := false), EMERGENCY_STOP)
    else TransitionTo(v.(eStopPending := false, faultPending := false), FAULT)
  }

  /** Both bypass flags are read and cleared in every run that passes them. */
  function ClearTrips(v: Vcu): Vcu {
    v.(eStopPending := false, faultPending := false)
  }

  /** The run's second part, given the latched actuator fault that the periodic check left. */
  function AfterCheck(v: Vcu, actuatorFault: bool): (Vcu, seq<Act>) {
    if HvLive(v.state) && actuatorFault then (TransitionTo(v, FAULT), [])
    else if (v.state == IDLE || HvLive(v.state)) && HasCriticalCondition(v.data, v.state) then
      (TransitionTo(v, FAULT), [])
    else if v.queue == [] then Handle(v)
    else OnEvent(v.(queue := v.queue[1..]), v.queue[0], actuatorFault)
  }

  function Perform(r: Relay, act: Act): Relay {
    match act
    case ZERO_TORQUE => r
    case ALL_ON => AfterAllOn(r)
    case ALL_OFF(_) => AfterAllOff(r)
    case CLEAR_FAULT => r.(fault := false)
  }

  function PerformAll(r: Relay, acts: seq<Act>): Relay {
    if acts == [] then r else Perform(PerformAll(r, acts[..|acts| - 1]), acts[|acts| - 1])
  }

  lemma PerformShutdown(r: Relay, silent: bool)
    ensures PerformAll(r, []) == PerformAll(r, [ZERO_TORQUE]) == r
    ensures PerformAll(r, [ALL_OFF(silent)]) == PerformAll(r, [ZERO_TORQUE, ALL_OFF(silent)]) == AfterAllOff(r)
  {
    assert [ZERO_TORQUE][..0] == [] && [ALL_OFF(silent)][..0] == [];
    assert [ZERO_TORQUE, ALL_OFF(silent)][..1] == [ZERO_TORQUE];
    assert PerformAll(r, []) == r;
    assert PerformAll(r, [ZERO_TORQUE]) == Perform(r, ZERO_TORQUE);
  }

  /** One `run()` of the state machine joined with its relay driver. */
  function AfterRun(v0: Vcu, r: Relay): (Vcu, Relay, seq<Act>) {
    var v := Advance(v0);
    if TripsAtOnce(v) then (AfterTrip(v), r, [])
    else
      var checked := AfterVerifyIfDue(r, v.uptimeMs);
      var (after, acts) := AfterCheck(ClearTrips(v), checked.fault);
      (after, PerformAll(checked, acts), acts)
  }

  function AfterPost(v: Vcu, event: VcuEvent): Vcu {
    if !v.queueReady then v
    else if event == EMERGENCY_STOP_EVENT then v.(eStopPending := true)
    else if event == FAULT_DETECTED then v.(faultPending := true)
    else if |v.queue| < QUEUE_LENGTH then v.(queue := v.queue + [event])
    else v
  }

  function AfterSetTelemetry(v: Vcu, d: TelemetryData): Vcu {
    if v.mutexReady then v.(data := d) else v
  }

  /** Creating the queue or the mutex may fail; initialisation then stops where it is. */
  function AfterInit(v: Vcu, r: Relay, queueCreated: bool, mutexCreated: bool): (Vcu, Relay) {
    var v1 := v.(queueReady := queueCreated, queue := []);
    if !queueCreated then (v1, r)
    else
      var v2 := v1.(mutexReady := mutexCreated);
      if !mutexCreated then (v2, r)
      else (TransitionTo(v2, IDLE), AfterAllOff(r))
  }

  class Logic {
    const relays: Driver
    var state: VcuState
    var queueReady: bool
    var eventQueue: seq<VcuEvent>
    var mutexReady: bool
    var stateTimer: uint32
    var uptimeMs: uint32
    var latestData: TelemetryData
    var eStopPending: bool
    var faultPending: bool
    var relaysOpenedInEstop: bool
    var relaysOpenedInFault: bool
    var lastEstopLogMs: uint32
    var lastFaultLogMs: uint32

    ghost function View(): Vcu
      reads this
    {
      Vcu(state, queueReady, eventQueue, mutexReady, stateTimer, uptimeMs, latestData, eStopPending, faultPending,
          relaysOpenedInEstop, relaysOpenedInFault, lastEstopLogMs, lastFaultLogMs)
    }

    constructor (relays: Driver)
      ensures this.relays == relays && View() == UNINITIALIZED
    {
      this.relays := relays;
      state, queueReady, eventQueue, mutexReady := INIT, false, [], false;
      stateTimer, uptimeMs, latestData := 0, 0, ZERO_DATA;
      eStopPending, faultPending, relaysOpenedInEstop, relaysOpenedInFault := false, false, false, false;
      lastEstopLogMs, lastFaultLogMs := 0, 0;
    }

    method Init(queueCreated: bool, mutexCreated: bool)
      modifies this, relays
      ensures (View(), relays.View()) == AfterInit(old(View()), old(relays.View()), queueCreated, mutexCreated)
    {
      queueReady, eventQueue := queueCreated, [];
      if !queueCreated {
        return;
      }
      mutexReady := mutexCreated;
      if !mutexCreated {
        return;
      }
      relays.AllOff(false);
      Transition(IDLE);
    }

    method PostEvent(event: VcuEvent)
      modifies this
      ensures View() == AfterPost(old(View()), event)
    {
      if !queueReady {
        return;
      }
      if event == EMERGENCY_STOP_EVENT {
        eStopPending := true;
        return;
      }
      if event == FAULT_DETECTED {
        faultPending := true;
        return;
      }
      if |eventQueue| < QUEUE_LENGTH {
        eventQueue := eventQueue + [event];
      }
    }

    method SetTelemetryData(d: TelemetryData)
      modifies this
      ensures View() == AfterSetTelemetry(old(View()), d)
    {
      if !mutexReady {
        return;
      }
      latestData := d;
    }

    method Transition(next: VcuState)
      modifies this
      ensures View() == TransitionTo(old(View()), next)
    {
      state := next;
      stateTimer := 0;
      if next == EMERGENCY_STOP {
        relaysOpenedInEstop := false;
        lastEstopLogMs := LOG_LONG_AGO;
      } else if next == FAULT {
        relaysOpenedInFault := false;
        lastFaultLogMs := LOG_LONG_AGO;
      }
    }

    method HandleReady() returns (acts: seq<Act>)
      requires state == READY
      modifies relays
      ensures (View(), acts) == Handle(old(View())) && relays.View() == PerformAll(old(relays.View()), acts)
    {
      acts := [];
      if stateTimer <= TASK_PERIOD_MS {
        relays.AllOn();
        acts := [ALL_ON];
      }
    }

    method HandleEmergencyStop() returns (acts: seq<Act>)
      requires state == EMERGENCY_STOP
      modifies this, relays
      ensures (View(), acts) == Handle(old(View())) && relays.View() == PerformAll(old(relays.View()), acts)
    {
      acts := if stateTimer <= TASK_PERIOD_MS then [ZERO_TORQUE] else [];
      PerformShutdown(relays.View(), false);
      PerformShutdown(relays.View(), true);
      if stateTimer >= CONTACTOR_OPEN_DELAY_MS {
        if !relaysOpenedInEstop {
          relays.AllOff(false);
          acts := acts + [ALL_OFF(false)];
          relaysOpenedInEstop := true;
        } else if Sub32(stateTimer, lastEstopLogMs) >= REASSERT_PERIOD_MS {
          relays.AllOff(true);
          acts := acts + [ALL_OFF(true)];
        }
      }
      assert acts == ShutdownActs(stateTimer, old(relaysOpenedInEstop), lastEstopLogMs);
      if Sub32(stateTimer, lastEstopLogMs) >= REASSERT_PERIOD_MS {
        lastEstopLogMs := stateTimer;
      }
    }

    method HandleFault() returns (acts: seq<Act>)
      requires state == FAULT
      modifies this, relays
      ensures (View(), acts) == Handle(old(View())) && relays.View() == PerformAll(old(relays.View()), acts)
    {
      acts := if stateTimer <= TASK_PERIOD_MS then [ZERO_TORQUE] else [];
      PerformShutdown(relays.View(), false);
      PerformShutdown(relays.View(), true);
      if stateTimer >= CONTACTOR_OPEN_DELAY_MS {
        if !relaysOpenedInFault {
          relays.AllOff(false);
          acts := acts + [ALL_OFF(false)];
          relaysOpenedInFault := true;
        } else if Sub32(stateTimer, lastFaultLogMs) >= REASSERT_PERIOD_MS {
          relays.AllOff(true);
          acts := acts + [ALL_OFF(true)];
        }
      }
      assert acts == ShutdownActs(stateTimer, old(relaysOpenedInFault), lastFaultLogMs);
      if Sub32(stateTimer, lastFaultLogMs) >= REASSERT_PERIOD_MS {
        lastFaultLogMs := stateTimer;
      }
    }

    method HandleState() returns (acts: seq<Act>)
      modifies this, relays
      ensures (View(), acts) == Handle(old(View())) && relays.View() == PerformAll(old(relays.View()), acts)
    {
      match state
      case READY => acts := HandleReady();
      case EMERGENCY_STOP => acts := HandleEmergencyStop();
      case FAULT => acts := HandleFault();
      case _ => acts := [];
    }

    method Dispatch(event: VcuEvent) returns (acts: seq<Act>)
      modifies this, relays
      ensures (View(), acts) == OnEvent(old(View()), event, old(relays.actuatorFault))
      ensures relays.View() == PerformAll(old(relays.View()), acts)
    {
      acts := [];
      if event == EMERGENCY_STOP_EVENT {
        Transition(EMERGENCY_STOP);
        return;
      }
      if event == FAULT_DETECTED {
        if state != FAULT {
          Transition(FAULT);
        }
        return;
      }
      if event == RESET && (state == FAULT || state == EMERGENCY_STOP) {
        if !IsResetInterlockSatisfied(latestData, state) {
          return;
        }
        relays.ClearActuatorFault();
        Transition(IDLE);
        acts := [CLEAR_FAULT];
        return;
      }
      if state == IDLE {
        if event == START_REQUEST && IsReadyEntryPermitted(latestData) && !relays.actuatorFault {
          Transition(READY);
        }
      } else if state == READY {
        if event == DRIVE_ENABLE {
          Transition(DRIVE);
        }
      }
      acts := HandleState();
    }

    method RunAfterCheck() returns (acts: seq<Act>)
      requires !eStopPending && !faultPending
      modifies this, relays
      ensures (View(), acts) == AfterCheck(old(View()), old(relays.actuatorFault))
      ensures relays.View() == PerformAll(old(relays.View()), acts)
    {
      acts := [];
      if (state == READY || state == DRIVE) && relays.actuatorFault {
        Transition(FAULT);
        return;
      }
      if (state == IDLE || state == READY || state == DRIVE) && HasCriticalCondition(latestData, state) {
        Transition(FAULT);
        return;
      }
      if eventQueue != [] {
        var event := eventQueue[0];
        eventQueue := eventQueue[1..];
        acts := Dispatch(event);
      } else {
        acts := HandleState();
      }
    }

    /** The two bypass flags at the top of `run`. */
    method TakeTrips() returns (tripped: bool)
      modifies this
      ensures tripped == TripsAtOnce(old(View()))
      ensures View() == if tripped then AfterTrip(old(View())) else ClearTrips(old(View()))
    {
      if eStopPending {
        eStopPending := false;
        if state != EMERGENCY_STOP {
          Transition(EMERGENCY_STOP);
          return true;
        }
      }
      if faultPending {
        faultPending := false;
        if state != FAULT {
          Transition(FAULT);
          return true;
        }
      }
      return false;
    }

    /** One tick; `acts` is what it commanded. */
    method Run() returns (acts: seq<Act>)
      modifies this, relays
      ensures (View(), relays.View(), acts) == AfterRun(old(View()), old(relays.View()))
    {
      hide AfterCheck, AfterTrip, TripsAtOnce, AfterVerifyIfDue, PerformAll;
      stateTimer := Add32(stateTimer, TASK_PERIOD_MS);
      uptimeMs := Add32(uptimeMs, TASK_PERIOD_MS);
      var tripped := TakeTrips();
      if tripped {
        return [];
      }
      relays.VerifyIfDue(uptimeMs);
      acts := RunAfterCheck();
    }
  }
}
