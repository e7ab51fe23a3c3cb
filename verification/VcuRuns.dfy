/** What the vehicle state machine keeps over whole runs, for every interleaving of posts, snapshots and ticks. */
module VcuRuns {
  import opened Words
  import opened VehicleData
  import opened VcuPredicates
  import opened VcuLogic
  import opened RelayManager

  /** What other tasks do between two ticks. */
  datatype Input = Post(event: VcuEvent) | Snapshot(d: TelemetryData)

  /** The inputs before a tick, and the actuator fault that the tick's check leaves latched. */
  datatype Round = Round(inputs: seq<Input>, fault: bool)

  function Receive(v: Vcu, inputs: seq<Input>): Vcu {
    if inputs == [] then v
    else
      var before := Receive(v, inputs[..|inputs| - 1]);
      match inputs[|inputs| - 1]
      case Post(event) => AfterPost(before, event)
      case Snapshot(d) => AfterSetTelemetry(before, d)
  }

  /** One `run()`, given the fault flag that its actuator check leaves. */
  function Tick(v0: Vcu, fault: bool): (Vcu, seq<Act>) {
    var v := Advance(v0);
    if TripsAtOnce(v) then (AfterTrip(v), []) else AfterCheck(ClearTrips(v), fault)
  }

  function After(v: Vcu, rounds: seq<Round>, k: nat): Vcu
    requires k <= |rounds|
    decreases k, 0
  {
    if k == 0 then v else Tick(Before(v, rounds, k - 1), rounds[k - 1].fault).0
  }

  /** The machine as the tick of round k finds it. */
  function Before(v: Vcu, rounds: seq<Round>, k: nat): Vcu
    requires k < |rounds|
    decreases k, 1
  {
    Receive(After(v, rounds, k), rounds[k].inputs)
  }

  function ActsAt(v: Vcu, rounds: seq<Round>, k: nat): seq<Act>
    requires k < |rounds|
  {
    Tick(Before(v, rounds, k), rounds[k].fault).1
  }

  // ---------------------------------------------------------------- one run, by cases

  predicate Stopped(state: VcuState) {
    state == EMERGENCY_STOP || state == FAULT
  }

  predicate IsTrip(event: VcuEvent) {
    event == EMERGENCY_STOP_EVENT || event == FAULT_DETECTED
  }

  function OpenedIn(v: Vcu): bool {
    if v.state == EMERGENCY_STOP then v.openedInEstop else v.openedInFault
  }

  function LastLogIn(v: Vcu): uint32 {
    if v.state == EMERGENCY_STOP then v.lastEstopLogMs else v.lastFaultLogMs
  }

  /** What a transition to a stopped state leaves. */
  predicate JustStopped(v: Vcu) {
    Stopped(v.state) && v.stateTimer == 0 && !OpenedIn(v) && LastLogIn(v) == LOG_LONG_AGO
  }

  predicate PollsReset(v: Vcu) {
    v.queue != [] && v.queue[0] == RESET
  }

  /** Why READY, DRIVE or IDLE is entered on an event. */
  predicate Earns(v: Vcu, event: VcuEvent, fault: bool, next: VcuState) {
    || (next == READY && v.state == IDLE && event == START_REQUEST && IsReadyEntryPermitted(v.data) && !fault)
    || (next == DRIVE && v.state == READY && event == DRIVE_ENABLE)
    || (next == IDLE && Stopped(v.state) && event == RESET && IsResetInterlockSatisfied(v.data, v.state))
  }

  /** The fields that no run changes. */
  predicate SameSurroundings(v: Vcu, w: Vcu) {
    && w.queueReady == v.queueReady && w.mutexReady == v.mutexReady && w.data == v.data
    && w.uptimeMs == v.uptimeMs
  }

  /** The effect of the periodic logic in a stopped state. */
  predicate HandledStop(v: Vcu, w: Vcu, acts: seq<Act>) {
    && w.stateTimer == v.stateTimer
    && acts == ShutdownActs(v.stateTimer, OpenedIn(v), LastLogIn(v))
    && OpenedIn(w) == (OpenedIn(v) || v.stateTimer >= CONTACTOR_OPEN_DELAY_MS)
    && LastLogIn(w) == NextLog(v.stateTimer, LastLogIn(v))
  }

  lemma HandleFacts(v: Vcu)
    ensures var (w, acts) := Handle(v);
            && w.state == v.state && w.queue == v.queue && SameSurroundings(v, w) && w.stateTimer == v.stateTimer
            && w.eStopPending == v.eStopPending && w.faultPending == v.faultPending
            && (ALL_ON in acts ==> v.state == READY)
            && (v.state == READY ==> acts == if v.stateTimer <= TASK_PERIOD_MS then [ALL_ON] else [])
            && (Stopped(v.state) ==> HandledStop(v, w, acts))
  {
  }

  lemma TransitionFacts(v: Vcu, next: VcuState)
    ensures var w := TransitionTo(v, next);
            && w.state == next && w.stateTimer == 0 && w.queue == v.queue && SameSurroundings(v, w)
            && w.eStopPending == v.eStopPending && w.faultPending == v.faultPending
            && (Stopped(next) ==> JustStopped(w))
  {
    if next == EMERGENCY_STOP {
    } else if next == FAULT {
    }
  }

  lemma OnEventSurroundings(v: Vcu, event: VcuEvent, fault: bool)
    ensures var w := OnEvent(v, event, fault).0;
            && w.queue == v.queue && SameSurroundings(v, w)
            && w.eStopPending == v.eStopPending && w.faultPending == v.faultPending
  {
    hide TransitionTo, Handle, HasCriticalCondition, IsReadyEntryPermitted, IsResetInterlockSatisfied;
    TransitionFacts(v, EMERGENCY_STOP);
    TransitionFacts(v, FAULT);
    TransitionFacts(v, IDLE);
    TransitionFacts(v, READY);
    TransitionFacts(v, DRIVE);
    HandleFacts(v);
    HandleFacts(TransitionTo(v, READY));
    HandleFacts(TransitionTo(v, DRIVE));
  }

  lemma OnEventWays(v: Vcu, event: VcuEvent, fault: bool)
    ensures var (w, acts) := OnEvent(v, event, fault);
            && (w.state != v.state ==> Earns(v, event, fault, w.state) || (IsTrip(event) && Stopped(w.state)))
            && (ALL_ON in acts ==> w.state == READY)
  {
    hide TransitionTo, Handle, HasCriticalCondition, IsReadyEntryPermitted, IsResetInterlockSatisfied;
    TransitionFacts(v, EMERGENCY_STOP);
    TransitionFacts(v, FAULT);
    TransitionFacts(v, IDLE);
    TransitionFacts(v, READY);
    TransitionFacts(v, DRIVE);
    HandleFacts(v);
    HandleFacts(TransitionTo(v, READY));
    HandleFacts(TransitionTo(v, DRIVE));
  }

  predicate StaysReady(v: Vcu, w: Vcu, acts: seq<Act>) {
    w.stateTimer == v.stateTimer && acts == if v.stateTimer <= TASK_PERIOD_MS then [ALL_ON] else []
  }

  lemma OnEventCloses(v: Vcu, event: VcuEvent, fault: bool)
    ensures var (w, acts) := OnEvent(v, event, fault);
            && (Earns(v, event, fault, READY) ==> w.state == READY && w.stateTimer == 0 && acts == [ALL_ON])
            && (v.state == READY && w.state == READY ==> StaysReady(v, w, acts))
  {
    hide TransitionTo, Handle, HasCriticalCondition, IsReadyEntryPermitted, IsResetInterlockSatisfied;
    TransitionFacts(v, EMERGENCY_STOP);
    TransitionFacts(v, FAULT);
    TransitionFacts(v, IDLE);
    TransitionFacts(v, READY);
    TransitionFacts(v, DRIVE);
    HandleFacts(v);
    HandleFacts(TransitionTo(v, READY));
    HandleFacts(TransitionTo(v, DRIVE));
  }

  lemma OnEventStopped(v: Vcu, event: VcuEvent, fault: bool)
    requires Stopped(v.state) && !IsTrip(event) && OnEvent(v, event, fault).0.state == v.state
    ensures var (w, acts) := OnEvent(v, event, fault);
            if event == RESET then (w, acts) == (v, []) else HandledStop(v, w, acts)
  {
    hide Handle, HasCriticalCondition, IsReadyEntryPermitted, IsResetInterlockSatisfied;
    HandleFacts(v);
  }

  ghost predicate CleanQueue(v: Vcu) {
    |v.queue| <= QUEUE_LENGTH && forall i :: 0 <= i < |v.queue| ==> !IsTrip(v.queue[i])
  }

  /** The ways from one state to another in a run that no pending trip ends at once. */
  predicate WayIn(v: Vcu, fault: bool, next: VcuState) {
    || next == v.state
    || next == FAULT
    || (v.queue != [] && (Earns(v, v.queue[0], fault, next) || (IsTrip(v.queue[0]) && Stopped(next))))
  }

  lemma AfterCheckSurroundings(v: Vcu, fault: bool)
    ensures var w := AfterCheck(v, fault).0;
            && SameSurroundings(v, w) && w.eStopPending == v.eStopPending && w.faultPending == v.faultPending
            && (w.queue == v.queue || (v.queue != [] && w.queue == v.queue[1..]))
  {
    hide Handle, OnEvent, HasCriticalCondition;
    HandleFacts(v);
    if v.queue != [] {
      OnEventSurroundings(v.(queue := v.queue[1..]), v.queue[0], fault);
    }
  }

  lemma AfterCheckWays(v: Vcu, fault: bool)
    ensures var (w, acts) := AfterCheck(v, fault);
            && WayIn(v, fault, w.state)
            && (ALL_ON in acts ==> w.state == READY)
            && (v.state == READY && w.state == READY ==> StaysReady(v, w, acts))
  {
    hide Handle, OnEvent, HasCriticalCondition, IsReadyEntryPermitted, IsResetInterlockSatisfied;
    HandleFacts(v);
    if v.queue != [] {
      OnEventWays(v.(queue := v.queue[1..]), v.queue[0], fault);
      OnEventCloses(v.(queue := v.queue[1..]), v.queue[0], fault);
    }
  }

  /** In a stopped state that stays, a polled RESET was refused and returned early; otherwise the handler ran. */
  lemma AfterCheckStopped(v: Vcu, fault: bool)
    requires Stopped(v.state) && CleanQueue(v) && AfterCheck(v, fault).0.state == v.state
    ensures var (w, acts) := AfterCheck(v, fault);
            if PollsReset(v) then w == v.(queue := v.queue[1..]) && acts == [] else HandledStop(v, w, acts)
  {
    hide Handle, OnEvent, HasCriticalCondition, SameSurroundings;
    HandleFacts(v);
    if v.queue != [] {
      OnEventStopped(v.(queue := v.queue[1..]), v.queue[0], fault);
    }
  }

  /** A run that is not ended by a pending trip can only stop the machine in FAULT, and leaves it just stopped. */
  lemma AfterCheckStops(v: Vcu, fault: bool)
    requires CleanQueue(v) && Stopped(AfterCheck(v, fault).0.state) && AfterCheck(v, fault).0.state != v.state
    ensures JustStopped(AfterCheck(v, fault).0) && AfterCheck(v, fault).1 == []
  {
    hide Handle, OnEvent, HasCriticalCondition, IsReadyEntryPermitted, IsResetInterlockSatisfied;
    HandleFacts(v);
    if v.queue != [] {
      OnEventWays(v.(queue := v.queue[1..]), v.queue[0], fault);
    }
  }

  // ---------------------------------------------------------------- trips are never lost

  /** What inputs leave alone. */
  predicate SameMachine(v: Vcu, w: Vcu) {
    && w.state == v.state && w.queueReady == v.queueReady && w.mutexReady == v.mutexReady
    && w.stateTimer == v.stateTimer && w.uptimeMs == v.uptimeMs
    && w.openedInEstop == v.openedInEstop && w.openedInFault == v.openedInFault
    && w.lastEstopLogMs == v.lastEstopLogMs && w.lastFaultLogMs == v.lastFaultLogMs
  }

  lemma OneInputKeepsTrips(v: Vcu, input: Input)
    ensures var w := if input.Post? then AfterPost(v, input.event) else AfterSetTelemetry(v, input.d);
            && SameMachine(v, w)
            && (w.eStopPending <==> v.eStopPending || (v.queueReady && input == Post(EMERGENCY_STOP_EVENT)))
            && (w.faultPending <==> v.faultPending || (v.queueReady && input == Post(FAULT_DETECTED)))
  {
  }

  /** Whatever else arrives and however full the queue is, a trip is pending exactly when it was or was posted. */
  lemma {:induction false} ReceiveKeepsTrips(v: Vcu, inputs: seq<Input>)
    ensures var w := Receive(v, inputs);
            && SameMachine(v, w)
            && (w.eStopPending <==> v.eStopPending || (v.queueReady && Post(EMERGENCY_STOP_EVENT) in inputs))
            && (w.faultPending <==> v.faultPending || (v.queueReady && Post(FAULT_DETECTED) in inputs))
  {
    hide AfterPost, AfterSetTelemetry;
    if inputs != [] {
      var shorter, last := inputs[..|inputs| - 1], inputs[|inputs| - 1];
      ReceiveKeepsTrips(v, shorter);
      assert inputs == shorter + [last];
      OneInputKeepsTrips(Receive(v, shorter), last);
    }
  }

  /** A posted E-STOP ends the next run in EMERGENCY_STOP from any other state. */
  lemma EStopIsNeverLost(v: Vcu, inputs: seq<Input>, fault: bool)
    requires v.queueReady && Post(EMERGENCY_STOP_EVENT) in inputs && v.state != EMERGENCY_STOP
    ensures Tick(Receive(v, inputs), fault).0.state == EMERGENCY_STOP
  {
    hide AfterCheck;
    ReceiveKeepsTrips(v, inputs);
  }

  /** A posted fault ends the next run in FAULT from any other state, unless an E-STOP goes first; then the run after
      it ends in FAULT. */
  lemma FaultIsNeverLost(v: Vcu, inputs: seq<Input>, fault: bool, inputs2: seq<Input>, fault2: bool)
    requires v.queueReady && Post(FAULT_DETECTED) in inputs && v.state != FAULT
    ensures var w := Receive(v, inputs);
            var v1 := Tick(w, fault).0;
            if w.eStopPending && v.state != EMERGENCY_STOP
            then v1.state == EMERGENCY_STOP && Tick(Receive(v1, inputs2), fault2).0.state == FAULT
            else v1.state == FAULT
  {
    hide AfterCheck;
    ReceiveKeepsTrips(v, inputs);
    ReceiveKeepsTrips(Tick(Receive(v, inputs), fault).0, inputs2);
  }

  /** Before initialisation, and for ever after one that could not create the queue. */
  predicate Deaf(v: Vcu) {
    v.state == INIT && !v.queueReady && v.queue == [] && !v.eStopPending && !v.faultPending
  }

  lemma FailedInitIsDeaf(r: Relay, mutexCreated: bool)
    ensures Deaf(UNINITIALIZED) && Deaf(AfterInit(UNINITIALIZED, r, false, mutexCreated).0)
    ensures AfterInit(UNINITIALIZED, r, false, mutexCreated).1 == r
  {
  }

  /** Initialisation empties the queue and stops in INIT at a creation that fails; otherwise it enters IDLE with a
      fresh timer and, on a working bus, whatever the registers and the shadow held, with no relay energised. */
  lemma InitOpensContactors(v: Vcu, r: Relay, queueCreated: bool, mutexCreated: bool, channel: bv8)
    requires Working(r.bus) && Ready(r) && channel < RELAY_TOTAL_CHANNELS
    ensures var (w, after) := AfterInit(v, r, queueCreated, mutexCreated);
            && w.queue == [] && w.queueReady == queueCreated && w.uptimeMs == v.uptimeMs
            && w.mutexReady == (if queueCreated then mutexCreated else v.mutexReady)
            && (if queueCreated && mutexCreated
                then w.state == IDLE && w.stateTimer == 0
                     && after.shadow == 0 && !Energized(after.bus.regs, channel)
                else w.state == v.state && after == r)
  {
    hide AfterAllOff, Energized;
    CommandsSetTheRegisters(r, 0, true);
    CommandsEnergize(r, 0, true, channel);
  }

  lemma {:induction false} DeafReceives(v: Vcu, inputs: seq<Input>)
    requires Deaf(v)
    ensures Deaf(Receive(v, inputs))
  {
    if inputs != [] {
      DeafReceives(v, inputs[..|inputs| - 1]);
    }
  }

  lemma DeafTicks(v: Vcu, fault: bool)
    requires Deaf(v)
    ensures Deaf(Tick(v, fault).0) && Tick(v, fault).1 == []
  {
    hide HasCriticalCondition;
  }

  /** Posts before the queue exists are lost, trips included: whatever is posted over however many runs, the machine
      stays in INIT and commands nothing. */
  lemma {:induction false} PostsBeforeInitAreLost(v: Vcu, rounds: seq<Round>, k: nat)
    requires Deaf(v) && k <= |rounds|
    ensures Deaf(After(v, rounds, k))
    ensures k < |rounds| ==> ActsAt(v, rounds, k) == []
  {
    hide Tick, Receive, Deaf;
    if k > 0 {
      PostsBeforeInitAreLost(v, rounds, k - 1);
      DeafReceives(After(v, rounds, k - 1), rounds[k - 1].inputs);
      DeafTicks(Before(v, rounds, k - 1), rounds[k - 1].fault);
    }
    if k < |rounds| {
      DeafReceives(After(v, rounds, k), rounds[k].inputs);
      DeafTicks(Before(v, rounds, k), rounds[k].fault);
    }
  }

  // ---------------------------------------------------------------- the queue holds no trips

  lemma {:induction false} ReceiveKeepsQueueClean(v: Vcu, inputs: seq<Input>)
    requires CleanQueue(v)
    ensures CleanQueue(Receive(v, inputs))
  {
    if inputs != [] {
      ReceiveKeepsQueueClean(v, inputs[..|inputs| - 1]);
    }
  }

  lemma TickKeepsQueueClean(v: Vcu, fault: bool)
    requires CleanQueue(v)
    ensures CleanQueue(Tick(v, fault).0) && Tick(v, fault).0.queueReady == v.queueReady
  {
    hide AfterCheck;
    AfterCheckSurroundings(ClearTrips(Advance(v)), fault);
  }

  lemma {:induction false} QueueStaysClean(v: Vcu, rounds: seq<Round>, k: nat)
    requires CleanQueue(v) && k <= |rounds|
    ensures CleanQueue(After(v, rounds, k))
    ensures k < |rounds| ==> CleanQueue(Before(v, rounds, k))
  {
    if k > 0 {
      QueueStaysClean(v, rounds, k - 1);
      TickKeepsQueueClean(Before(v, rounds, k - 1), rounds[k - 1].fault);
    }
    if k < |rounds| {
      ReceiveKeepsQueueClean(After(v, rounds, k), rounds[k].inputs);
    }
  }

  // ---------------------------------------------------------------- the staged shutdown

  /** The machine is in the same stopped state after each of the rounds. */
  ghost predicate StaysStopped(v: Vcu, rounds: seq<Round>) {
    forall k :: 0 <= k <= |rounds| ==> After(v, rounds, k).state == v.state
  }

  /** Every trip leaves the state that `JustStopped` describes. */
  lemma TripsStartTheShutdown(v: Vcu, fault: bool)
    requires CleanQueue(v) && Stopped(Tick(v, fault).0.state) && Tick(v, fault).0.state != v.state
    ensures JustStopped(Tick(v, fault).0) && Tick(v, fault).1 == []
  {
    hide AfterCheck;
    var u := ClearTrips(Advance(v));
    if !TripsAtOnce(Advance(v)) {
      AfterCheckStops(u, fault);
    }
  }

  /** A round of a stay either polls a RESET that is refused, and then only the timer moves, or runs the handler. */
  lemma StoppedTick(v: Vcu, fault: bool)
    requires CleanQueue(v) && Stopped(v.state) && Tick(v, fault).0.state == v.state
    ensures var (after, acts) := Tick(v, fault);
            var timer := Add32(v.stateTimer, TASK_PERIOD_MS);
            && after.stateTimer == timer
            && (if PollsReset(v)
                then acts == [] && OpenedIn(after) == OpenedIn(v) && LastLogIn(after) == LastLogIn(v)
                else && acts == ShutdownActs(timer, OpenedIn(v), LastLogIn(v))
                     && OpenedIn(after) == (OpenedIn(v) || timer >= CONTACTOR_OPEN_DELAY_MS)
                     && LastLogIn(after) == NextLog(timer, LastLogIn(v)))
  {
    hide AfterCheck, ShutdownActs, NextLog;
    assert !TripsAtOnce(Advance(v));
    AfterCheckStopped(ClearTrips(Advance(v)), fault);
  }

  lemma StayRound(v: Vcu, rounds: seq<Round>, k: nat)
    requires CleanQueue(v) && StaysStopped(v, rounds) && Stopped(v.state) && k < |rounds|
    ensures var a, b, c := After(v, rounds, k), Before(v, rounds, k), After(v, rounds, k + 1);
            && b.state == v.state && CleanQueue(b) && c == Tick(b, rounds[k].fault).0 && c.state == v.state
            && b.stateTimer == a.stateTimer && OpenedIn(b) == OpenedIn(a) && LastLogIn(b) == LastLogIn(a)
  {
    hide Tick;
    QueueStaysClean(v, rounds, k);
    ReceiveKeepsTrips(After(v, rounds, k), rounds[k].inputs);
    assert After(v, rounds, k).state == v.state && After(v, rounds, k + 1).state == v.state;
  }

  lemma WrapsOnce(r: nat, q: nat)
    requires r < 2 * U32_SPAN
    ensures (q * U32_SPAN + r) % U32_SPAN == if r < U32_SPAN then r else r - U32_SPAN
  {
  }

  lemma TicksWrap(k: nat)
    ensures Add32(TASK_PERIOD_MS * k % U32_SPAN, TASK_PERIOD_MS) == TASK_PERIOD_MS * (k + 1) % U32_SPAN
  {
    var q, r := TASK_PERIOD_MS * k / U32_SPAN, TASK_PERIOD_MS * k % U32_SPAN;
    WrapsOnce(r + TASK_PERIOD_MS, q);
    assert TASK_PERIOD_MS * (k + 1) == q * U32_SPAN + (r + TASK_PERIOD_MS);
  }

  lemma {:induction false} StayTimer(v: Vcu, rounds: seq<Round>, k: nat)
    requires CleanQueue(v) && JustStopped(v) && StaysStopped(v, rounds) && k <= |rounds|
    ensures After(v, rounds, k).stateTimer == TASK_PERIOD_MS * k % U32_SPAN
  {
    hide Tick, Receive;
    if k > 0 {
      StayTimer(v, rounds, k - 1);
      StayRound(v, rounds, k - 1);
      StoppedTick(Before(v, rounds, k - 1), rounds[k - 1].fault);
      TicksWrap(k - 1);
    }
  }

  /** In a stay of any length, zero torque is requested in exactly the runs that poll no RESET and find the 32-bit
      timer at most one period old: the first, and those that make it wrap. */
  lemma TorqueFollowsTimer(v: Vcu, rounds: seq<Round>, k: nat)
    requires CleanQueue(v) && JustStopped(v) && StaysStopped(v, rounds) && k < |rounds|
    ensures ZERO_TORQUE in ActsAt(v, rounds, k) <==>
            !PollsReset(Before(v, rounds, k)) && TASK_PERIOD_MS * (k + 1) % U32_SPAN <= TASK_PERIOD_MS
  {
    hide Tick, Receive, StaysStopped;
    StayTimer(v, rounds, k);
    StayRound(v, rounds, k);
    StoppedTick(Before(v, rounds, k), rounds[k].fault);
    TicksWrap(k);
  }

  /** In a stay shorter than 2^32 ms zero torque is requested exactly when its first run polls no RESET, and then in
      that run alone: a RESET refused on the first tick returns before the handler, and the request is never made up
      for. */
  lemma TorqueOnlyOnFirstTick(v: Vcu, rounds: seq<Round>, k: nat)
    requires CleanQueue(v) && JustStopped(v) && StaysStopped(v, rounds)
    requires k < |rounds| && TASK_PERIOD_MS * |rounds| < U32_SPAN
    ensures ZERO_TORQUE in ActsAt(v, rounds, k) <==> k == 0 && !PollsReset(Before(v, rounds, 0))
  {
    hide ActsAt, Before, StaysStopped;
    TorqueFollowsTimer(v, rounds, k);
  }

  /** Whether some run among the first k polled no RESET, and whether some run commanded the contactors open. */
  predicate SomeRunHandled(v: Vcu, rounds: seq<Round>, k: nat)
    requires k <= |rounds|
  {
    k > 0 && (SomeRunHandled(v, rounds, k - 1) || !PollsReset(Before(v, rounds, k - 1)))
  }

  predicate SomeRunOpened(v: Vcu, rounds: seq<Round>, k: nat)
    requires k <= |rounds|
  {
    k > 0 && (SomeRunOpened(v, rounds, k - 1) || ALL_OFF(false) in ActsAt(v, rounds, k - 1))
  }

  /** Round k of a stay, in terms of the shutdown's bookkeeping. */
  lemma StayStep(v: Vcu, rounds: seq<Round>, k: nat)
    requires CleanQueue(v) && JustStopped(v) && StaysStopped(v, rounds)
    requires k < |rounds| && TASK_PERIOD_MS * (k + 1) < U32_SPAN
    ensures var a, c, timer := After(v, rounds, k), After(v, rounds, k + 1), TASK_PERIOD_MS * (k + 1);
            if PollsReset(Before(v, rounds, k))
            then ActsAt(v, rounds, k) == [] && OpenedIn(c) == OpenedIn(a) && LastLogIn(c) == LastLogIn(a)
            else ActsAt(v, rounds, k) == ShutdownActs(timer, OpenedIn(a), LastLogIn(a))
                 && OpenedIn(c) && LastLogIn(c) == NextLog(timer, LastLogIn(a))
  {
    hide Tick, Receive, StaysStopped, ShutdownActs, NextLog, PollsReset, CleanQueue;
    StayTimer(v, rounds, k);
    StayRound(v, rounds, k);
    StoppedTick(Before(v, rounds, k), rounds[k].fault);
    TicksWrap(k);
  }

  lemma FirstOpening(timer: uint32, open: bool, log: uint32)
    requires timer >= CONTACTOR_OPEN_DELAY_MS
    ensures ALL_OFF(false) in ShutdownActs(timer, open, log) <==> !open
  {
  }

  /** A stay commands the contactors open exactly when one of its runs polls no RESET. */
  lemma {:induction false} OpensIffHandled(v: Vcu, rounds: seq<Round>, k: nat)
    requires CleanQueue(v) && JustStopped(v) && StaysStopped(v, rounds)
    requires k <= |rounds| && TASK_PERIOD_MS * k < U32_SPAN
    ensures SomeRunOpened(v, rounds, k) <==> SomeRunHandled(v, rounds, k)
    ensures OpenedIn(After(v, rounds, k)) <==> SomeRunHandled(v, rounds, k)
  {
    hide Tick, Receive, Before, ActsAt, OpenedIn, PollsReset, StaysStopped, CleanQueue, ShutdownActs;
    if k == 0 {
      assert !OpenedIn(v);
    } else {
      OpensIffHandled(v, rounds, k - 1);
      StayStep(v, rounds, k - 1);
      var a := After(v, rounds, k - 1);
      FirstOpening(TASK_PERIOD_MS * k, OpenedIn(a), LastLogIn(a));
    }
  }

  // ---------------------------------------------------------------- when a trip opens the contactors

  /** A polled RESET that the interlock refuses. */
  predicate RefusesReset(v: Vcu) {
    PollsReset(v) && !IsResetInterlockSatisfied(v.data, v.state)
  }

  lemma OnResetActs(v: Vcu, fault: bool)
    requires Stopped(v.state)
    ensures var (w, acts) := OnEvent(v, RESET, fault);
            if IsResetInterlockSatisfied(v.data, v.state) then w.state == IDLE && acts == [CLEAR_FAULT]
            else (w, acts) == (v, [])
  {
    hide IsResetInterlockSatisfied;
    TransitionFacts(v, IDLE);
  }

  /** A run of a stopped machine that takes no trip, by what it polls. */
  lemma StoppedRun(v: Vcu, fault: bool)
    requires CleanQueue(v) && Stopped(v.state) && !TripsAtOnce(v)
    ensures var (w, acts) := Tick(v, fault);
            && (PollsReset(v) && !RefusesReset(v) ==> w.state == IDLE && acts == [CLEAR_FAULT])
            && (RefusesReset(v) ==> w.state == v.state && acts == [])
            && (!PollsReset(v) ==> w.state == v.state)
  {
    hide Handle, OnEvent, HasCriticalCondition, IsReadyEntryPermitted, IsResetInterlockSatisfied;
    var u := ClearTrips(Advance(v));
    HandleFacts(u);
    if u.queue != [] {
      OnResetActs(u.(queue := u.queue[1..]), fault);
      OnEventWays(u.(queue := u.queue[1..]), u.queue[0], fault);
    }
  }

  /** A stopped machine whose contactors were not yet commanded open commands it in its next run exactly when that run
      finds neither the other trip pending nor a RESET at the head of the queue. */
  lemma OpensIff(v: Vcu, fault: bool)
    requires CleanQueue(v) && Stopped(v.state) && !OpenedIn(v) && v.stateTimer + TASK_PERIOD_MS < U32_SPAN
    ensures ALL_OFF(false) in Tick(v, fault).1 <==> !TripsAtOnce(v) && !PollsReset(v)
  {
    hide AfterCheck, AfterTrip, ShutdownActs, NextLog, CleanQueue, OpenedIn;
    if !TripsAtOnce(v) {
      StoppedRun(v, fault);
      if !PollsReset(v) {
        StoppedTick(v, fault);
        FirstOpening(v.stateTimer + TASK_PERIOD_MS, OpenedIn(v), LastLogIn(v));
      }
    }
  }

  /** Each of the first k runs takes the other trip or refuses a RESET. */
  ghost predicate HeldOff(v: Vcu, rounds: seq<Round>, k: nat)
    requires k <= |rounds|
  {
    forall i :: 0 <= i < k ==> TripsAtOnce(Before(v, rounds, i)) || RefusesReset(Before(v, rounds, i))
  }

  lemma HeldOffRun(v: Vcu, fault: bool)
    requires CleanQueue(v) && Stopped(v.state) && !OpenedIn(v) && v.stateTimer + TASK_PERIOD_MS < U32_SPAN
    requires TripsAtOnce(v) || RefusesReset(v)
    ensures var (w, acts) := Tick(v, fault);
            Stopped(w.state) && !OpenedIn(w) && w.stateTimer <= v.stateTimer + TASK_PERIOD_MS && acts == []
  {
    hide AfterCheck, CleanQueue;
    if !TripsAtOnce(v) {
      StoppedRun(v, fault);
      StoppedTick(v, fault);
    }
  }

  /** After a trip, whatever arrives: nothing is commanded while runs take the other trip or refuse a RESET, and the
      first run that does neither commands the contactors open exactly when it does not accept a RESET. */
  lemma {:induction false} OpensInFirstFreeRun(v: Vcu, rounds: seq<Round>, k: nat)
    requires CleanQueue(v) && JustStopped(v) && k <= |rounds| && HeldOff(v, rounds, k)
    requires TASK_PERIOD_MS * (k + 1) < U32_SPAN
    ensures var a := After(v, rounds, k); Stopped(a.state) && !OpenedIn(a) && a.stateTimer <= TASK_PERIOD_MS * k
    ensures k > 0 ==> ActsAt(v, rounds, k - 1) == []
    ensures k < |rounds| ==>
              (ALL_OFF(false) in ActsAt(v, rounds, k) <==>
               !TripsAtOnce(Before(v, rounds, k)) && !PollsReset(Before(v, rounds, k)))
  {
    hide Tick, Receive, CleanQueue, TripsAtOnce, RefusesReset, PollsReset;
    if k > 0 {
      OpensInFirstFreeRun(v, rounds, k - 1);
      QueueStaysClean(v, rounds, k - 1);
      ReceiveKeepsTrips(After(v, rounds, k - 1), rounds[k - 1].inputs);
      HeldOffRun(Before(v, rounds, k - 1), rounds[k - 1].fault);
    }
    if k < |rounds| {
      QueueStaysClean(v, rounds, k);
      ReceiveKeepsTrips(After(v, rounds, k), rounds[k].inputs);
      OpensIff(Before(v, rounds, k), rounds[k].fault);
    }
  }

  /** A fault with a motor error and a RESET that was queued before it. */
  const FAULT_WITH_RESET: Vcu :=
    Vcu(FAULT, true, [RESET], true, 0, 0, ZERO_DATA.(motorErrorFlags := 2), false, false, false, false, 0, LOG_LONG_AGO)

  function QuietRounds(n: nat): (rounds: seq<Round>)
    ensures |rounds| == n && forall k :: 0 <= k < n ==> rounds[k] == Round([], false)
  {
    if n == 0 then [] else QuietRounds(n - 1) + [Round([], false)]
  }

  lemma QuietFaultRun(v: Vcu)
    requires v.state == FAULT && !v.eStopPending && !v.faultPending && (v.queue == [RESET] || v.queue == [])
    requires v.data == FAULT_WITH_RESET.data
    ensures var w := Tick(v, false).0;
            && w.state == FAULT && !w.eStopPending && !w.faultPending && w.data == v.data && w.queue == []
  {
    hide Handle;
    HandleFacts(ClearTrips(Advance(v)));
  }

  lemma {:induction false} RefusedResetStay(n: nat, k: nat)
    requires k <= n
    ensures var a := After(FAULT_WITH_RESET, QuietRounds(n), k);
            && a.state == FAULT && !a.eStopPending && !a.faultPending
            && a.data == FAULT_WITH_RESET.data && a.queue == (if k == 0 then [RESET] else [])
  {
    hide Tick;
    if k > 0 {
      RefusedResetStay(n, k - 1);
      var a := After(FAULT_WITH_RESET, QuietRounds(n), k - 1);
      assert Before(FAULT_WITH_RESET, QuietRounds(n), k - 1) == a;
      QuietFaultRun(a);
    }
  }

  /** An input on which zero torque is never requested: the RESET is refused in the first run of the stay. */
  lemma RefusedResetLosesTorque(n: nat, k: nat)
    requires k < n && TASK_PERIOD_MS * n < U32_SPAN
    ensures StaysStopped(FAULT_WITH_RESET, QuietRounds(n))
    ensures ZERO_TORQUE !in ActsAt(FAULT_WITH_RESET, QuietRounds(n), k)
  {
    hide Tick;
    forall i | 0 <= i <= n
      ensures After(FAULT_WITH_RESET, QuietRounds(n), i).state == FAULT
    {
      RefusedResetStay(n, i);
    }
    TorqueOnlyOnFirstTick(FAULT_WITH_RESET, QuietRounds(n), k);
  }

  /** A RESET posted before each run. */
  function ResetRounds(n: nat): (rounds: seq<Round>)
    ensures |rounds| == n && forall k :: 0 <= k < n ==> rounds[k] == Round([Post(RESET)], false)
  {
    if n == 0 then [] else ResetRounds(n - 1) + [Round([Post(RESET)], false)]
  }

  lemma RefusedRun(v: Vcu)
    requires v.state == FAULT && !v.eStopPending && !v.faultPending && v.queue == [RESET]
    requires v.data == FAULT_WITH_RESET.data
    ensures Tick(v, false).1 == []
    ensures Tick(v, false).0 == Advance(v).(queue := [])
  {
  }

  /** An input on which the contactors are never commanded open: a fault with a motor error, and a RESET before each
      run, which is refused. The machine stays in FAULT and commands nothing at all, however long. */
  lemma {:induction false} RefusedResetsNeverOpen(n: nat, k: nat)
    requires k <= n
    ensures var fault := FAULT_WITH_RESET.(queue := []);
            var a := After(fault, ResetRounds(n), k);
            && a.state == FAULT && a.queue == [] && !a.eStopPending && !a.faultPending && a.queueReady
            && a.data == fault.data && !OpenedIn(a)
            && (k > 0 ==> ActsAt(fault, ResetRounds(n), k - 1) == [])
  {
    hide Tick;
    if k > 0 {
      var fault := FAULT_WITH_RESET.(queue := []);
      RefusedResetsNeverOpen(n, k - 1);
      var a := After(fault, ResetRounds(n), k - 1);
      ReceiveOne(a, RESET);
      assert Before(fault, ResetRounds(n), k - 1) == a.(queue := [RESET]);
      RefusedRun(a.(queue := [RESET]));
    }
  }

  /** A stopped machine reaches IDLE exactly by polling a RESET that the interlock lets pass, and that run commands no
      contactor. With `OpensInFirstFreeRun`: accepted in the first run after a trip, it leaves the contactors as they
      were. */
  lemma AcceptedResetOpensNothing(v: Vcu, fault: bool)
    requires CleanQueue(v) && Stopped(v.state)
    ensures Tick(v, fault).0.state == IDLE <==> !TripsAtOnce(v) && PollsReset(v) && !RefusesReset(v)
    ensures Tick(v, fault).0.state == IDLE ==> Tick(v, fault).1 == [CLEAR_FAULT]
  {
    hide AfterCheck, RefusesReset;
    if !TripsAtOnce(v) {
      StoppedRun(v, fault);
    }
  }

  lemma StoppedStateIff(v: Vcu, fault: bool)
    requires CleanQueue(v) && Stopped(v.state)
    ensures Tick(v, fault).0.state == v.state <==> !TripsAtOnce(v) && (PollsReset(v) ==> RefusesReset(v))
  {
    hide AfterCheck, RefusesReset;
    if !TripsAtOnce(v) {
      StoppedRun(v, fault);
    }
  }

  /** The round takes no other trip, and a RESET that it polls is refused. */
  predicate Stays(v: Vcu, rounds: seq<Round>, k: nat)
    requires k < |rounds|
  {
    var b := Before(v, rounds, k);
    !TripsAtOnce(b) && (PollsReset(b) ==> RefusesReset(b))
  }

  lemma StayRoundIff(v: Vcu, rounds: seq<Round>, k: nat)
    requires CleanQueue(v) && Stopped(v.state) && k < |rounds| && After(v, rounds, k).state == v.state
    ensures After(v, rounds, k + 1).state == v.state <==> Stays(v, rounds, k)
  {
    hide Tick, Receive, CleanQueue, RefusesReset, TripsAtOnce, PollsReset;
    QueueStaysClean(v, rounds, k);
    ReceiveKeepsTrips(After(v, rounds, k), rounds[k].inputs);
    StoppedStateIff(Before(v, rounds, k), rounds[k].fault);
  }

  lemma NoRounds(v: Vcu, rounds: seq<Round>)
    ensures After(v, rounds, 0) == v
  {
  }

  /** The machine is in v's state after each of the first n rounds; `StaysStopped` says it of all rounds. */
  ghost predicate StaysFor(v: Vcu, rounds: seq<Round>, n: nat)
    requires n <= |rounds|
  {
    forall k :: 0 <= k <= n ==> After(v, rounds, k).state == v.state
  }

  lemma StaysForMore(v: Vcu, rounds: seq<Round>, n: nat)
    requires 0 < n <= |rounds|
    ensures StaysFor(v, rounds, n) <==> StaysFor(v, rounds, n - 1) && After(v, rounds, n).state == v.state
    ensures StaysFor(v, rounds, n - 1) ==> After(v, rounds, n - 1).state == v.state
  {
    hide After;
  }

  /** A stay is exactly a sequence of such rounds. */
  lemma {:induction false} StayIff(v: Vcu, rounds: seq<Round>, n: nat)
    requires CleanQueue(v) && Stopped(v.state) && n <= |rounds|
    ensures StaysFor(v, rounds, n) <==> forall k :: 0 <= k < n ==> Stays(v, rounds, k)
  {
    hide After, Stays, CleanQueue;
    if n == 0 {
      NoRounds(v, rounds);
    } else {
      hide StaysFor;
      StayIff(v, rounds, n - 1);
      StaysForMore(v, rounds, n);
      if StaysFor(v, rounds, n - 1) {
        StayRoundIff(v, rounds, n - 1);
      }
    }
  }

  predicate Opens(acts: seq<Act>) {
    ALL_OFF(false) in acts || ALL_OFF(true) in acts
  }

  /** The latest of the first k rounds that commanded the contactors open, or -1. */
  function LastOpening(v: Vcu, rounds: seq<Round>, k: nat): (j: int)
    requires k <= |rounds|
    ensures -1 <= j < k
  {
    if k == 0 then -1 else if Opens(ActsAt(v, rounds, k - 1)) then k - 1 else LastOpening(v, rounds, k - 1)
  }

  /** What the shutdown remembers of its last opening: its time, except that an opening in the timer's last second
      leaves the start value, which is too recent for another one before the timer wraps. */
  predicate Remembers(open: bool, log: uint32, last: int) {
    && (open <==> last >= 0)
    && (log == LOG_LONG_AGO || (last >= 0 && log == TASK_PERIOD_MS * (last + 1)))
    && (last >= 0 && log == LOG_LONG_AGO ==> TASK_PERIOD_MS * (last + 1) >= LOG_LONG_AGO)
  }

  lemma ShutdownStep(k: nat, open: bool, log: uint32, last: int)
    requires TASK_PERIOD_MS * (k + 1) < U32_SPAN && -1 <= last < k && Remembers(open, log, last)
    ensures var timer := TASK_PERIOD_MS * (k + 1);
            && (Opens(ShutdownActs(timer, open, log)) <==> last < 0 || k - last >= 50)
            && Remembers(true, NextLog(timer, log), if Opens(ShutdownActs(timer, open, log)) then k else last)
  {
    var timer := TASK_PERIOD_MS * (k + 1);
    assert Sub32(timer, log) >= REASSERT_PERIOD_MS <==>
           if log == LOG_LONG_AGO then timer < LOG_LONG_AGO else k - last >= 50;
  }

  lemma StartRemembers(v: Vcu)
    requires JustStopped(v)
    ensures Remembers(OpenedIn(v), LastLogIn(v), -1)
  {
  }

  lemma {:induction false} StayRemembers(v: Vcu, rounds: seq<Round>, k: nat)
    requires CleanQueue(v) && JustStopped(v) && StaysStopped(v, rounds)
    requires k <= |rounds| && TASK_PERIOD_MS * k < U32_SPAN
    ensures var a := After(v, rounds, k); Remembers(OpenedIn(a), LastLogIn(a), LastOpening(v, rounds, k))
  {
    hide Tick, Before, ActsAt, StaysStopped, JustStopped, ShutdownActs, NextLog, OpenedIn, LastLogIn, PollsReset,
      CleanQueue, Remembers;
    if k == 0 {
      StartRemembers(v);
    } else {
      StayRemembers(v, rounds, k - 1);
      StayStep(v, rounds, k - 1);
      var a := After(v, rounds, k - 1);
      ShutdownStep(k - 1, OpenedIn(a), LastLogIn(a), LastOpening(v, rounds, k - 1));
    }
  }

  /** In every stay, whatever RESETs are refused in it: a run commands the contactors open exactly when it polls no
      RESET and no run did before, or the last that did is at least 50 runs back. */
  lemma OpensOnceASecond(v: Vcu, rounds: seq<Round>, k: nat)
    requires CleanQueue(v) && JustStopped(v) && StaysStopped(v, rounds)
    requires k < |rounds| && TASK_PERIOD_MS * (k + 1) < U32_SPAN
    ensures var last := LastOpening(v, rounds, k);
            Opens(ActsAt(v, rounds, k)) <==> !PollsReset(Before(v, rounds, k)) && (last < 0 || k - last >= 50)
  {
    hide Tick, Before, ActsAt, StaysStopped, JustStopped, ShutdownActs, NextLog, OpenedIn, LastLogIn, PollsReset,
      CleanQueue;
    StayRemembers(v, rounds, k);
    StayStep(v, rounds, k);
    var a := After(v, rounds, k);
    ShutdownStep(k, OpenedIn(a), LastLogIn(a), LastOpening(v, rounds, k));
  }

  lemma {:induction false} LastOpeningIsLatest(v: Vcu, rounds: seq<Round>, i: nat, k: nat)
    requires i < k <= |rounds| && Opens(ActsAt(v, rounds, i))
    ensures i <= LastOpening(v, rounds, k)
  {
    hide ActsAt;
    if i < k - 1 {
      LastOpeningIsLatest(v, rounds, i, k - 1);
    }
  }

  /** Two opening commands of a stay are at least a second apart. */
  lemma OpeningsAreASecondApart(v: Vcu, rounds: seq<Round>, i: nat, k: nat)
    requires CleanQueue(v) && JustStopped(v) && StaysStopped(v, rounds)
    requires i < k < |rounds| && TASK_PERIOD_MS * |rounds| < U32_SPAN
    requires Opens(ActsAt(v, rounds, i)) && Opens(ActsAt(v, rounds, k))
    ensures TASK_PERIOD_MS * (k - i) >= REASSERT_PERIOD_MS
  {
    hide ActsAt, StaysStopped, Before, Opens;
    OpensOnceASecond(v, rounds, k);
    LastOpeningIsLatest(v, rounds, i, k);
  }

  /** All commands of the first k rounds. */
  function AllActs(v: Vcu, rounds: seq<Round>, k: nat): seq<Act>
    requires k <= |rounds|
  {
    if k == 0 then [] else AllActs(v, rounds, k - 1) + ActsAt(v, rounds, k - 1)
  }

  function CountOff(acts: seq<Act>): nat {
    if acts == [] then 0 else CountOff(acts[..|acts| - 1]) + if acts[|acts| - 1].ALL_OFF? then 1 else 0
  }

  function CountTorque(acts: seq<Act>): nat {
    if acts == [] then 0 else CountTorque(acts[..|acts| - 1]) + if acts[|acts| - 1].ZERO_TORQUE? then 1 else 0
  }

  lemma {:induction false} CountsConcat(a: seq<Act>, b: seq<Act>)
    ensures CountOff(a + b) == CountOff(a) + CountOff(b)
    ensures CountTorque(a + b) == CountTorque(a) + CountTorque(b)
  {
    if b == [] {
      assert a + b == a;
    } else {
      CountsConcat(a, b[..|b| - 1]);
      assert (a + b)[..|a + b| - 1] == a + b[..|b| - 1];
    }
  }

  lemma CountsOfNothing()
    ensures CountOff([]) == 0 && CountTorque([]) == 0
  {
  }

  lemma CountsOfShutdown(timer: uint32, open: bool, log: uint32)
    ensures var acts := ShutdownActs(timer, open, log);
            && CountOff(acts) == (if Opens(acts) then 1 else 0)
            && CountTorque(acts) == (if ZERO_TORQUE in acts then 1 else 0)
            && (ZERO_TORQUE in acts ==> acts[0] == ZERO_TORQUE)
  {
    var acts := ShutdownActs(timer, open, log);
    if |acts| == 2 {
      assert acts[..1] == [ZERO_TORQUE] && [ZERO_TORQUE][..0] == [];
    } else if |acts| == 1 {
      assert acts[..0] == [];
    }
  }

  lemma CountsOfRound(v: Vcu, rounds: seq<Round>, k: nat)
    requires CleanQueue(v) && JustStopped(v) && StaysStopped(v, rounds)
    requires k < |rounds| && TASK_PERIOD_MS * |rounds| < U32_SPAN
    ensures var acts := ActsAt(v, rounds, k);
            && CountOff(acts) == (if Opens(acts) then 1 else 0)
            && CountTorque(acts) == (if k == 0 && !PollsReset(Before(v, rounds, 0)) then 1 else 0)
            && (ZERO_TORQUE in acts ==> acts[0] == ZERO_TORQUE)
  {
    hide Before, ActsAt, StaysStopped, ShutdownActs;
    StayStep(v, rounds, k);
    var a := After(v, rounds, k);
    CountsOfShutdown(TASK_PERIOD_MS * (k + 1), OpenedIn(a), LastLogIn(a));
    TorqueOnlyOnFirstTick(v, rounds, k);
  }

  /** The number of openings and the last of them, in a stay with and without refused RESETs. */
  lemma {:induction false} OpeningsAreCounted(v: Vcu, rounds: seq<Round>, k: nat)
    requires CleanQueue(v) && JustStopped(v) && StaysStopped(v, rounds)
    requires k <= |rounds| && TASK_PERIOD_MS * |rounds| < U32_SPAN
    ensures var n, last := CountOff(AllActs(v, rounds, k)), LastOpening(v, rounds, k);
            && (if last < 0 then n == 0 else n <= 1 + last / 50)
            && ((forall i :: 0 <= i < k ==> !PollsReset(Before(v, rounds, i))) && k > 0 ==>
                 last == 50 * ((k - 1) / 50) && n == 1 + last / 50)
  {
    hide Before, ActsAt, StaysStopped, PollsReset, Opens, CountOff, CountTorque;
    if k == 0 {
      CountsOfNothing();
    } else {
      OpeningsAreCounted(v, rounds, k - 1);
      OpensOnceASecond(v, rounds, k - 1);
      CountsOfRound(v, rounds, k - 1);
      CountsConcat(AllActs(v, rounds, k - 1), ActsAt(v, rounds, k - 1));
      NextOpening(LastOpening(v, rounds, k - 1), k - 1);
    }
  }

  lemma NextOpening(last: int, k: nat)
    ensures 0 <= last <= k - 50 ==> last / 50 + 1 <= k / 50
    ensures k > 0 && last == 50 * ((k - 1) / 50) ==>
              if k - last >= 50 then k == last + 50 && k / 50 == last / 50 + 1 else last == 50 * (k / 50)
  {
    if k > 0 && last == 50 * ((k - 1) / 50) {
      var q := (k - 1) / 50;
      assert last / 50 == q;
    }
  }

  lemma {:induction false} TorqueIsCounted(v: Vcu, rounds: seq<Round>, k: nat)
    requires CleanQueue(v) && JustStopped(v) && StaysStopped(v, rounds)
    requires 0 < k <= |rounds| && TASK_PERIOD_MS * |rounds| < U32_SPAN
    ensures var acts, asked := AllActs(v, rounds, k), !PollsReset(Before(v, rounds, 0));
            && CountTorque(acts) == (if asked then 1 else 0)
            && (asked ==> acts != [] && acts[0] == ZERO_TORQUE)
  {
    hide Before, ActsAt, StaysStopped, PollsReset, Opens, CountOff;
    CountsOfRound(v, rounds, k - 1);
    CountsConcat(AllActs(v, rounds, k - 1), ActsAt(v, rounds, k - 1));
    if k == 1 {
      CountsOfNothing();
      TorqueOnlyOnFirstTick(v, rounds, 0);
      assert AllActs(v, rounds, 0) == [] && AllActs(v, rounds, 1) == [] + ActsAt(v, rounds, 0) == ActsAt(v, rounds, 0);
    } else {
      TorqueIsCounted(v, rounds, k - 1);
    }
  }

  /** In a stay of k >= 1 runs, whatever snapshots, repeated posts and refused RESETs arrive: zero torque is
      requested once, as the very first command, or never when the first run polls a RESET; the contactors are
      commanded open at most 1 + (k - 1) / 50 times, and exactly as often when no run polls a RESET. */
  lemma ShutdownCommandsAreCounted(v: Vcu, rounds: seq<Round>, k: nat)
    requires CleanQueue(v) && JustStopped(v) && StaysStopped(v, rounds)
    requires 0 < k <= |rounds| && TASK_PERIOD_MS * |rounds| < U32_SPAN
    ensures var acts, asked := AllActs(v, rounds, k), !PollsReset(Before(v, rounds, 0));
            && CountTorque(acts) == (if asked then 1 else 0)
            && (asked ==> acts != [] && acts[0] == ZERO_TORQUE)
            && CountOff(acts) <= 1 + (k - 1) / 50
            && ((forall i :: 0 <= i < k ==> !PollsReset(Before(v, rounds, i))) ==> CountOff(acts) == 1 + (k - 1) / 50)
  {
    hide Before, ActsAt, StaysStopped, PollsReset, Opens, CountOff, CountTorque, AllActs;
    TorqueIsCounted(v, rounds, k);
    OpeningsAreCounted(v, rounds, k);
  }

  /** The bound on the stay is the exact one: the run that makes the 32-bit timer wrap asks for zero torque again. */
  lemma WrapAsksForTorqueAgain(v: Vcu, fault: bool)
    requires CleanQueue(v) && Stopped(v.state) && Tick(v, fault).0.state == v.state && !PollsReset(v)
    requires v.stateTimer == TASK_PERIOD_MS * 214748364
    ensures TASK_PERIOD_MS * 214748365 >= U32_SPAN && Tick(v, fault).1 == [ZERO_TORQUE]
  {
    hide Tick;
    StoppedTick(v, fault);
  }

  /** The trip that the machine is not in. */
  function OppositeTo(state: VcuState): VcuEvent {
    if state == FAULT then EMERGENCY_STOP_EVENT else FAULT_DETECTED
  }

  /** Before each run one trip is posted, and it is always the other one. */
  ghost predicate TripsAlternate(v: Vcu, rounds: seq<Round>) {
    forall k :: 0 <= k < |rounds| ==> rounds[k] == Round([Post(OppositeTo(After(v, rounds, k).state))], false)
  }

  predicate StoppedAndQuiet(v: Vcu) {
    Stopped(v.state) && v.queueReady && !v.eStopPending && !v.faultPending
  }

  lemma ReceiveOne(v: Vcu, event: VcuEvent)
    ensures Receive(v, [Post(event)]) == AfterPost(v, event)
  {
    assert [Post(event)][..0] == [];
    assert Receive(v, []) == v;
  }

  lemma OppositeTrip(v: Vcu)
    requires StoppedAndQuiet(v)
    ensures var (w, acts) := Tick(AfterPost(v, OppositeTo(v.state)), false);
            StoppedAndQuiet(w) && w.state != v.state && acts == []
  {
    hide AfterCheck;
  }

  lemma TripsAlternateAt(v: Vcu, rounds: seq<Round>, k: nat)
    requires TripsAlternate(v, rounds) && k < |rounds|
    ensures rounds[k] == Round([Post(OppositeTo(After(v, rounds, k).state))], false)
  {
    hide After;
  }

  /** Alternating trips restart the shutdown timer before its handler ever runs: contactors that were closed when the
      first trip came are not commanded open, for as long as the trips alternate. */
  lemma {:induction false} AlternatingTripsNeverOpen(v: Vcu, rounds: seq<Round>, k: nat)
    requires StoppedAndQuiet(v) && TripsAlternate(v, rounds) && k <= |rounds|
    ensures StoppedAndQuiet(After(v, rounds, k))
    ensures k > 0 ==> After(v, rounds, k).state != After(v, rounds, k - 1).state && ActsAt(v, rounds, k - 1) == []
  {
    hide Tick, AfterPost, Receive, StoppedAndQuiet, OppositeTo, TripsAlternate;
    if k > 0 {
      TripsAlternateAt(v, rounds, k - 1);
      AlternatingTripsNeverOpen(v, rounds, k - 1);
      var w := After(v, rounds, k - 1);
      ReceiveOne(w, OppositeTo(w.state));
      OppositeTrip(w);
    }
  }

  // ---------------------------------------------------------------- how READY and DRIVE are earned

  /** The run is the one that enters `next`, for the reason that `Earns` gives. */
  predicate Enters(v: Vcu, fault: bool, next: VcuState) {
    v.queue != [] && Earns(v, v.queue[0], fault, next) && Tick(v, fault).0.state == next
  }

  /** The only ways into READY, DRIVE and IDLE, and the only runs that close contactors. */
  lemma WaysIn(v: Vcu, fault: bool)
    ensures var (after, acts) := Tick(v, fault);
            && (after.state == v.state || Stopped(after.state) || Enters(v, fault, after.state))
            && (ALL_ON in acts ==> after.state == READY)
  {
    hide AfterCheck, IsReadyEntryPermitted, IsResetInterlockSatisfied;
    AfterCheckWays(ClearTrips(Advance(v)), fault);
  }

  lemma WaysInAt(v: Vcu, rounds: seq<Round>, k: nat)
    requires k < |rounds|
    ensures var was, next := After(v, rounds, k).state, After(v, rounds, k + 1).state;
            && (next == was || Stopped(next) || Enters(Before(v, rounds, k), rounds[k].fault, next))
            && Before(v, rounds, k).state == was
            && (ALL_ON in ActsAt(v, rounds, k) ==> next == READY)
  {
    hide Tick, Earns;
    ReceiveKeepsTrips(After(v, rounds, k), rounds[k].inputs);
    WaysIn(Before(v, rounds, k), rounds[k].fault);
  }

  ghost predicate ReadySince(v: Vcu, rounds: seq<Round>, j: nat, k: nat) {
    && j < k <= |rounds|
    && Enters(Before(v, rounds, j), rounds[j].fault, READY)
    && forall i :: j < i <= k ==> After(v, rounds, i).state == READY
  }

  ghost predicate HasStart(v: Vcu, rounds: seq<Round>, k: nat) {
    exists j :: ReadySince(v, rounds, j, k)
  }

  lemma {:induction false} ReadyHasAStart(v: Vcu, rounds: seq<Round>, k: nat)
    requires v.state != READY && k <= |rounds| && After(v, rounds, k).state == READY
    ensures HasStart(v, rounds, k)
  {
    hide Tick, Earns, Before;
    WaysInAt(v, rounds, k - 1);
    if After(v, rounds, k - 1).state == READY {
      ReadyHasAStart(v, rounds, k - 1);
      var j :| ReadySince(v, rounds, j, k - 1);
      assert ReadySince(v, rounds, j, k);
    } else {
      assert ReadySince(v, rounds, k - 1, k);
    }
  }

  /** Every command that closes contactors lies in a READY stay that was opened from IDLE by a START on a snapshot
      that permits it, with no actuator fault. */
  lemma ClosingIsEarned(v: Vcu, rounds: seq<Round>, k: nat)
    requires v.state != READY && k < |rounds| && ALL_ON in ActsAt(v, rounds, k)
    ensures HasStart(v, rounds, k + 1)
  {
    WaysInAt(v, rounds, k);
    ReadyHasAStart(v, rounds, k + 1);
  }

  /** The snapshots that permit READY: the warning band contains the critical one, so this is all that is checked. The
      cell limits are those of the code, in the field's own unit of 0.1 mV. */
  lemma ReadyEntryIff(d: TelemetryData)
    ensures IsReadyEntryPermitted(d) <==>
            (&& d.bmsDataValid && d.motorErrorFlags == 0 && d.bmsSystemState != 4
             && 720 < d.packVoltageDeciV < 852 && d.tempHighestC < 55 && -900 < d.currentCentiA < 1100
             && (d.cellVoltageDataValid ==> 2800 <= d.cellVoltageMinDeciMv && d.cellVoltageMaxDeciMv <= 3550))
  {
  }

  /** The limits behind "critical", with the numbers of the code; the cell limits are in the field's own unit of
      0.1 mV. */
  lemma CriticalIff(d: TelemetryData, state: VcuState)
    ensures HasCriticalCondition(d, state) <==>
            || d.motorErrorFlags != 0
            || (state != IDLE && (d.motorTimeoutActive || d.bmsTimeoutActive))
            || (d.bmsDataValid &&
                 (|| d.bmsSystemState == 4 || d.packVoltageDeciV <= 600 || 876 <= d.packVoltageDeciV
                  || 70 <= d.tempHighestC || d.currentCentiA <= -1500 || 1300 <= d.currentCentiA
                  || (d.cellVoltageDataValid && (d.cellVoltageMinDeciMv < 2500 || 3650 < d.cellVoltageMaxDeciMv))))
  {
  }

  /** The snapshots on which a RESET is taken in a stopped state: fresh or never received data, inside the limits. */
  lemma ResetPermittedIff(d: TelemetryData, state: VcuState)
    requires Stopped(state)
    ensures IsResetInterlockSatisfied(d, state) <==>
            && d.motorErrorFlags == 0 && !d.motorTimeoutActive && !d.bmsTimeoutActive
            && (d.bmsDataValid ==>
                 && d.bmsSystemState != 4 && 600 < d.packVoltageDeciV < 876 && d.tempHighestC < 70
                 && -1500 < d.currentCentiA < 1300
                 && (d.cellVoltageDataValid ==> 2500 <= d.cellVoltageMinDeciMv && d.cellVoltageMaxDeciMv <= 3650))
  {
    hide HasCriticalCondition;
    CriticalIff(d, state);
  }

  /** The run polls this event, if it polls at all. */
  predicate Polls(v: Vcu, event: VcuEvent) {
    v.queue != [] && v.queue[0] == event
  }

  lemma TripEnds(v: Vcu)
    requires TripsAtOnce(v)
    ensures AfterTrip(v).state == if v.eStopPending && v.state != EMERGENCY_STOP then EMERGENCY_STOP else FAULT
    ensures AfterTrip(v).stateTimer == 0 && AfterTrip(v).uptimeMs == v.uptimeMs
  {
  }

  /** A run consumes both pending trips, except that a fault keeps waiting behind an E-STOP that the run takes. */
  lemma RunConsumesTrips(v: Vcu, fault: bool)
    ensures var w := Tick(v, fault).0;
            && !w.eStopPending
            && (w.faultPending <==> v.faultPending && v.eStopPending && v.state != EMERGENCY_STOP)
  {
    hide AfterCheck;
    AfterCheckSurroundings(ClearTrips(Advance(v)), fault);
  }

  /** Where a run from IDLE ends. */
  lemma IdleRunEnds(v: Vcu, fault: bool)
    requires v.state == IDLE && CleanQueue(v)
    ensures var end, critical := Tick(v, fault).0.state, HasCriticalCondition(v.data, IDLE);
            var start := Polls(v, START_REQUEST) && IsReadyEntryPermitted(v.data) && !fault;
            && (end == EMERGENCY_STOP <==> v.eStopPending)
            && (end == FAULT <==> !v.eStopPending && (v.faultPending || critical))
            && (end == READY <==> !v.eStopPending && !v.faultPending && !critical && start)
            && (end == IDLE <==> !v.eStopPending && !v.faultPending && !critical && !start)
  {
    hide Handle, TransitionTo, HasCriticalCondition, HasWarningCondition, IsReadyEntryPermitted,
      IsResetInterlockSatisfied;
    if TripsAtOnce(Advance(v)) {
      TripEnds(Advance(v));
    }
    HandleFacts(ClearTrips(Advance(v)));
    TransitionFacts(ClearTrips(Advance(v)), FAULT);
    if v.queue != [] {
      var u := ClearTrips(Advance(v)).(queue := v.queue[1..]);
      HandleFacts(u);
      TransitionFacts(u, READY);
      HandleFacts(TransitionTo(u, READY));
    }
  }

  /** Where a run from READY ends: in FAULT or EMERGENCY_STOP only for a reason, and in DRIVE exactly on
      DRIVE_ENABLE. */
  lemma ReadyRunEnds(v: Vcu, fault: bool)
    requires v.state == READY && CleanQueue(v)
    ensures var end, stop := Tick(v, fault).0.state, v.faultPending || fault || HasCriticalCondition(v.data, READY);
            && (end == EMERGENCY_STOP <==> v.eStopPending)
            && (end == FAULT <==> !v.eStopPending && stop)
            && (end == DRIVE <==> !v.eStopPending && !stop && Polls(v, DRIVE_ENABLE))
            && (end == READY <==> !v.eStopPending && !stop && !Polls(v, DRIVE_ENABLE))
  {
    hide Handle, TransitionTo, HasCriticalCondition, HasWarningCondition, IsReadyEntryPermitted,
      IsResetInterlockSatisfied;
    if TripsAtOnce(Advance(v)) {
      TripEnds(Advance(v));
    }
    HandleFacts(ClearTrips(Advance(v)));
    TransitionFacts(ClearTrips(Advance(v)), FAULT);
    if v.queue != [] {
      var u := ClearTrips(Advance(v)).(queue := v.queue[1..]);
      HandleFacts(u);
      TransitionFacts(u, DRIVE);
      HandleFacts(TransitionTo(u, DRIVE));
    }
  }

  /** Where a run from DRIVE ends: it stays unless there is a reason to stop; no event but a trip leaves it. */
  lemma DriveRunEnds(v: Vcu, fault: bool)
    requires v.state == DRIVE && CleanQueue(v)
    ensures var end, stop := Tick(v, fault).0.state, v.faultPending || fault || HasCriticalCondition(v.data, DRIVE);
            && (end == EMERGENCY_STOP <==> v.eStopPending)
            && (end == FAULT <==> !v.eStopPending && stop)
            && (end == DRIVE <==> !v.eStopPending && !stop)
  {
    hide Handle, TransitionTo, HasCriticalCondition, HasWarningCondition, IsReadyEntryPermitted,
      IsResetInterlockSatisfied;
    if TripsAtOnce(Advance(v)) {
      TripEnds(Advance(v));
    }
    HandleFacts(ClearTrips(Advance(v)));
    TransitionFacts(ClearTrips(Advance(v)), FAULT);
    if v.queue != [] {
      HandleFacts(ClearTrips(Advance(v)).(queue := v.queue[1..]));
    }
  }

  /** Where a run from a stopped state ends. */
  lemma StoppedRunEnds(v: Vcu, fault: bool)
    requires Stopped(v.state) && CleanQueue(v)
    ensures var end := Tick(v, fault).0.state;
            var other := if v.state == FAULT then v.eStopPending else v.faultPending;
            var reset := Polls(v, RESET) && IsResetInterlockSatisfied(v.data, v.state);
            && (end == (if v.state == FAULT then EMERGENCY_STOP else FAULT) <==> other)
            && (end == IDLE <==> !other && reset)
            && (end == v.state <==> !other && !reset)
  {
    hide AfterCheck, IsResetInterlockSatisfied, CleanQueue;
    if !TripsAtOnce(v) {
      StoppedRun(v, fault);
    }
  }

  /** Before initialisation has finished a run only takes trips. */
  lemma InitRunEnds(v: Vcu, fault: bool)
    requires v.state == INIT && CleanQueue(v)
    ensures Tick(v, fault).0.state
            == if v.eStopPending then EMERGENCY_STOP else if v.faultPending then FAULT else INIT
  {
    hide TransitionTo, HasCriticalCondition, HasWarningCondition, IsReadyEntryPermitted, IsResetInterlockSatisfied;
    if TripsAtOnce(Advance(v)) {
      TripEnds(Advance(v));
    }
  }

  predicate Resting(state: VcuState) {
    state == INIT || state == IDLE || state == DRIVE
  }

  lemma HandleRests(v: Vcu)
    ensures Handle(v).0.state == v.state && (Resting(v.state) ==> Handle(v).1 == [])
  {
  }

  lemma OnEventRests(v: Vcu, event: VcuEvent, fault: bool)
    ensures var (w, acts) := OnEvent(v, event, fault);
            Resting(w.state) && (w.state == v.state || w.state == DRIVE) ==> acts == []
  {
    hide TransitionTo, Handle, HasCriticalCondition, IsReadyEntryPermitted, IsResetInterlockSatisfied;
    TransitionFacts(v, EMERGENCY_STOP);
    TransitionFacts(v, FAULT);
    TransitionFacts(v, IDLE);
    TransitionFacts(v, READY);
    TransitionFacts(v, DRIVE);
    HandleRests(v);
    HandleRests(TransitionTo(v, READY));
    HandleRests(TransitionTo(v, DRIVE));
  }

  lemma AfterCheckRests(v: Vcu, fault: bool)
    ensures var (w, acts) := AfterCheck(v, fault);
            Resting(w.state) && (w.state == v.state || w.state == DRIVE) ==> acts == []
  {
    hide TransitionTo, Handle, OnEvent, HasCriticalCondition;
    TransitionFacts(v, FAULT);
    HandleRests(v);
    if v.queue != [] {
      OnEventRests(v.(queue := v.queue[1..]), v.queue[0], fault);
    }
  }

  /** INIT, IDLE and DRIVE command nothing as long as they last, nor does the run that enters DRIVE. */
  lemma RestingCommandsNothing(v: Vcu, fault: bool)
    requires var end := Tick(v, fault).0.state; Resting(end) && (end == v.state || end == DRIVE)
    ensures Tick(v, fault).1 == []
  {
    hide AfterCheck;
    AfterCheckRests(ClearTrips(Advance(v)), fault);
  }

  /** A run takes the oldest waiting event exactly when nothing ends it earlier, and never another one. */
  lemma PollsOldest(v: Vcu, fault: bool)
    requires CleanQueue(v)
    ensures var early := || TripsAtOnce(v)
                         || (HvLive(v.state) && fault)
                         || ((v.state == IDLE || HvLive(v.state)) && HasCriticalCondition(v.data, v.state));
            Tick(v, fault).0.queue == if early || v.queue == [] then v.queue else v.queue[1..]
  {
    hide OnEvent, Handle, HasCriticalCondition, HasWarningCondition;
    var u := ClearTrips(Advance(v));
    HandleFacts(u);
    if v.queue != [] {
      OnEventSurroundings(u.(queue := u.queue[1..]), u.queue[0], fault);
    }
  }

  /** The events that wait for their turn, in posting order: all posts but the trips. */
  function Waiting(inputs: seq<Input>): seq<VcuEvent> {
    if inputs == [] then []
    else
      var last := inputs[|inputs| - 1];
      Waiting(inputs[..|inputs| - 1]) + if last.Post? && !IsTrip(last.event) then [last.event] else []
  }

  /** Posts queue up in order behind what was waiting, and those beyond eight are dropped. */
  lemma {:induction false} PostsQueueInOrder(v: Vcu, inputs: seq<Input>)
    requires v.queueReady && |v.queue| <= 8
    ensures var all := v.queue + Waiting(inputs);
            Receive(v, inputs).queue == all[..if |all| <= 8 then |all| else 8]
    ensures Receive(v, inputs).queueReady
  {
    if inputs != [] {
      var earlier, last := inputs[..|inputs| - 1], inputs[|inputs| - 1];
      PostsQueueInOrder(v, earlier);
      var before, all := v.queue + Waiting(earlier), v.queue + Waiting(inputs);
      assert all == before + if last.Post? && !IsTrip(last.event) then [last.event] else [];
      if |before| >= 8 {
        assert all[..8] == before[..8];
      }
    }
  }

  lemma ReceiveMore(v: Vcu, inputs: seq<Input>, last: Input)
    ensures Receive(v, inputs + [last])
            == if last.Post? then AfterPost(Receive(v, inputs), last.event)
               else AfterSetTelemetry(Receive(v, inputs), last.d)
  {
    hide AfterPost, AfterSetTelemetry;
    assert (inputs + [last])[..|inputs|] == inputs;
  }

  /** The snapshot that a run sees is the latest one given, once the mutex exists. */
  lemma {:induction false} LatestSnapshotCounts(v: Vcu, inputs: seq<Input>, d: TelemetryData, more: seq<Input>)
    requires v.mutexReady && forall i :: 0 <= i < |more| ==> more[i].Post?
    ensures Receive(v, inputs + [Snapshot(d)] + more).data == d
  {
    hide Receive;
    var given := inputs + [Snapshot(d)];
    if more == [] {
      ReceiveKeepsTrips(v, inputs);
      ReceiveMore(v, inputs, Snapshot(d));
      assert given + [] == given;
    } else {
      var shorter, last := more[..|more| - 1], more[|more| - 1];
      LatestSnapshotCounts(v, inputs, d, shorter);
      ReceiveMore(v, given + shorter, last);
      assert given + more == given + shorter + [last];
    }
  }

  lemma OnEventTimer(v: Vcu, event: VcuEvent, fault: bool)
    requires !IsTrip(event)
    ensures var w := OnEvent(v, event, fault).0; w.stateTimer == if w.state == v.state then v.stateTimer else 0
  {
    hide Handle, TransitionTo, HasCriticalCondition, HasWarningCondition, IsReadyEntryPermitted,
      IsResetInterlockSatisfied;
    HandleFacts(v);
    TransitionFacts(v, IDLE);
    TransitionFacts(v, READY);
    TransitionFacts(v, DRIVE);
    HandleFacts(TransitionTo(v, READY));
    HandleFacts(TransitionTo(v, DRIVE));
  }

  lemma AfterCheckTimer(v: Vcu, fault: bool)
    requires CleanQueue(v)
    ensures var w := AfterCheck(v, fault).0; w.stateTimer == if w.state == v.state then v.stateTimer else 0
  {
    hide OnEvent, Handle, TransitionTo, HasCriticalCondition, HasWarningCondition, IsReadyEntryPermitted;
    HandleFacts(v);
    TransitionFacts(v, FAULT);
    if v.queue != [] {
      OnEventTimer(v.(queue := v.queue[1..]), v.queue[0], fault);
    }
  }

  /** Both clocks advance by 20 ms and wrap; the state's own timer restarts with every change of state. */
  lemma ClocksAdvance(v: Vcu, fault: bool)
    requires CleanQueue(v)
    ensures var w := Tick(v, fault).0;
            && w.uptimeMs == (v.uptimeMs + 20) % 0x1_0000_0000
            && w.stateTimer == if w.state == v.state then (v.stateTimer + 20) % 0x1_0000_0000 else 0
  {
    hide AfterCheck, AfterTrip;
    WrapAround(v.uptimeMs, 20, 0, 0);
    WrapAround(v.stateTimer, 20, 0, 0);
    AfterCheckTimer(ClearTrips(Advance(v)), fault);
    AfterCheckSurroundings(ClearTrips(Advance(v)), fault);
    if TripsAtOnce(Advance(v)) {
      TripEnds(Advance(v));
    }
  }

  lemma ReadyTick(v: Vcu, fault: bool)
    requires v.state == READY && Tick(v, fault).0.state == READY
    ensures var (w, acts) := Tick(v, fault);
            && w.stateTimer == Add32(v.stateTimer, TASK_PERIOD_MS)
            && acts == if w.stateTimer <= TASK_PERIOD_MS then [ALL_ON] else []
  {
    hide AfterCheck;
    AfterCheckWays(ClearTrips(Advance(v)), fault);
  }

  /** READY holds after each of the rounds. */
  ghost predicate StaysInReady(v: Vcu, rounds: seq<Round>) {
    forall k :: 0 <= k <= |rounds| ==> After(v, rounds, k).state == READY
  }

  /** From the run that enters READY: that run commands the contactors closed, the next one does so once more, and no
      later run of the stay does. */
  lemma {:induction false} ClosedOnEntryAndOnceMore(v: Vcu, fault: bool, rounds: seq<Round>, k: nat)
    requires Enters(v, fault, READY) && StaysInReady(Tick(v, fault).0, rounds)
    requires k <= |rounds| && TASK_PERIOD_MS * k < U32_SPAN
    ensures Tick(v, fault).1 == [ALL_ON]
    ensures var ready := Tick(v, fault).0;
            && After(ready, rounds, k).stateTimer == TASK_PERIOD_MS * k
            && (k > 0 ==> ActsAt(ready, rounds, k - 1) == if k == 1 then [ALL_ON] else [])
  {
    hide Tick, Receive, Enters;
    EntryCloses(v, fault);
    if k > 0 {
      var ready := Tick(v, fault).0;
      ClosedOnEntryAndOnceMore(v, fault, rounds, k - 1);
      ReceiveKeepsTrips(After(ready, rounds, k - 1), rounds[k - 1].inputs);
      assert After(ready, rounds, k).state == READY;
      ReadyTick(Before(ready, rounds, k - 1), rounds[k - 1].fault);
    }
  }

  lemma EntryCloses(v: Vcu, fault: bool)
    requires Enters(v, fault, READY)
    ensures var (ready, acts) := Tick(v, fault); ready.stateTimer == 0 && acts == [ALL_ON]
  {
    hide OnEvent, HasCriticalCondition, IsReadyEntryPermitted, IsResetInterlockSatisfied;
    var u := ClearTrips(Advance(v));
    OnEventCloses(u.(queue := u.queue[1..]), u.queue[0], fault);
  }

  ghost predicate ResetIn(v: Vcu, rounds: seq<Round>, t: nat, a: nat, i: nat) {
    t <= a < i <= |rounds| && Enters(Before(v, rounds, a), rounds[a].fault, IDLE)
  }

  ghost predicate StartIn(v: Vcu, rounds: seq<Round>, a: nat, b: nat, i: nat) {
    a < b < i <= |rounds| && Enters(Before(v, rounds, b), rounds[b].fault, READY)
  }

  ghost predicate EnableIn(v: Vcu, rounds: seq<Round>, b: nat, c: nat, i: nat) {
    b < c < i <= |rounds| && Enters(Before(v, rounds, c), rounds[c].fault, DRIVE)
  }

  lemma {:induction false} IdleAfterTrip(v: Vcu, rounds: seq<Round>, t: nat, i: nat)
    requires t <= i <= |rounds| && Stopped(After(v, rounds, t).state) && After(v, rounds, i).state == IDLE
    ensures exists a :: ResetIn(v, rounds, t, a, i)
  {
    hide Tick, Before;
    WaysInAt(v, rounds, i - 1);
    if After(v, rounds, i - 1).state == IDLE {
      IdleAfterTrip(v, rounds, t, i - 1);
      var a :| ResetIn(v, rounds, t, a, i - 1);
      assert ResetIn(v, rounds, t, a, i);
    } else {
      assert ResetIn(v, rounds, t, i - 1, i);
    }
  }

  lemma {:induction false} ReadyAfterTrip(v: Vcu, rounds: seq<Round>, t: nat, i: nat)
    requires t <= i <= |rounds| && Stopped(After(v, rounds, t).state) && After(v, rounds, i).state == READY
    ensures exists a, b :: ResetIn(v, rounds, t, a, i) && StartIn(v, rounds, a, b, i)
  {
    hide Tick, Before;
    WaysInAt(v, rounds, i - 1);
    if After(v, rounds, i - 1).state == READY {
      ReadyAfterTrip(v, rounds, t, i - 1);
      var a, b :| ResetIn(v, rounds, t, a, i - 1) && StartIn(v, rounds, a, b, i - 1);
      assert ResetIn(v, rounds, t, a, i) && StartIn(v, rounds, a, b, i);
    } else {
      IdleAfterTrip(v, rounds, t, i - 1);
      var a :| ResetIn(v, rounds, t, a, i - 1);
      assert ResetIn(v, rounds, t, a, i) && StartIn(v, rounds, a, i - 1, i);
    }
  }

  /** After a trip, DRIVE comes back only through an accepted RESET, a permitted START and a DRIVE_ENABLE, in that
      order and in three different runs. */
  lemma {:induction false} DriveAfterTrip(v: Vcu, rounds: seq<Round>, t: nat, i: nat)
    requires t <= i <= |rounds| && Stopped(After(v, rounds, t).state) && After(v, rounds, i).state == DRIVE
    ensures exists a, b, c :: ResetIn(v, rounds, t, a, i) && StartIn(v, rounds, a, b, i) && EnableIn(v, rounds, b, c, i)
  {
    hide Tick, Before;
    WaysInAt(v, rounds, i - 1);
    if After(v, rounds, i - 1).state == DRIVE {
      DriveAfterTrip(v, rounds, t, i - 1);
      var a, b, c :| ResetIn(v, rounds, t, a, i - 1) && StartIn(v, rounds, a, b, i - 1)
          && EnableIn(v, rounds, b, c, i - 1);
      assert ResetIn(v, rounds, t, a, i) && StartIn(v, rounds, a, b, i) && EnableIn(v, rounds, b, c, i);
    } else {
      ReadyAfterTrip(v, rounds, t, i - 1);
      var a, b :| ResetIn(v, rounds, t, a, i - 1) && StartIn(v, rounds, a, b, i - 1);
      assert ResetIn(v, rounds, t, a, i) && StartIn(v, rounds, a, b, i) && EnableIn(v, rounds, b, i - 1, i);
    }
  }
}
