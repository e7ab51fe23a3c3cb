/** The CAN task, the state machine and the relay driver joined: safety and bounded response over whole runs. */
module VehicleSystem {
  import opened Words
  import opened Wrappers
  import opened VehicleData
  import opened VcuPredicates
  import opened VcuLogic
  import opened VcuRuns
  import opened RelayManager
  import CanManager
  import CanHistory

  /** The mailbox is the one-element queue from the CAN task to the others. */
  datatype System = System(can: CanManager.Can, mailbox: Option<TelemetryData>, vcu: Vcu, relay: Relay)

  datatype Step =
    | CanTask(rx: seq<CanManager.Rx>, now: uint32, stampMs: uint32, speedX10: uint16)
    | PostEvent(event: VcuEvent)
    | VcuTask
    | ChipReset

  /** The state machine as its task's `run()` finds it, with the mailbox's snapshot. */
  function Fed(s: System): Vcu {
    if s.mailbox.Some? then AfterSetTelemetry(s.vcu, s.mailbox.value) else s.vcu
  }

  function AfterCanTask(s: System, t: CanManager.Timeouts, rx: seq<CanManager.Rx>, now: uint32,
                        stampMs: uint32, speedX10: uint16): System {
    var (can, faults) := CanManager.AfterDrain(s.can, t, rx, now);
    System(can,
           Some(CanManager.TelemetryOf(can).(timestampMs := stampMs, speedKmhX10 := speedX10)),
           if faults > 0 then AfterPost(s.vcu, FAULT_DETECTED) else s.vcu,
           s.relay)
  }

  function AfterVcuTask(s: System): System {
    var (v, r, _) := AfterRun(Fed(s), s.relay);
    s.(vcu := v, relay := r)
  }

  function AfterStep(s: System, t: CanManager.Timeouts, step: Step): System {
    match step
    case CanTask(rx, now, stampMs, speedX10) => AfterCanTask(s, t, rx, now, stampMs, speedX10)
    case PostEvent(event) => s.(vcu := AfterPost(s.vcu, event))
    case VcuTask => AfterVcuTask(s)
    case ChipReset => s.(relay := s.relay.(bus := s.relay.bus.(regs := POWER_ON)))
  }

  function AfterSteps(s: System, t: CanManager.Timeouts, steps: seq<Step>): System {
    if steps == [] then s else AfterStep(AfterSteps(s, t, steps[..|steps| - 1]), t, steps[|steps| - 1])
  }

  /** The system when its tasks start, whether or not the queue and the mutex could be created. */
  function Boot(bus: Bus, queueCreated: bool, mutexCreated: bool): System {
    var begun := AfterBegin(Unstarted(bus), true, true);
    var (v, r) := AfterInit(UNINITIALIZED, begun, queueCreated, mutexCreated);
    System(CanManager.START, None, v, r)
  }

  // ---------------------------------------------------------------- a run, seen from the join

  lemma RunIsTick(v: Vcu, r: Relay)
    ensures var (after, relay, acts) := AfterRun(v, r);
            var checked := AfterVerifyIfDue(r, Advance(v).uptimeMs);
            && (after, acts) == Tick(v, checked.fault)
            && relay == (if TripsAtOnce(Advance(v)) then r else PerformAll(checked, acts))
            && (TripsAtOnce(Advance(v)) ==> acts == [] && Stopped(after.state))
  {
    hide AfterCheck, AfterVerifyIfDue, PerformAll;
  }

  /** A run that ends live started live on a snapshot without critical condition and no actuator fault, or started
      from IDLE on one that permits READY; it commands nothing but closing. */
  lemma LiveRuns(v: Vcu, fault: bool)
    requires HvLive(Tick(v, fault).0.state)
    ensures var (after, acts) := Tick(v, fault);
            && !TripsAtOnce(Advance(v)) && after.data == v.data && after.mutexReady == v.mutexReady
            && after.uptimeMs == Advance(v).uptimeMs
            && (|| (HvLive(v.state) && !fault && !HasCriticalCondition(v.data, v.state))
                || (v.state == IDLE && IsReadyEntryPermitted(v.data)))
            && (acts == [] || acts == [ALL_ON])
  {
    hide AfterCheck, HasCriticalCondition, IsReadyEntryPermitted, IsResetInterlockSatisfied;
    var u := ClearTrips(Advance(v));
    AfterCheckSurroundings(u, fault);
    AfterCheckWays(u, fault);
    LiveChecks(u, fault);
  }

  lemma HandleLiveActs(v: Vcu)
    requires !Stopped(v.state)
    ensures Handle(v).0.state == v.state && (Handle(v).1 == [] || Handle(v).1 == [ALL_ON])
  {
  }

  lemma OnEventLiveActs(v: Vcu, event: VcuEvent, fault: bool)
    requires HvLive(OnEvent(v, event, fault).0.state)
    ensures OnEvent(v, event, fault).1 == [] || OnEvent(v, event, fault).1 == [ALL_ON]
  {
    hide Handle, TransitionTo, HasCriticalCondition, IsReadyEntryPermitted, IsResetInterlockSatisfied;
    HandleFacts(v);
    if !Stopped(v.state) {
      HandleLiveActs(v);
    }
    TransitionFacts(v, EMERGENCY_STOP);
    TransitionFacts(v, FAULT);
    TransitionFacts(v, IDLE);
    TransitionFacts(v, READY);
    TransitionFacts(v, DRIVE);
    HandleLiveActs(TransitionTo(v, READY));
    HandleLiveActs(TransitionTo(v, DRIVE));
  }

  lemma LiveChecks(v: Vcu, fault: bool)
    requires HvLive(AfterCheck(v, fault).0.state)
    ensures HvLive(v.state) ==> !fault && !HasCriticalCondition(v.data, v.state)
    ensures AfterCheck(v, fault).1 == [] || AfterCheck(v, fault).1 == [ALL_ON]
  {
    hide Handle, OnEvent, TransitionTo, HasCriticalCondition;
    TransitionFacts(v, FAULT);
    HandleFacts(v);
    if v.queue == [] {
      if !Stopped(v.state) {
        HandleLiveActs(v);
      }
    } else {
      var u := v.(queue := v.queue[1..]);
      if HvLive(OnEvent(u, v.queue[0], fault).0.state) {
        OnEventLiveActs(u, v.queue[0], fault);
      }
    }
  }

  // ---------------------------------------------------------------- live means healthy

  /** What the documentation promises while the high-voltage bus is live. */
  predicate Healthy(d: TelemetryData) {
    && d.bmsDataValid && d.motorErrorFlags == 0
    && 600 < d.packVoltageDeciV < 876 && d.tempHighestC < 70 && -1500 < d.currentCentiA < 1300
  }

  /** A snapshot taken once both identifiers were seen is valid or timed out. */
  predicate Decided(d: TelemetryData) {
    d.bmsDataValid || d.bmsTimeoutActive
  }

  predicate FreshnessKept(s: System) {
    && (s.mailbox.Some? && s.mailbox.value.bmsDataValid ==> CanHistory.BothSeen(s.can.bms))
    && (s.vcu.data.bmsDataValid ==> s.mailbox.Some? && CanHistory.BothSeen(s.can.bms) && s.vcu.mutexReady)
    && (HvLive(s.vcu.state) ==>
         && s.vcu.mutexReady && CanHistory.BothSeen(s.can.bms)
         && s.mailbox.Some? && Decided(s.mailbox.value))
  }

  lemma SnapshotIsDecided(s: System, t: CanManager.Timeouts, rx: seq<CanManager.Rx>, now: uint32,
                          stampMs: uint32, speedX10: uint16)
    ensures var after := AfterCanTask(s, t, rx, now, stampMs, speedX10);
            && after.mailbox.Some?
            && (CanHistory.BothSeen(s.can.bms) ==> CanHistory.BothSeen(after.can.bms))
            && (after.mailbox.value.bmsDataValid ==> CanHistory.BothSeen(after.can.bms))
            && (CanHistory.BothSeen(after.can.bms) ==> Decided(after.mailbox.value))
            && after.vcu.state == s.vcu.state && after.vcu.data == s.vcu.data
                && after.vcu.mutexReady == s.vcu.mutexReady
  {
    hide CanManager.AfterDrain;
    CanHistory.DrainDecidesFreshness(s.can, t, rx, now);
  }

  lemma DataComesFromMailbox(s: System)
    requires FreshnessKept(s)
    ensures var v := Fed(s);
            && v.state == s.vcu.state && v.mutexReady == s.vcu.mutexReady
            && (s.mailbox.Some? && v.mutexReady ==> v.data == s.mailbox.value)
            && (v.data.bmsDataValid ==> s.mailbox.Some? && CanHistory.BothSeen(s.can.bms) && v.mutexReady
                                        && Decided(s.mailbox.value))
  {
  }

  /** A `run()` that ends live leaves a healthy snapshot and keeps the invariant. */
  lemma RunKeepsFreshness(s: System)
    requires FreshnessKept(s)
    ensures FreshnessKept(AfterVcuTask(s))
    ensures HvLive(AfterVcuTask(s).vcu.state) ==> Healthy(AfterVcuTask(s).vcu.data)
  {
    hide Tick, AfterRun, AfterVerifyIfDue, Fed;
    var v, checked := Fed(s), AfterVerifyIfDue(s.relay, Advance(Fed(s)).uptimeMs);
    DataComesFromMailbox(s);
    RunIsTick(v, s.relay);
    TickSurroundings(v, checked.fault);
    if HvLive(Tick(v, checked.fault).0.state) {
      LiveRuns(v, checked.fault);
    }
  }

  lemma TickSurroundings(v: Vcu, fault: bool)
    ensures Tick(v, fault).0.data == v.data && Tick(v, fault).0.mutexReady == v.mutexReady
  {
    hide AfterCheck;
    AfterCheckSurroundings(ClearTrips(Advance(v)), fault);
  }

  lemma StepKeepsFreshness(s: System, t: CanManager.Timeouts, step: Step)
    requires FreshnessKept(s)
    ensures FreshnessKept(AfterStep(s, t, step))
  {
    hide AfterCanTask, AfterVcuTask;
    match step
    case CanTask(rx, now, stampMs, speedX10) => SnapshotIsDecided(s, t, rx, now, stampMs, speedX10);
    case PostEvent(event) =>
    case VcuTask => RunKeepsFreshness(s);
    case ChipReset =>
  }

  lemma BootIsFresh(bus: Bus, queueCreated: bool, mutexCreated: bool)
    ensures FreshnessKept(Boot(bus, queueCreated, mutexCreated))
    ensures !HvLive(Boot(bus, queueCreated, mutexCreated).vcu.state)
  {
    hide AfterBegin, AfterAllOff;
  }

  lemma {:induction false} FreshnessIsInvariant(bus: Bus, queueCreated: bool, mutexCreated: bool,
                                               t: CanManager.Timeouts, steps: seq<Step>)
    ensures FreshnessKept(AfterSteps(Boot(bus, queueCreated, mutexCreated), t, steps))
  {
    hide Boot, FreshnessKept, AfterStep;
    if steps == [] {
      BootIsFresh(bus, queueCreated, mutexCreated);
    } else {
      FreshnessIsInvariant(bus, queueCreated, mutexCreated, t, steps[..|steps| - 1]);
      var before := AfterSteps(Boot(bus, queueCreated, mutexCreated), t, steps[..|steps| - 1]);
      StepKeepsFreshness(before, t, steps[|steps| - 1]);
    }
  }

  /** For every interleaving of frames, posts, chip resets and ticks since boot, on any bus: a `run()` that ends in
      READY or DRIVE has a snapshot with fresh BMS data, no motor error, and voltage, temperature and current
      strictly inside the critical limits. */
  lemma LiveMeansHealthy(bus: Bus, queueCreated: bool, mutexCreated: bool, t: CanManager.Timeouts, steps: seq<Step>)
    ensures var s := AfterSteps(Boot(bus, queueCreated, mutexCreated), t, steps + [VcuTask]);
            HvLive(s.vcu.state) ==> Healthy(s.vcu.data)
  {
    hide Boot, FreshnessKept, AfterVcuTask, Healthy;
    FreshnessIsInvariant(bus, queueCreated, mutexCreated, t, steps);
    RunKeepsFreshness(AfterSteps(Boot(bus, queueCreated, mutexCreated), t, steps));
    assert (steps + [VcuTask])[..|steps|] == steps;
  }

  // ---------------------------------------------------------------- from the frames to the snapshot

  /** What the CAN task has handled over a run: frames and updates, in order. */
  function CanEvents(steps: seq<Step>): seq<CanHistory.Event> {
    if steps == [] then []
    else
      var last := steps[|steps| - 1];
      CanEvents(steps[..|steps| - 1])
      + if last.CanTask?
        then CanHistory.EventsOf(last.rx, CanManager.Taken(last.rx, 0)) + [CanHistory.Updated(last.now)]
        else []
  }

  /** The mailbox's record shows the frames handled before the latest update; it is empty before the first. */
  ghost predicate MailboxShows(t: CanManager.Timeouts, events: seq<CanHistory.Event>, mailbox: Option<TelemetryData>) {
    if events == [] then mailbox.None?
    else
      var last := events[|events| - 1];
      && mailbox.Some? && last.Updated?
      && CanHistory.ShowsHistory(t, events[..|events| - 1], last.now, mailbox.value)
  }

  /** A step of the CAN task from any history of frames: the record in the mailbox holds, field by field, the
      values of the latest accepted frames, and the stamp and speed of this step. */
  lemma CanTaskShowsHistory(s: System, t: CanManager.Timeouts, events: seq<CanHistory.Event>, step: Step)
    requires s.can == CanHistory.Apply(t, events) && step.CanTask?
    ensures var after := AfterStep(s, t, step);
            var handled := events + CanHistory.EventsOf(step.rx, CanManager.Taken(step.rx, 0));
            && after.can == CanHistory.Apply(t, handled + [CanHistory.Updated(step.now)])
            && after.mailbox.Some? && CanHistory.ShowsHistory(t, handled, step.now, after.mailbox.value)
            && after.mailbox.value.timestampMs == step.stampMs && after.mailbox.value.speedKmhX10 == step.speedX10
  {
    hide CanManager.AfterDrain, CanHistory.Apply, CanHistory.EventsOf, CanManager.Taken, CanHistory.LatestOf,
      CanHistory.Latest, CanHistory.LatestMotor, CanHistory.MotorAlive, CanHistory.CellsTimedOut, CanHistory.Since;
    var handled := events + CanHistory.EventsOf(step.rx, CanManager.Taken(step.rx, 0));
    CanHistory.DrainIsEvents(t, events, step.rx, step.now);
    CanHistory.RecordShowsHistory(t, handled, step.now);
    var record := CanManager.TelemetryOf(CanManager.AfterDrain(s.can, t, step.rx, step.now).0);
    StampKeepsHistory(t, handled, step.now, record, step.stampMs, step.speedX10);
  }

  lemma StampKeepsHistory(t: CanManager.Timeouts, events: seq<CanHistory.Event>, now: uint32, d: TelemetryData,
                          stampMs: uint32, speedX10: uint16)
    requires CanHistory.ShowsHistory(t, events, now, d)
    ensures CanHistory.ShowsHistory(t, events, now, d.(timestampMs := stampMs, speedKmhX10 := speedX10))
  {
    hide CanHistory.LatestOf, CanHistory.Latest, CanHistory.LatestMotor, CanHistory.MotorAlive, CanHistory.ShowsCells,
      CanHistory.CellsTimedOut, CanHistory.Since;
  }

  lemma OtherStepKeepsCan(s: System, t: CanManager.Timeouts, step: Step)
    requires !step.CanTask?
    ensures AfterStep(s, t, step).can == s.can && AfterStep(s, t, step).mailbox == s.mailbox
  {
    hide AfterRun;
  }

  /** For every interleaving since boot: the CAN state is that of the frames handled so far, and the mailbox shows
      them. */
  lemma {:induction false} MailboxIsHistory(bus: Bus, queueCreated: bool, mutexCreated: bool,
                                            t: CanManager.Timeouts, steps: seq<Step>)
    ensures var s := AfterSteps(Boot(bus, queueCreated, mutexCreated), t, steps);
            s.can == CanHistory.Apply(t, CanEvents(steps)) && MailboxShows(t, CanEvents(steps), s.mailbox)
  {
    hide AfterStep, CanHistory.ShowsHistory, AfterBegin, AfterAllOff, CanHistory.EventsOf, CanManager.Taken;
    if steps == [] {
      assert CanHistory.Apply(t, []) == CanManager.START;
    } else {
      var earlier, last := steps[..|steps| - 1], steps[|steps| - 1];
      var s := AfterSteps(Boot(bus, queueCreated, mutexCreated), t, earlier);
      MailboxIsHistory(bus, queueCreated, mutexCreated, t, earlier);
      hide Boot, CanHistory.Apply;
      if last.CanTask? {
        CanTaskShowsHistory(s, t, CanEvents(earlier), last);
        var handled := CanEvents(earlier) + CanHistory.EventsOf(last.rx, CanManager.Taken(last.rx, 0));
        assert CanEvents(steps) == handled + [CanHistory.Updated(last.now)];
        assert (handled + [CanHistory.Updated(last.now)])[..|handled|] == handled;
      } else {
        OtherStepKeepsCan(s, t, last);
        assert CanEvents(steps) == CanEvents(earlier);
      }
    }
  }

  /** The frames on which READY and DRIVE may last: both identifiers fresh at the latest update, the latest E000
      frame inside the limits of voltage and current, both temperatures of the latest E001 frame below the limit,
      and no confirmed motor error. Frame words are written out from their bytes. */
  ghost predicate HealthyFrames(t: CanManager.Timeouts, events: seq<CanHistory.Event>, now: uint32) {
    var e0, e1 := CanHistory.LatestOf(events, 0xE000), CanHistory.LatestOf(events, 0xE001);
    && e0.Some? && Sub32(now, e0.value.1) < t.bms && e1.Some? && Sub32(now, e1.value.1) < t.bms
    && (var p := e0.value.0;
        var volts, raw := 256 * (p[2] as int) + p[3], 256 * (p[0] as int) + p[1];
        && 600 < volts < 876
        && -150 < (if raw < 0x8000 then raw else raw - 0x1_0000) < 130)
    && (var p := e1.value.0; p[6] < 70 || 128 <= p[6])
    && (var p := e1.value.0; p[7] < 70 || 128 <= p[7])
    && CanHistory.LastOr0(CanHistory.Published(CanHistory.MotorFlags(events))) == 0
  }

  lemma HealthyShownFrames(t: CanManager.Timeouts, events: seq<CanHistory.Event>, now: uint32, d: TelemetryData)
    requires CanHistory.ShowsHistory(t, events, now, d) && Healthy(d)
    ensures HealthyFrames(t, events, now)
  {
    hide CanHistory.LatestOf, CanHistory.Latest, CanHistory.LatestMotor, CanHistory.MotorAlive, CanHistory.MotorFlags,
      CanHistory.Published, CanHistory.CellsTimedOut, CanHistory.Since, CanHistory.LastOr0;
  }

  /** `LiveMeansHealthy` in terms of what came over the bus: for every interleaving since boot, when a `run()` ends
      in READY or DRIVE, the CAN task has made an update, and the frames handled before it are healthy. */
  lemma LiveMeansHealthyFrames(bus: Bus, queueCreated: bool, mutexCreated: bool, t: CanManager.Timeouts,
                               steps: seq<Step>)
    requires HvLive(AfterSteps(Boot(bus, queueCreated, mutexCreated), t, steps + [VcuTask]).vcu.state)
    ensures var events := CanEvents(steps);
            && events != [] && events[|events| - 1].Updated?
            && HealthyFrames(t, events[..|events| - 1], events[|events| - 1].now)
  {
    hide Boot, FreshnessKept, AfterVcuTask, Healthy, HealthyFrames, CanHistory.ShowsHistory;
    var s := AfterSteps(Boot(bus, queueCreated, mutexCreated), t, steps);
    assert (steps + [VcuTask])[..|steps|] == steps;
    LiveMeansHealthy(bus, queueCreated, mutexCreated, t, steps);
    FreshnessIsInvariant(bus, queueCreated, mutexCreated, t, steps);
    MailboxIsHistory(bus, queueCreated, mutexCreated, t, steps);
    LiveRunSawMailbox(s);
    var events := CanEvents(steps);
    HealthyShownFrames(t, events[..|events| - 1], events[|events| - 1].now, s.mailbox.value);
  }

  lemma LiveRunSawMailbox(s: System)
    requires FreshnessKept(s) && HvLive(AfterVcuTask(s).vcu.state)
    ensures s.mailbox.Some? && AfterVcuTask(s).vcu.data == s.mailbox.value
  {
    hide Tick, AfterRun, AfterVerifyIfDue, Fed, Healthy;
    var v, checked := Fed(s), AfterVerifyIfDue(s.relay, Advance(Fed(s)).uptimeMs);
    RunKeepsFreshness(s);
    DataComesFromMailbox(s);
    RunIsTick(v, s.relay);
    TickSurroundings(v, checked.fault);
  }

  // ---------------------------------------------------------------- a reset chip is noticed in five runs

  function Gap(s: System): uint32 {
    Sub32(s.vcu.uptimeMs, s.relay.lastVerifyMs)
  }

  /** What holds while the bus works: the driver is ready, and in READY and DRIVE its last check is recent. */
  predicate CheckedRecently(s: System) {
    && Ready(s.relay) && Working(s.relay.bus)
    && (HvLive(s.vcu.state) ==> s.relay.verifyStarted && Gap(s) < VERIFY_PERIOD_MS)
  }

  lemma CheckIfDue(r: Relay, now: uint32)
    requires Ready(r) && Working(r.bus)
    ensures var checked := AfterVerifyIfDue(r, now);
            && Ready(checked) && Working(checked.bus) && checked.verifyStarted && checked.shadow == r.shadow
            && Sub32(now, checked.lastVerifyMs) < VERIFY_PERIOD_MS
            && (if r.verifyStarted && Sub32(now, r.lastVerifyMs) >= VERIFY_PERIOD_MS
                then InSync(checked) && checked.fault == (r.fault || !InSync(r))
                else checked.bus == r.bus && checked.fault == r.fault
                     && (r.verifyStarted ==> checked.lastVerifyMs == r.lastVerifyMs))
  {
    hide AfterVerify, Expected;
    VerifyRestoresSync(r.(lastVerifyMs := now));
  }

  lemma ActKeepsReady(r: Relay, act: Act)
    requires Ready(r) && Working(r.bus)
    ensures var after := Perform(r, act);
            && Ready(after) && Working(after.bus)
            && after.lastVerifyMs == r.lastVerifyMs && after.verifyStarted == r.verifyStarted
            && (act == ALL_ON ==> InSync(after) && after.fault == (r.fault || !InSync(WriteLatches(
                  r.(shadow := ALL_CHANNELS), LatchA(ALL_CHANNELS), LatchB(ALL_CHANNELS)))))
            && (act.ALL_OFF? ==> InSync(after) && after.shadow == 0)
  {
    hide AfterVerify, WriteLatches, Expected;
    LatchesOnWorkingBus(r.(shadow := ALL_CHANNELS), LatchA(ALL_CHANNELS), LatchB(ALL_CHANNELS));
    LatchesOnWorkingBus(r.(shadow := 0), 0xFF, 0xFF);
    VerifyRestoresSync(WriteLatches(r.(shadow := ALL_CHANNELS), LatchA(ALL_CHANNELS), LatchB(ALL_CHANNELS)));
    VerifyRestoresSync(WriteLatches(r.(shadow := 0), 0xFF, 0xFF));
  }

  lemma LatchesOnWorkingBus(r: Relay, a: bv8, b: bv8)
    requires Ready(r) && Working(r.bus)
    ensures var after := WriteLatches(r, a, b);
            && after == r.(bus := after.bus) && Working(after.bus)
            && after.bus.regs == r.bus.regs.(olatA := a, olatB := b)
  {
  }

  lemma {:induction false} ActsKeepReady(r: Relay, acts: seq<Act>)
    requires Ready(r) && Working(r.bus)
    ensures var after := PerformAll(r, acts);
            && Ready(after) && Working(after.bus)
            && after.lastVerifyMs == r.lastVerifyMs && after.verifyStarted == r.verifyStarted
  {
    hide Perform;
    if acts != [] {
      ActsKeepReady(r, acts[..|acts| - 1]);
      ActKeepsReady(PerformAll(r, acts[..|acts| - 1]), acts[|acts| - 1]);
    }
  }

  lemma RunKeepsChecks(s: System)
    requires CheckedRecently(s)
    ensures CheckedRecently(AfterVcuTask(s))
  {
    hide Tick, AfterRun, AfterVerifyIfDue, PerformAll, Fed;
    var v := Fed(s);
    var now := Advance(v).uptimeMs;
    var checked := AfterVerifyIfDue(s.relay, now);
    RunIsTick(v, s.relay);
    CheckIfDue(s.relay, now);
    ActsKeepReady(checked, Tick(v, checked.fault).1);
    if HvLive(Tick(v, checked.fault).0.state) {
      LiveRuns(v, checked.fault);
    }
  }

  lemma StepKeepsChecks(s: System, t: CanManager.Timeouts, step: Step)
    requires CheckedRecently(s)
    ensures CheckedRecently(AfterStep(s, t, step))
    ensures !step.VcuTask? ==>
              && AfterStep(s, t, step).vcu.state == s.vcu.state
              && AfterStep(s, t, step).vcu.uptimeMs == s.vcu.uptimeMs
    ensures !step.VcuTask? && !step.ChipReset? ==> AfterStep(s, t, step).relay == s.relay
  {
    hide AfterVcuTask, CanManager.AfterDrain, CanManager.TelemetryOf;
    if step.VcuTask? {
      RunKeepsChecks(s);
    }
  }

  lemma {:induction false} ChecksAreInvariant(bus: Bus, queueCreated: bool, mutexCreated: bool,
                                             t: CanManager.Timeouts, steps: seq<Step>)
    requires Working(bus)
    ensures CheckedRecently(AfterSteps(Boot(bus, queueCreated, mutexCreated), t, steps))
  {
    hide CheckedRecently, AfterStep, Boot;
    if steps == [] {
      BootIsChecked(bus, queueCreated, mutexCreated);
    } else {
      ChecksAreInvariant(bus, queueCreated, mutexCreated, t, steps[..|steps| - 1]);
      var before := AfterSteps(Boot(bus, queueCreated, mutexCreated), t, steps[..|steps| - 1]);
      StepKeepsChecks(before, t, steps[|steps| - 1]);
    }
  }

  lemma BootIsChecked(bus: Bus, queueCreated: bool, mutexCreated: bool)
    requires Working(bus)
    ensures CheckedRecently(Boot(bus, queueCreated, mutexCreated))
  {
    hide AfterBegin, AfterAllOff;
    var r := Unstarted(bus);
    BeginIsReady(r);
    ActKeepsReady(AfterBegin(r, true, true), ALL_OFF(false));
  }

  lemma BeginIsReady(r: Relay)
    requires Working(r.bus)
    ensures var after := AfterBegin(r, true, true); Ready(after) && Working(after.bus)
  {
    hide AfterVerify, Expected;
    var start := r.(attached := true);
    InitKeepsWorking(start);
    VerifyRestoresSync(WriteDirections(WriteLatches(start, 0xFF, 0xFF)).(shadow := 0, initialized := true));
  }

  /** The chip lost its directions, or that was already noticed: then the fault is latched and, unless it was latched
      before the reset, the registers match the shadow again. */
  predicate Lost(r: Relay, hadFault: bool) {
    if r.fault then hadFault || InSync(r) else r.bus.regs.iodirA != 0
  }

  /** A run with a lost chip leaves READY and DRIVE, or brings the next check 20 ms nearer. */
  lemma LostRun(s: System, hadFault: bool)
    requires CheckedRecently(s) && HvLive(s.vcu.state) && Lost(s.relay, hadFault)
    ensures var after := AfterVcuTask(s);
            && CheckedRecently(after) && Lost(after.relay, hadFault)
            && (HvLive(after.vcu.state) ==> Gap(after) == Gap(s) + TASK_PERIOD_MS)
  {
    hide Tick, AfterRun, AfterVerifyIfDue, PerformAll, Lost;
    var v := Fed(s);
    var now := Advance(v).uptimeMs;
    var checked := AfterVerifyIfDue(s.relay, now);
    RunKeepsChecks(s);
    RunIsTick(v, s.relay);
    CheckIfDue(s.relay, now);
    LostCheck(s.relay, now, hadFault);
    if HvLive(Tick(v, checked.fault).0.state) {
      LostLiveRun(s, hadFault);
    } else {
      StoppingActs(v, checked.fault);
      PerformOne(checked, CLEAR_FAULT);
    }
  }

  lemma LostLiveRun(s: System, hadFault: bool)
    requires CheckedRecently(s) && HvLive(s.vcu.state) && Lost(s.relay, hadFault)
    requires HvLive(AfterVcuTask(s).vcu.state)
    ensures Lost(AfterVcuTask(s).relay, hadFault) && Gap(AfterVcuTask(s)) == Gap(s) + TASK_PERIOD_MS
  {
    hide Tick, AfterRun, AfterVerifyIfDue, PerformAll, HasCriticalCondition, IsReadyEntryPermitted;
    var v := Fed(s);
    var now := Advance(v).uptimeMs;
    var checked := AfterVerifyIfDue(s.relay, now);
    RunIsTick(v, s.relay);
    CheckIfDue(s.relay, now);
    LostCheck(s.relay, now, hadFault);
    LiveRuns(v, checked.fault);
    assert !checked.fault;
    LostClosing(checked, Tick(v, checked.fault).1, hadFault);
    ActsKeepReady(checked, Tick(v, checked.fault).1);
    assert Sub32(now, s.relay.lastVerifyMs) == Gap(s) + TASK_PERIOD_MS;
  }

  lemma LostCheck(r: Relay, now: uint32, hadFault: bool)
    requires Ready(r) && Working(r.bus) && Lost(r, hadFault)
    ensures Lost(AfterVerifyIfDue(r, now), hadFault)
    ensures r.verifyStarted && Sub32(now, r.lastVerifyMs) >= VERIFY_PERIOD_MS ==> AfterVerifyIfDue(r, now).fault
  {
    hide AfterVerifyIfDue;
    CheckIfDue(r, now);
  }

  lemma LostClosing(r: Relay, acts: seq<Act>, hadFault: bool)
    requires Ready(r) && Working(r.bus) && Lost(r, hadFault) && !r.fault && (acts == [] || acts == [ALL_ON])
    ensures Lost(PerformAll(r, acts), hadFault)
  {
    hide Perform, WriteLatches;
    if acts == [ALL_ON] {
      assert [ALL_ON][..0] == [];
      assert PerformAll(r, []) == r;
      assert PerformAll(r, acts) == Perform(r, ALL_ON);
      ActKeepsReady(r, ALL_ON);
      LatchesOnWorkingBus(r.(shadow := ALL_CHANNELS), LatchA(ALL_CHANNELS), LatchB(ALL_CHANNELS));
    }
  }

  /** A run that leaves READY or DRIVE commands nothing. */
  lemma StoppingActs(v: Vcu, fault: bool)
    requires HvLive(v.state) && !HvLive(Tick(v, fault).0.state)
    ensures Tick(v, fault).1 == []
  {
    hide HasCriticalCondition, IsReadyEntryPermitted, IsResetInterlockSatisfied, ShutdownActs, NextLog;
  }

  function CountRuns(steps: seq<Step>): nat {
    if steps == [] then 0 else CountRuns(steps[..|steps| - 1]) + if steps[|steps| - 1].VcuTask? then 1 else 0
  }

  /** READY or DRIVE holds before and after each of the steps. */
  predicate StaysLive(s: System, t: CanManager.Timeouts, steps: seq<Step>) {
    HvLive(AfterSteps(s, t, steps).vcu.state) && (steps != [] ==> StaysLive(s, t, steps[..|steps| - 1]))
  }

  lemma ResetLoses(s: System, t: CanManager.Timeouts)
    requires Lost(s.relay, true)
    ensures Lost(AfterStep(s, t, ChipReset).relay, true) && Gap(AfterStep(s, t, ChipReset)) == Gap(s)
  {
  }

  lemma {:induction false} LostWhileLive(s: System, t: CanManager.Timeouts, steps: seq<Step>, hadFault: bool)
    requires CheckedRecently(s) && Lost(s.relay, hadFault) && StaysLive(s, t, steps)
    requires hadFault || ChipReset !in steps
    ensures var after := AfterSteps(s, t, steps);
            && CheckedRecently(after) && Lost(after.relay, hadFault)
            && Gap(after) == Gap(s) + TASK_PERIOD_MS * CountRuns(steps)
  {
    hide AfterVcuTask, AfterCanTask, CheckedRecently, Lost;
    if steps != [] {
      var earlier, last := steps[..|steps| - 1], steps[|steps| - 1];
      LostWhileLive(s, t, earlier, hadFault);
      var before := AfterSteps(s, t, earlier);
      StepKeepsChecks(before, t, last);
      if last.VcuTask? {
        LostRun(before, hadFault);
      } else if last.ChipReset? {
        assert last in steps;
        ResetLoses(before, t);
      }
    }
  }

  /** On a working bus since boot, after any history: a chip that falls back to its power-on registers makes the
      system leave READY and DRIVE within five runs, at any uptime and whatever else happens, further resets
      included. */
  lemma ResetChipIsNoticed(bus: Bus, queueCreated: bool, mutexCreated: bool, t: CanManager.Timeouts,
                           history: seq<Step>, steps: seq<Step>)
    requires Working(bus) && CountRuns(steps) >= 5
    ensures var s := AfterSteps(Boot(bus, queueCreated, mutexCreated), t, history);
            !StaysLive(AfterStep(s, t, ChipReset), t, steps)
  {
    hide Boot, AfterSteps, AfterVcuTask, AfterCanTask;
    var s := AfterSteps(Boot(bus, queueCreated, mutexCreated), t, history);
    ChecksAreInvariant(bus, queueCreated, mutexCreated, t, history);
    var reset := AfterStep(s, t, ChipReset);
    if StaysLive(reset, t, steps) {
      StepKeepsChecks(s, t, ChipReset);
      StaysLiveBefore(reset, t, steps);
      LostWhileLive(reset, t, steps, true);
    }
  }

  lemma {:induction false} StaysLiveBefore(s: System, t: CanManager.Timeouts, steps: seq<Step>)
    requires StaysLive(s, t, steps)
    ensures HvLive(s.vcu.state) && HvLive(AfterSteps(s, t, steps).vcu.state)
  {
    hide AfterStep;
    if steps != [] {
      StaysLiveBefore(s, t, steps[..|steps| - 1]);
    }
  }

  /** And the run that leaves because of it ends with registers that match the shadow, if no fault was latched when
      the chip was reset. */
  lemma NoticingRestoresRegisters(s: System, t: CanManager.Timeouts, steps: seq<Step>)
    requires CheckedRecently(s) && !s.relay.fault && ChipReset !in steps
    requires StaysLive(AfterStep(s, t, ChipReset), t, steps)
    ensures var left := AfterVcuTask(AfterSteps(AfterStep(s, t, ChipReset), t, steps));
            left.relay.fault ==> InSync(left.relay)
  {
    hide AfterVcuTask, AfterSteps, AfterCanTask;
    var reset := AfterStep(s, t, ChipReset);
    StepKeepsChecks(s, t, ChipReset);
    StaysLiveBefore(reset, t, steps);
    LostWhileLive(reset, t, steps, false);
    LostRun(AfterSteps(reset, t, steps), false);
  }

  // ---------------------------------------------------------------- a trip opens the contactors

  predicate Deenergized(r: Relay) {
    EnergizedA(r.bus.regs) == 0 && EnergizedB(r.bus.regs) == 0
  }

  lemma SyncDeenergizedIff(r: Relay)
    requires InSync(r)
    ensures Deenergized(r) <==> r.shadow == 0
  {
  }

  lemma PerformOne(r: Relay, act: Act)
    ensures PerformAll(r, []) == r && PerformAll(r, [act]) == Perform(r, act)
  {
    assert [act][..0] == [];
  }

  lemma FirstShutdownActs(timer: uint32, log: uint32)
    requires timer >= CONTACTOR_OPEN_DELAY_MS
    ensures ShutdownActs(timer, false, log)
            == if timer <= TASK_PERIOD_MS then [ZERO_TORQUE, ALL_OFF(false)] else [ALL_OFF(false)]
  {
  }

  /** What such a run does to the relays, by what it finds. */
  lemma StoppedRunRelay(v: Vcu, r: Relay)
    requires CleanQueue(v) && Stopped(v.state) && !OpenedIn(v) && v.stateTimer + TASK_PERIOD_MS < U32_SPAN
    ensures var checked := AfterVerifyIfDue(r, Advance(v).uptimeMs);
            AfterRun(v, r).1 == if TripsAtOnce(v) then r
                                else if !PollsReset(v) then AfterAllOff(checked)
                                else if RefusesReset(v) then checked
                                else checked.(fault := false)
  {
    hide Tick, AfterRun, AfterVerifyIfDue, AfterAllOff, PerformAll, CleanQueue, OpenedIn, LastLogIn, ShutdownActs;
    var checked := AfterVerifyIfDue(r, Advance(v).uptimeMs);
    RunIsTick(v, r);
    PerformOne(checked, CLEAR_FAULT);
    PerformShutdown(checked, false);
    if !TripsAtOnce(v) {
      StoppedRun(v, checked.fault);
      if !PollsReset(v) {
        StoppedTick(v, checked.fault);
        FirstShutdownActs(v.stateTimer + TASK_PERIOD_MS, LastLogIn(v));
      }
    }
  }

  lemma AllOffSyncs(r: Relay)
    requires Ready(r) && Working(r.bus)
    ensures InSync(AfterAllOff(r)) && AfterAllOff(r).shadow == 0
  {
    hide AfterAllOff;
    ActKeepsReady(r, ALL_OFF(false));
  }

  /** The relays after such a run, for each thing it may find. */
  lemma StoppedRunShadow(v: Vcu, r: Relay)
    requires CleanQueue(v) && Stopped(v.state) && !OpenedIn(v) && v.stateTimer + TASK_PERIOD_MS < U32_SPAN
    requires Ready(r) && Working(r.bus)
    ensures var relay, free := AfterRun(v, r).1, !TripsAtOnce(v) && !PollsReset(v);
            && relay.shadow == (if free then 0 else r.shadow)
            && (free || InSync(r) ==> InSync(relay))
  {
    hide AfterRun, AfterVerifyIfDue, AfterAllOff, CleanQueue, Expected, OpenedIn, PollsReset, RefusesReset,
      TripsAtOnce, Ready, Working;
    var now := Advance(v).uptimeMs;
    StoppedRunRelay(v, r);
    CheckIfDue(r, now);
    AllOffSyncs(AfterVerifyIfDue(r, now));
  }

  /** A stopped machine whose contactors were not yet commanded open, with any relay state on a working bus: the next
      run empties the shadow and leaves no relay energised exactly when it takes no other trip and polls no RESET;
      otherwise it keeps the shadow, and registers that matched it still do. */
  lemma RunOpensIff(v: Vcu, r: Relay)
    requires CleanQueue(v) && Stopped(v.state) && !OpenedIn(v) && v.stateTimer + TASK_PERIOD_MS < U32_SPAN
    requires Ready(r) && Working(r.bus)
    ensures var (_, relay, acts) := AfterRun(v, r);
            var free := !TripsAtOnce(v) && !PollsReset(v);
            && (free <==> ALL_OFF(false) in acts)
            && relay.shadow == (if free then 0 else r.shadow)
            && (free || InSync(r) ==> InSync(relay))
            && (free ==> Deenergized(relay))
            && (InSync(r) ==> (Deenergized(relay) <==> free || r.shadow == 0))
  {
    hide Tick, AfterRun, AfterVerifyIfDue, CleanQueue, Deenergized, InSync, OpenedIn, PollsReset, TripsAtOnce, Ready,
      Working, PerformAll;
    RunIsTick(v, r);
    OpensIff(v, AfterVerifyIfDue(r, Advance(v).uptimeMs).fault);
    StoppedRunShadow(v, r);
    if InSync(AfterRun(v, r).1) {
      SyncDeenergizedIff(AfterRun(v, r).1);
    }
  }

  /** The first run after a trip, when it takes no other trip and polls no RESET: zero torque, then opening, and on a
      working bus no relay stays energised. */
  lemma FirstHandledRunDeenergizes(v: Vcu, r: Relay)
    requires CleanQueue(v) && JustStopped(v) && !TripsAtOnce(v) && !PollsReset(v) && Ready(r) && Working(r.bus)
    ensures var relay := AfterRun(v, r).1;
            relay.shadow == 0 && InSync(relay) && Deenergized(relay)
    ensures AfterRun(v, r).2 == [ZERO_TORQUE, ALL_OFF(false)]
  {
    hide Tick, AfterRun, AfterVerifyIfDue, PerformAll, CleanQueue;
    var checked := AfterVerifyIfDue(r, Advance(v).uptimeMs);
    RunOpensIff(v, r);
    RunIsTick(v, r);
    StoppedRun(v, checked.fault);
    StoppedTick(v, checked.fault);
  }

  function StoppedBy(trip: VcuEvent): VcuState {
    if trip == EMERGENCY_STOP_EVENT then EMERGENCY_STOP else FAULT
  }

  /** The run after a trip, on what it finds. */
  lemma RunAfterTrip(v: Vcu, r: Relay)
    requires CleanQueue(v) && JustStopped(v) && Ready(r) && Working(r.bus)
    ensures var (w, relay, acts) := AfterRun(v, r);
            var free := !TripsAtOnce(v) && !PollsReset(v);
            && (free ==> w.state == v.state && acts == [ZERO_TORQUE, ALL_OFF(false)] && Deenergized(relay))
            && relay.shadow == (if free then 0 else r.shadow)
            && (InSync(r) ==> InSync(relay) && (Deenergized(relay) <==> free || r.shadow == 0))
  {
    hide Tick, AfterRun, AfterVerifyIfDue, PerformAll, Deenergized, CleanQueue, Expected;
    RunOpensIff(v, r);
    if !TripsAtOnce(v) && !PollsReset(v) {
      FirstHandledRunDeenergizes(v, r);
      RunIsTick(v, r);
      StoppedRun(v, AfterVerifyIfDue(r, Advance(v).uptimeMs).fault);
    }
  }

  /** The run that takes a posted trip, and the machine that the next run finds. */
  lemma RunOfTrip(v: Vcu, r: Relay, trip: VcuEvent, inputs: seq<Input>, inputs2: seq<Input>)
    requires CleanQueue(v) && v.queueReady
    requires IsTrip(trip) && v.state != StoppedBy(trip) && Post(trip) in inputs
    ensures var (v1, r1, acts1) := AfterRun(Receive(v, inputs), r);
            var w := Receive(v1, inputs2);
            && r1 == r && acts1 == [] && w.state == v1.state && JustStopped(w) && CleanQueue(w)
  {
    hide Tick, AfterRun, Receive, CleanQueue;
    ReceiveKeepsTrips(v, inputs);
    ReceiveKeepsQueueClean(v, inputs);
    TrippedRun(Receive(v, inputs), r);
    var v1 := AfterRun(Receive(v, inputs), r).0;
    ReceiveKeepsTrips(v1, inputs2);
    ReceiveKeepsQueueClean(v1, inputs2);
  }

  /** A posted trip, from any other state, with any queue content and other posts. The next run commands nothing and
      leaves the relays alone; the run after it leaves no relay energised exactly when neither the other trip is
      pending then nor a RESET at the head of the queue, or the shadow was empty before. */
  lemma TripOpensInTwoRuns(v: Vcu, r: Relay, trip: VcuEvent, inputs: seq<Input>, inputs2: seq<Input>)
    requires CleanQueue(v) && v.queueReady && Ready(r) && Working(r.bus)
    requires IsTrip(trip) && v.state != StoppedBy(trip) && Post(trip) in inputs
    ensures var (v1, r1, acts1) := AfterRun(Receive(v, inputs), r);
            var w := Receive(v1, inputs2);
            var (v2, r2, acts2) := AfterRun(w, r1);
            var free := !TripsAtOnce(w) && !PollsReset(w);
            && Stopped(v1.state) && r1 == r && acts1 == []
            && (free ==> v2.state == v1.state && acts2 == [ZERO_TORQUE, ALL_OFF(false)] && Deenergized(r2))
            && r2.shadow == (if free then 0 else r.shadow)
            && (InSync(r) ==> InSync(r2) && (Deenergized(r2) <==> free || r.shadow == 0))
  {
    hide AfterRun, Receive, Deenergized, CleanQueue, InSync, TripsAtOnce, PollsReset, OpenedIn, LastLogIn, Working;
    RunOfTrip(v, r, trip, inputs, inputs2);
    RunAfterTrip(Receive(AfterRun(Receive(v, inputs), r).0, inputs2), r);
  }

  lemma TrippedRun(v: Vcu, r: Relay)
    requires CleanQueue(v) && TripsAtOnce(v)
    ensures var (w, relay, acts) := AfterRun(v, r);
            && JustStopped(w) && CleanQueue(w) && relay == r && acts == []
            && w.state == if v.eStopPending && v.state != EMERGENCY_STOP then EMERGENCY_STOP else FAULT
  {
    hide AfterCheck, AfterVerifyIfDue, PerformAll;
    RunIsTick(v, r);
    TripsStartTheShutdown(v, AfterVerifyIfDue(r, Advance(v).uptimeMs).fault);
    TickKeepsQueueClean(v, AfterVerifyIfDue(r, Advance(v).uptimeMs).fault);
  }

  /** With relays energised, a posted E-STOP leaves none energised after two runs exactly when no fault is pending and
      no RESET is at the head of the queue before the second one. */
  lemma EStopOpensInTwoRuns(v: Vcu, r: Relay, inputs: seq<Input>, inputs2: seq<Input>)
    requires CleanQueue(v) && v.queueReady && Ready(r) && Working(r.bus) && InSync(r) && r.shadow != 0
    requires v.state != EMERGENCY_STOP && Post(EMERGENCY_STOP_EVENT) in inputs
    ensures var (v1, r1, _) := AfterRun(Receive(v, inputs), r);
            var w := Receive(v1, inputs2);
            v1.state == EMERGENCY_STOP && (Deenergized(AfterRun(w, r1).1) <==> !w.faultPending && !PollsReset(w))
  {
    hide Tick, AfterRun, Receive, Deenergized, CleanQueue, Expected;
    TripOpensInTwoRuns(v, r, EMERGENCY_STOP_EVENT, inputs, inputs2);
    ReceiveKeepsTrips(v, inputs);
    ReceiveKeepsQueueClean(v, inputs);
    TrippedRun(Receive(v, inputs), r);
    ReceiveKeepsTrips(AfterRun(Receive(v, inputs), r).0, inputs2);
  }

  /** The same for a posted fault, when no E-STOP is pending that goes first. */
  lemma FaultOpensInTwoRuns(v: Vcu, r: Relay, inputs: seq<Input>, inputs2: seq<Input>)
    requires CleanQueue(v) && v.queueReady && Ready(r) && Working(r.bus) && InSync(r) && r.shadow != 0
    requires v.state != FAULT && Post(FAULT_DETECTED) in inputs
    requires v.state == EMERGENCY_STOP || (!v.eStopPending && Post(EMERGENCY_STOP_EVENT) !in inputs)
    ensures var (v1, r1, _) := AfterRun(Receive(v, inputs), r);
            var w := Receive(v1, inputs2);
            v1.state == FAULT && (Deenergized(AfterRun(w, r1).1) <==> !w.eStopPending && !PollsReset(w))
  {
    hide Tick, AfterRun, Receive, Deenergized, CleanQueue, Expected;
    TripOpensInTwoRuns(v, r, FAULT_DETECTED, inputs, inputs2);
    ReceiveKeepsTrips(v, inputs);
    ReceiveKeepsQueueClean(v, inputs);
    TrippedRun(Receive(v, inputs), r);
    ReceiveKeepsTrips(AfterRun(Receive(v, inputs), r).0, inputs2);
  }

  // ---------------------------------------------------------------- what must stop the vehicle opens the contactors

  lemma StepKeepsQueueClean(s: System, t: CanManager.Timeouts, step: Step)
    requires CleanQueue(s.vcu)
    ensures CleanQueue(AfterStep(s, t, step).vcu)
  {
    hide CanManager.AfterDrain, CanManager.TelemetryOf, Tick, AfterRun, AfterVerifyIfDue, PerformAll;
    if step.VcuTask? {
      var fault := AfterVerifyIfDue(s.relay, Advance(Fed(s)).uptimeMs).fault;
      RunIsTick(Fed(s), s.relay);
      TickKeepsQueueClean(Fed(s), fault);
    }
  }

  lemma {:induction false} QueueIsClean(bus: Bus, queueCreated: bool, mutexCreated: bool,
                                        t: CanManager.Timeouts, steps: seq<Step>)
    ensures CleanQueue(AfterSteps(Boot(bus, queueCreated, mutexCreated), t, steps).vcu)
  {
    hide AfterStep, AfterBegin, AfterAllOff;
    if steps != [] {
      QueueIsClean(bus, queueCreated, mutexCreated, t, steps[..|steps| - 1]);
      var before := AfterSteps(Boot(bus, queueCreated, mutexCreated), t, steps[..|steps| - 1]);
      StepKeepsQueueClean(before, t, steps[|steps| - 1]);
    }
  }

  lemma OtherStepKeepsShutdown(s: System, t: CanManager.Timeouts, step: Step)
    requires JustStopped(s.vcu) && !step.VcuTask?
    ensures JustStopped(AfterStep(s, t, step).vcu)
  {
    hide CanManager.AfterDrain, CanManager.TelemetryOf;
  }

  /** Steps of other tasks leave the shutdown of the state machine as it is. */
  lemma {:induction false} BetweenRuns(s: System, t: CanManager.Timeouts, steps: seq<Step>)
    requires CountRuns(steps) == 0 && CleanQueue(s.vcu) && JustStopped(s.vcu) && CheckedRecently(s)
    ensures var after := AfterSteps(s, t, steps);
            CleanQueue(after.vcu) && JustStopped(after.vcu) && CheckedRecently(after)
  {
    hide CheckedRecently, CleanQueue, JustStopped, AfterStep;
    if steps != [] {
      var before, last := AfterSteps(s, t, steps[..|steps| - 1]), steps[|steps| - 1];
      BetweenRuns(s, t, steps[..|steps| - 1]);
      StepKeepsChecks(before, t, last);
      StepKeepsQueueClean(before, t, last);
      OtherStepKeepsShutdown(before, t, last);
    }
  }

  /** The queue exists, or the machine never leaves INIT. */
  predicate Listening(v: Vcu) {
    v.queueReady || Deaf(v)
  }

  lemma StepKeepsListening(s: System, t: CanManager.Timeouts, step: Step)
    requires CleanQueue(s.vcu) && Listening(s.vcu)
    ensures Listening(AfterStep(s, t, step).vcu)
  {
    hide CanManager.AfterDrain, CanManager.TelemetryOf, Tick, AfterRun, AfterVerifyIfDue, PerformAll;
    if step.VcuTask? {
      var fault := AfterVerifyIfDue(s.relay, Advance(Fed(s)).uptimeMs).fault;
      RunIsTick(Fed(s), s.relay);
      TickKeepsQueueClean(Fed(s), fault);
      if Deaf(s.vcu) {
        DeafTicks(Fed(s), fault);
      }
    }
  }

  lemma {:induction false} LiveIsListening(bus: Bus, queueCreated: bool, mutexCreated: bool,
                                           t: CanManager.Timeouts, steps: seq<Step>)
    ensures var v := AfterSteps(Boot(bus, queueCreated, mutexCreated), t, steps).vcu;
            Listening(v) && (HvLive(v.state) ==> v.queueReady)
  {
    hide AfterStep, AfterBegin, AfterAllOff, CleanQueue;
    if steps != [] {
      var before := AfterSteps(Boot(bus, queueCreated, mutexCreated), t, steps[..|steps| - 1]);
      LiveIsListening(bus, queueCreated, mutexCreated, t, steps[..|steps| - 1]);
      QueueIsClean(bus, queueCreated, mutexCreated, t, steps[..|steps| - 1]);
      StepKeepsListening(before, t, steps[|steps| - 1]);
    }
  }

  lemma FedKeepsQueueClean(s: System)
    requires CleanQueue(s.vcu)
    ensures CleanQueue(Fed(s))
  {
  }

  /** Why the next run may not end in READY or DRIVE: a critical snapshot, a pending trip or a latched actuator
      fault. */
  predicate MustStop(s: System) {
    HasCriticalCondition(Fed(s).data, s.vcu.state) || TripsAtOnce(Fed(s)) || s.relay.fault
  }

  lemma LiveRunStops(v: Vcu, fault: bool)
    requires CleanQueue(v) && HvLive(v.state)
    requires HasCriticalCondition(v.data, v.state) || TripsAtOnce(v) || fault
    ensures JustStopped(Tick(v, fault).0)
  {
    hide AfterCheck, HasCriticalCondition, IsReadyEntryPermitted, IsResetInterlockSatisfied, Enters;
    if HvLive(Tick(v, fault).0.state) {
      LiveRuns(v, fault);
    }
    LeavesForStop(v, fault);
    if Stopped(Tick(v, fault).0.state) {
      TripsStartTheShutdown(v, fault);
    }
  }

  lemma LeavesForStop(v: Vcu, fault: bool)
    requires HvLive(v.state)
    ensures HvLive(Tick(v, fault).0.state) || Stopped(Tick(v, fault).0.state)
  {
    hide Tick, IsReadyEntryPermitted, IsResetInterlockSatisfied;
    WaysIn(v, fault);
  }

  lemma MustStopRun(s: System)
    requires CleanQueue(s.vcu) && HvLive(s.vcu.state) && CheckedRecently(s) && MustStop(s)
    ensures JustStopped(AfterVcuTask(s).vcu)
  {
    hide Tick, AfterRun, AfterVerifyIfDue, PerformAll, CleanQueue, JustStopped, HasCriticalCondition;
    var v := Fed(s);
    FedKeepsQueueClean(s);
    CheckIfDue(s.relay, Advance(v).uptimeMs);
    RunIsTick(v, s.relay);
    LiveRunStops(v, AfterVerifyIfDue(s.relay, Advance(v).uptimeMs).fault);
  }

  /** On a working bus since boot and after any history: in READY or DRIVE, a critical snapshot, a pending trip or an
      actuator fault stops the machine in its next run, and whatever other tasks do before the run after that, that
      one leaves no relay energised when it finds no trip pending to the other stopped state and no RESET. */
  lemma MustStopOpensContactors(bus: Bus, queueCreated: bool, mutexCreated: bool, t: CanManager.Timeouts,
                                history: seq<Step>, between: seq<Step>)
    requires Working(bus) && CountRuns(between) == 0
    requires HvLive(AfterSteps(Boot(bus, queueCreated, mutexCreated), t, history).vcu.state)
    requires MustStop(AfterSteps(Boot(bus, queueCreated, mutexCreated), t, history))
    ensures var stopped := AfterVcuTask(AfterSteps(Boot(bus, queueCreated, mutexCreated), t, history));
            var next := AfterSteps(stopped, t, between);
            && Stopped(stopped.vcu.state)
            && (!TripsAtOnce(Fed(next)) && !PollsReset(Fed(next)) ==> Deenergized(AfterVcuTask(next).relay))
  {
    hide Boot, AfterSteps, AfterVcuTask, CheckedRecently, CleanQueue, Deenergized, CountRuns, MustStop;
    var s := AfterSteps(Boot(bus, queueCreated, mutexCreated), t, history);
    ChecksAreInvariant(bus, queueCreated, mutexCreated, t, history);
    QueueIsClean(bus, queueCreated, mutexCreated, t, history);
    MustStopRun(s);
    StepKeepsChecks(s, t, VcuTask);
    StepKeepsQueueClean(s, t, VcuTask);
    BetweenRuns(AfterVcuTask(s), t, between);
    FreeRunDeenergizes(AfterSteps(AfterVcuTask(s), t, between));
  }

  lemma StaleDrainTimesOut(c: CanManager.Can, t: CanManager.Timeouts, rx: seq<CanManager.Rx>, now: uint32)
    requires CanHistory.BothSeen(c.bms)
    requires var b := CanManager.AfterDrain(c, t, rx, now).0.bms;
             Sub32(now, b.lastE000Tick) >= t.bms || Sub32(now, b.lastE001Tick) >= t.bms
    ensures CanManager.AfterDrain(c, t, rx, now).0.bms.timeoutActive
  {
    hide CanManager.AfterFrames, CanManager.AfterMotorUpdate, CanManager.AfterCellUpdate;
    CanHistory.SeenIsSticky(c, rx, CanManager.Taken(rx, 0));
  }

  /** A drain in READY or DRIVE that finds one identifier older than the limit, or that reports a fault, is a
      reason to stop. */
  lemma DrainMustStop(s: System, t: CanManager.Timeouts, rx: seq<CanManager.Rx>, now: uint32, stampMs: uint32,
                      speedX10: uint16)
    requires FreshnessKept(s) && HvLive(s.vcu.state) && s.vcu.queueReady
    requires var (can, faults) := CanManager.AfterDrain(s.can, t, rx, now);
             faults > 0 || Sub32(now, can.bms.lastE000Tick) >= t.bms || Sub32(now, can.bms.lastE001Tick) >= t.bms
    ensures MustStop(AfterCanTask(s, t, rx, now, stampMs, speedX10))
    ensures AfterCanTask(s, t, rx, now, stampMs, speedX10).vcu.state == s.vcu.state
  {
    hide CanManager.AfterDrain;
    if CanManager.AfterDrain(s.can, t, rx, now).1 == 0 {
      StaleDrainTimesOut(s.can, t, rx, now);
    }
  }

  /** So two runs after such a drain no relay is energised, under the same guard. */
  lemma DrainOpensContactors(bus: Bus, queueCreated: bool, mutexCreated: bool, t: CanManager.Timeouts,
                             history: seq<Step>, drain: Step, between: seq<Step>)
    requires Working(bus) && CountRuns(between) == 0 && drain.CanTask?
    requires HvLive(AfterSteps(Boot(bus, queueCreated, mutexCreated), t, history).vcu.state)
    requires var s := AfterSteps(Boot(bus, queueCreated, mutexCreated), t, history);
             var (can, faults) := CanManager.AfterDrain(s.can, t, drain.rx, drain.now);
             || faults > 0
             || Sub32(drain.now, can.bms.lastE000Tick) >= t.bms || Sub32(drain.now, can.bms.lastE001Tick) >= t.bms
    ensures var stopped := AfterVcuTask(AfterSteps(Boot(bus, queueCreated, mutexCreated), t, history + [drain]));
            var next := AfterSteps(stopped, t, between);
            && Stopped(stopped.vcu.state)
            && (!TripsAtOnce(Fed(next)) && !PollsReset(Fed(next)) ==> Deenergized(AfterVcuTask(next).relay))
  {
    hide Boot, AfterCanTask, AfterVcuTask, FreshnessKept, Deenergized, CountRuns, MustStop, CanManager.AfterDrain;
    var s := AfterSteps(Boot(bus, queueCreated, mutexCreated), t, history);
    assert (history + [drain])[..|history|] == history;
    FreshnessIsInvariant(bus, queueCreated, mutexCreated, t, history);
    LiveIsListening(bus, queueCreated, mutexCreated, t, history);
    DrainMustStop(s, t, drain.rx, drain.now, drain.stampMs, drain.speedX10);
    MustStopOpensContactors(bus, queueCreated, mutexCreated, t, history + [drain], between);
  }

  lemma FreeRunDeenergizes(s: System)
    requires CleanQueue(s.vcu) && JustStopped(s.vcu) && CheckedRecently(s)
    ensures !TripsAtOnce(Fed(s)) && !PollsReset(Fed(s)) ==> Deenergized(AfterVcuTask(s).relay)
  {
    hide AfterRun, Deenergized, Expected;
    if !TripsAtOnce(Fed(s)) && !PollsReset(Fed(s)) {
      FirstHandledRunDeenergizes(Fed(s), s.relay);
    }
  }

  // ---------------------------------------------------------------- IDLE with the contactors closed is reachable

  const GOOD_E000: CanManager.Frame := CanManager.Frame(false, true, 0xE000, 8, [0, 0, 3, 0x20, 0, 0, 0, 0])
  const GOOD_E001: CanManager.Frame := CanManager.Frame(false, true, 0xE001, 8, [0, 0, 0, 0, 0, 0, 25, 25])
  const GOOD_FRAMES: seq<CanManager.Rx> := [CanManager.Received(GOOD_E000, 0), CanManager.Received(GOOD_E001, 0)]

  const TO_READY: seq<Step> := [CanTask(GOOD_FRAMES, 0, 0, 0), PostEvent(START_REQUEST), VcuTask]
  const TO_DRIVE: seq<Step> := [PostEvent(DRIVE_ENABLE), VcuTask]
  const TO_IDLE: seq<Step> := [PostEvent(RESET), PostEvent(EMERGENCY_STOP_EVENT), VcuTask, VcuTask]

  /** A machine with no event waiting and a snapshot on which it may start and may be reset. */
  predicate Quiet(s: System) {
    && s.vcu.queueReady && s.vcu.mutexReady && s.vcu.queue == [] && !s.vcu.eStopPending && !s.vcu.faultPending
    && s.mailbox.Some? && IsReadyEntryPermitted(s.mailbox.value)
        && IsResetInterlockSatisfied(s.mailbox.value, EMERGENCY_STOP)
  }

  lemma GoodDrain(t: CanManager.Timeouts)
    requires t.bms > 0
    ensures var (can, faults) := CanManager.AfterDrain(CanManager.START, t, GOOD_FRAMES, 0);
            && faults == 0
            && var d := CanManager.TelemetryOf(can).(timestampMs := 0, speedKmhX10 := 0);
               IsReadyEntryPermitted(d) && IsResetInterlockSatisfied(d, EMERGENCY_STOP)
  {
    var c1 := CanManager.AfterFrame(CanManager.START, GOOD_E000, 0).0;
    assert CanManager.AfterFrames(CanManager.START, GOOD_FRAMES, 0) == (CanManager.START, 0);
    assert CanManager.AfterFrames(CanManager.START, GOOD_FRAMES, 1) == (c1, 0);
    assert CanManager.Taken(GOOD_FRAMES, 0) == 2;
  }

  lemma StepsMore(s: System, t: CanManager.Timeouts, steps: seq<Step>, last: Step)
    ensures AfterSteps(s, t, []) == s
    ensures AfterSteps(s, t, steps + [last]) == AfterStep(AfterSteps(s, t, steps), t, last)
  {
    hide AfterStep;
    assert (steps + [last])[..|steps|] == steps;
  }

  lemma StepsOfThree(s: System, t: CanManager.Timeouts, a: Step, b: Step, c: Step)
    ensures AfterSteps(s, t, [a, b, c]) == AfterStep(AfterStep(AfterStep(s, t, a), t, b), t, c)
  {
    hide AfterStep, AfterSteps;
    StepsMore(s, t, [], a);
    StepsMore(s, t, [a], b);
    StepsMore(s, t, [a, b], c);
    assert [] + [a] == [a] && [a] + [b] == [a, b] && [a, b] + [c] == [a, b, c];
  }

  lemma StepsOfFour(s: System, t: CanManager.Timeouts, a: Step, b: Step, c: Step, d: Step)
    ensures AfterSteps(s, t, [a, b, c, d]) == AfterStep(AfterStep(AfterStep(AfterStep(s, t, a), t, b), t, c), t, d)
  {
    hide AfterStep, AfterSteps;
    StepsOfThree(s, t, a, b, c);
    StepsMore(s, t, [a, b, c], d);
    assert [a, b, c] + [d] == [a, b, c, d];
  }

  lemma {:induction false} StepsConcat(s: System, t: CanManager.Timeouts, a: seq<Step>, b: seq<Step>)
    ensures AfterSteps(s, t, a + b) == AfterSteps(AfterSteps(s, t, a), t, b)
  {
    hide AfterStep;
    if b == [] {
      assert a + b == a;
    } else {
      StepsConcat(s, t, a, b[..|b| - 1]);
      assert (a + b)[..|a + b| - 1] == a + b[..|b| - 1];
    }
  }

  /** A run that starts a quiet machine from IDLE closes the contactors. */
  lemma StartRun(v: Vcu, fault: bool)
    requires v.state == IDLE && v.queue == [START_REQUEST] && !v.eStopPending && !v.faultPending
    requires IsReadyEntryPermitted(v.data) && !fault
    ensures var (w, acts) := Tick(v, fault);
            && w.state == READY && acts == [ALL_ON] && w.queue == [] && !w.eStopPending && !w.faultPending
            && w.queueReady == v.queueReady && w.mutexReady == v.mutexReady
  {
    hide HasWarningCondition, HasCriticalCondition;
    AfterCheckSurroundings(ClearTrips(Advance(v)), fault);
  }

  lemma BootOnGoodBus(bus: Bus)
    requires Working(bus) && bus.regs == POWER_ON
    ensures var s := Boot(bus, true, true);
            && s.can == CanManager.START && CheckedRecently(s) && InSync(s.relay) && !s.relay.fault
            && s.vcu.state == IDLE && s.vcu.queueReady && s.vcu.mutexReady && s.vcu.queue == []
            && !s.vcu.eStopPending && !s.vcu.faultPending
  {
    hide AfterBegin, AfterVerify, WriteLatches, CheckedRecently, Written, Fires, Expected;
    BootIsChecked(bus, true, true);
    BeginIsSafe(Unstarted(bus));
    BeginIsReady(Unstarted(bus));
    var begun := AfterBegin(Unstarted(bus), true, true);
    ExpectedOff();
    LatchesOnWorkingBus(begun, 0xFF, 0xFF);
    VerifyRestoresSync(WriteLatches(begun, 0xFF, 0xFF));
  }

  /** From boot on a working bus, two good frames and a START reach READY with every relay energised. */
  lemma ReadyIsReachable(bus: Bus, t: CanManager.Timeouts)
    requires Working(bus) && bus.regs == POWER_ON && t.bms > 0
    ensures var s := AfterSteps(Boot(bus, true, true), t, TO_READY);
            && s.vcu.state == READY && Quiet(s) && CheckedRecently(s) && InSync(s.relay) && !s.relay.fault
            && s.relay.shadow == ALL_CHANNELS
  {
    hide Boot, CheckedRecently, CanManager.AfterDrain, CanManager.TelemetryOf, AfterVcuTask, Expected,
      IsReadyEntryPermitted, IsResetInterlockSatisfied;
    var boot := Boot(bus, true, true);
    BootOnGoodBus(bus);
    GoodDrain(t);
    StepsOfThree(boot, t, TO_READY[0], TO_READY[1], TO_READY[2]);
    var s1 := AfterStep(boot, t, TO_READY[0]);
    var s2 := AfterStep(s1, t, TO_READY[1]);
    StepKeepsChecks(boot, t, TO_READY[0]);
    StepKeepsChecks(s1, t, TO_READY[1]);
    StepKeepsChecks(s2, t, VcuTask);
    assert s2.vcu.queue == [START_REQUEST];
    RunFromIdle(s2);
  }

  lemma RunFromIdle(s: System)
    requires s.vcu.state == IDLE && s.vcu.queue == [START_REQUEST] && Quiet(s.(vcu := s.vcu.(queue := [])))
    requires CheckedRecently(s) && InSync(s.relay) && !s.relay.fault
    ensures var after := AfterVcuTask(s);
            && after.vcu.state == READY && Quiet(after) && InSync(after.relay) && after.relay.shadow == ALL_CHANNELS
            && !after.relay.fault
  {
    hide AfterRun, AfterVerifyIfDue, AfterAllOn, Tick, Expected, IsReadyEntryPermitted, IsResetInterlockSatisfied;
    var v := Fed(s);
    var checked := AfterVerifyIfDue(s.relay, Advance(v).uptimeMs);
    CheckIfDue(s.relay, Advance(v).uptimeMs);
    StartRun(v, checked.fault);
    RunIsTick(v, s.relay);
    PerformOne(checked, ALL_ON);
    CommandsSetTheRegisters(checked, 0, true);
    ClosingFindsNoFault(checked);
  }

  lemma ClosingFindsNoFault(r: Relay)
    requires Ready(r) && Working(r.bus) && InSync(r) && !r.fault
    ensures !AfterAllOn(r).fault
  {
    hide AfterVerify, WriteLatches;
    ActKeepsReady(r, ALL_ON);
    LatchesOnWorkingBus(r.(shadow := ALL_CHANNELS), LatchA(ALL_CHANNELS), LatchB(ALL_CHANNELS));
  }

  /** From boot on a working bus, a DRIVE_ENABLE posted in that READY reaches DRIVE with every relay still
      energised. */
  lemma DriveIsReachable(bus: Bus, t: CanManager.Timeouts)
    requires Working(bus) && bus.regs == POWER_ON && t.bms > 0
    ensures var s := AfterSteps(Boot(bus, true, true), t, TO_READY + TO_DRIVE);
            && s.vcu.state == DRIVE && InSync(s.relay) && s.relay.shadow == ALL_CHANNELS && !s.relay.fault
  {
    hide Boot, AfterSteps, AfterVcuTask, CheckedRecently, Expected, IsReadyEntryPermitted, IsResetInterlockSatisfied;
    ReadyIsReachable(bus, t);
    var ready := AfterSteps(Boot(bus, true, true), t, TO_READY);
    StepsConcat(Boot(bus, true, true), t, TO_READY, TO_DRIVE);
    var posted := AfterStep(ready, t, TO_DRIVE[0]);
    StepsOfTwo(ready, t, TO_DRIVE[0], VcuTask);
    StepKeepsChecks(ready, t, TO_DRIVE[0]);
    RunFromReady(posted);
  }

  lemma StepsOfTwo(s: System, t: CanManager.Timeouts, a: Step, b: Step)
    ensures AfterSteps(s, t, [a, b]) == AfterStep(AfterStep(s, t, a), t, b)
  {
    hide AfterStep, AfterSteps;
    StepsMore(s, t, [], a);
    StepsMore(s, t, [a], b);
    assert [] + [a] == [a] && [a] + [b] == [a, b];
  }

  lemma RunFromReady(s: System)
    requires s.vcu.state == READY && s.vcu.queue == [DRIVE_ENABLE] && Quiet(s.(vcu := s.vcu.(queue := [])))
    requires CheckedRecently(s) && InSync(s.relay) && !s.relay.fault
    ensures var after := AfterVcuTask(s);
            && after.vcu.state == DRIVE && InSync(after.relay) && after.relay.shadow == s.relay.shadow
            && !after.relay.fault
  {
    hide AfterRun, AfterVerifyIfDue, Tick, Expected, IsReadyEntryPermitted, HasCriticalCondition;
    var v := Fed(s);
    var checked := AfterVerifyIfDue(s.relay, Advance(v).uptimeMs);
    CheckIfDue(s.relay, Advance(v).uptimeMs);
    CriticalIff(v.data, READY);
    CriticalIff(v.data, EMERGENCY_STOP);
    assert CleanQueue(v);
    ReadyRunEnds(v, checked.fault);
    RestingCommandsNothing(v, checked.fault);
    RunIsTick(v, s.relay);
    PerformOne(checked, ALL_ON);
  }

  /** From a quiet READY, a RESET followed by an E-STOP: the first run takes the trip, the second accepts the RESET
      before the shutdown's handler ran, and the machine is in IDLE with the contactors as they were. */
  lemma ResetLeavesContactors(s: System, t: CanManager.Timeouts)
    requires s.vcu.state == READY && Quiet(s) && CheckedRecently(s) && InSync(s.relay)
    ensures var after := AfterSteps(s, t, TO_IDLE);
            after.vcu.state == IDLE && InSync(after.relay) && after.relay.shadow == s.relay.shadow
  {
    hide CheckedRecently, AfterRun, AfterVerifyIfDue, Tick, Expected, IsReadyEntryPermitted, IsResetInterlockSatisfied;
    StepsOfFour(s, t, TO_IDLE[0], TO_IDLE[1], TO_IDLE[2], TO_IDLE[3]);
    var s1 := AfterStep(s, t, TO_IDLE[0]);
    var s2 := AfterStep(s1, t, TO_IDLE[1]);
    var s3 := AfterStep(s2, t, VcuTask);
    StepKeepsChecks(s, t, TO_IDLE[0]);
    StepKeepsChecks(s1, t, TO_IDLE[1]);
    StepKeepsChecks(s2, t, VcuTask);
    assert s2.vcu.queue == [RESET] && CleanQueue(Fed(s2));
    TrippedRun(Fed(s2), s2.relay);
    TripKeepsTheRest(Fed(s2), s2.relay);
    AcceptedRun(s3);
  }

  lemma TripKeepsTheRest(v: Vcu, r: Relay)
    requires TripsAtOnce(v) && v.eStopPending && v.state == READY && !v.faultPending
    ensures var w := AfterRun(v, r).0;
            && w.queue == v.queue && !w.faultPending && !w.eStopPending && w.data == v.data
            && w.queueReady == v.queueReady && w.mutexReady == v.mutexReady
  {
    hide AfterCheck, AfterVerifyIfDue, PerformAll;
  }

  lemma AcceptedRun(s: System)
    requires JustStopped(s.vcu) && s.vcu.state == EMERGENCY_STOP && s.vcu.queue == [RESET] && CheckedRecently(s)
        && InSync(s.relay)
    requires Quiet(s.(vcu := s.vcu.(queue := [])))
    ensures var after := AfterVcuTask(s);
            after.vcu.state == IDLE && InSync(after.relay) && after.relay.shadow == s.relay.shadow
  {
    hide AfterRun, AfterVerifyIfDue, Tick, Expected, IsReadyEntryPermitted, IsResetInterlockSatisfied;
    var v := Fed(s);
    assert CleanQueue(v);
    var checked := AfterVerifyIfDue(s.relay, Advance(v).uptimeMs);
    CheckIfDue(s.relay, Advance(v).uptimeMs);
    RunIsTick(v, s.relay);
    StoppedRun(v, checked.fault);
    StoppedRunRelay(v, s.relay);
  }

  /** So IDLE does not imply open contactors: from boot on a working bus, this run of the system ends in IDLE with
      every relay energised. */
  lemma IdleWithContactorsClosed(bus: Bus, t: CanManager.Timeouts, channel: bv8)
    requires Working(bus) && bus.regs == POWER_ON && t.bms > 0 && channel < RELAY_TOTAL_CHANNELS
    ensures var s := AfterSteps(Boot(bus, true, true), t, TO_READY + TO_IDLE);
            s.vcu.state == IDLE && Energized(s.relay.bus.regs, channel)
  {
    hide Boot, AfterSteps, Energized, Commanded, Expected, Quiet;
    ReadyIsReachable(bus, t);
    var ready := AfterSteps(Boot(bus, true, true), t, TO_READY);
    ResetLeavesContactors(ready, t);
    StepsConcat(Boot(bus, true, true), t, TO_READY, TO_IDLE);
    SyncEnergizesShadow(AfterSteps(ready, t, TO_IDLE).relay, channel);
    CommandedBits(ALL_CHANNELS, channel, true, channel);
  }

  // ---------------------------------------------------------------- when IDLE has open contactors

  lemma ReadBackKeepsShadow(r: Relay)
    ensures ReadBack(r).0.shadow == r.shadow && ReadBack(Reassert(r).(fault := true)).0.shadow == r.shadow
  {
    hide ReadBack, Reassert;
    ReadBackOutcome(r);
    ReassertKeeps(r);
    ReadBackOutcome(Reassert(r).(fault := true));
  }

  lemma ChecksKeepShadow(r: Relay, now: uint32)
    ensures AfterVerify(r).0.shadow == r.shadow && AfterVerifyIfDue(r, now).shadow == r.shadow
    ensures AfterAllOff(r).shadow == 0
  {
    hide ReadBack, Reassert;
    ReadBackKeepsShadow(r);
    ReadBackKeepsShadow(ReadBack(r).0);
    var due, off := r.(lastVerifyMs := now), WriteLatches(r.(shadow := 0), 0xFF, 0xFF);
    ReadBackKeepsShadow(due);
    ReadBackKeepsShadow(ReadBack(due).0);
    ReadBackKeepsShadow(off);
    ReadBackKeepsShadow(ReadBack(off).0);
  }

  lemma {:induction false} ActsKeepEmpty(r: Relay, acts: seq<Act>)
    requires r.shadow == 0 && ALL_ON !in acts
    ensures PerformAll(r, acts).shadow == 0
  {
    hide AfterAllOff;
    if acts != [] {
      ActsKeepEmpty(r, acts[..|acts| - 1]);
      ChecksKeepShadow(PerformAll(r, acts[..|acts| - 1]), 0);
    }
  }

  lemma {:induction false} ActsKeepSync(r: Relay, acts: seq<Act>)
    requires Ready(r) && Working(r.bus) && InSync(r)
    ensures InSync(PerformAll(r, acts))
  {
    hide AfterAllOff, AfterAllOn, Ready, Working, Expected;
    if acts != [] {
      var earlier := PerformAll(r, acts[..|acts| - 1]);
      ActsKeepSync(r, acts[..|acts| - 1]);
      ActsKeepReady(r, acts[..|acts| - 1]);
      ActKeepsReady(earlier, acts[|acts| - 1]);
    }
  }

  /** On any bus and at any timer, a stopped machine leaves an empty shadow empty. */
  lemma StoppedKeepsEmpty(v: Vcu, r: Relay)
    requires Stopped(v.state) && r.shadow == 0
    ensures AfterRun(v, r).1.shadow == 0
  {
    hide AfterRun, Tick, PerformAll, AfterVerifyIfDue, IsReadyEntryPermitted, IsResetInterlockSatisfied;
    var checked := AfterVerifyIfDue(r, Advance(v).uptimeMs);
    ChecksKeepShadow(r, Advance(v).uptimeMs);
    RunIsTick(v, r);
    WaysIn(v, checked.fault);
    ActsKeepEmpty(checked, Tick(v, checked.fault).1);
  }

  /** On a working bus, opened contactors stay open: no run of a stopped machine energises a relay again. */
  lemma OpenStaysOpen(v: Vcu, r: Relay)
    requires Stopped(v.state) && Ready(r) && Working(r.bus) && InSync(r) && r.shadow == 0
    ensures var relay := AfterRun(v, r).1;
            relay.shadow == 0 && InSync(relay) && Deenergized(relay)
  {
    hide AfterRun, Tick, PerformAll, AfterVerifyIfDue, Expected, Deenergized;
    var checked := AfterVerifyIfDue(r, Advance(v).uptimeMs);
    StoppedKeepsEmpty(v, r);
    CheckIfDue(r, Advance(v).uptimeMs);
    RunIsTick(v, r);
    ActsKeepSync(checked, Tick(v, checked.fault).1);
    SyncDeenergizedIff(AfterRun(v, r).1);
  }

  /** A shutdown that commanded its opening has an empty shadow. */
  predicate OpenedMeansEmpty(s: System) {
    Stopped(s.vcu.state) && OpenedIn(s.vcu) ==> s.relay.shadow == 0
  }

  /** The run of a stay that opens, on any bus. */
  lemma OpeningEmpties(v: Vcu, r: Relay)
    requires CleanQueue(v) && Stopped(v.state) && !OpenedIn(v)
    requires AfterRun(v, r).0.state == v.state && OpenedIn(AfterRun(v, r).0)
    ensures AfterRun(v, r).1.shadow == 0
  {
    hide AfterRun, Tick, PerformAll, AfterVerifyIfDue, AfterAllOff, CleanQueue, OpenedIn, LastLogIn, ShutdownActs,
      NextLog;
    var checked := AfterVerifyIfDue(r, Advance(v).uptimeMs);
    var timer := Add32(v.stateTimer, TASK_PERIOD_MS);
    RunIsTick(v, r);
    StoppedStateIff(v, checked.fault);
    StoppedTick(v, checked.fault);
    if timer >= CONTACTOR_OPEN_DELAY_MS {
      FirstShutdownActs(timer, LastLogIn(v));
    }
    PerformShutdown(checked, false);
    ChecksKeepShadow(checked, 0);
  }

  lemma RunKeepsOpenedMeansEmpty(s: System)
    requires CleanQueue(s.vcu) && OpenedMeansEmpty(s)
    ensures OpenedMeansEmpty(AfterVcuTask(s))
  {
    hide AfterRun, Tick, AfterVerifyIfDue, CleanQueue, LastLogIn;
    var v := Fed(s);
    var fault := AfterVerifyIfDue(s.relay, Advance(v).uptimeMs).fault;
    FedKeepsQueueClean(s);
    RunIsTick(v, s.relay);
    if Stopped(AfterRun(v, s.relay).0.state) {
      if AfterRun(v, s.relay).0.state != v.state {
        TripsStartTheShutdown(v, fault);
      } else if s.relay.shadow == 0 {
        StoppedKeepsEmpty(v, s.relay);
      } else if OpenedIn(AfterRun(v, s.relay).0) {
        OpeningEmpties(v, s.relay);
      }
    }
  }

  lemma StepKeepsOpenedMeansEmpty(s: System, t: CanManager.Timeouts, step: Step)
    requires CleanQueue(s.vcu) && OpenedMeansEmpty(s)
    ensures OpenedMeansEmpty(AfterStep(s, t, step))
  {
    hide CanManager.AfterDrain, CanManager.TelemetryOf, AfterVcuTask;
    if step.VcuTask? {
      RunKeepsOpenedMeansEmpty(s);
    }
  }

  /** For every interleaving since boot and on any bus: in FAULT and EMERGENCY_STOP, once the shutdown has
      commanded the contactors open, the shadow is and stays empty. */
  lemma {:induction false} OpenedMeansEmptyIsInvariant(bus: Bus, queueCreated: bool, mutexCreated: bool,
                                                       t: CanManager.Timeouts, steps: seq<Step>)
    ensures OpenedMeansEmpty(AfterSteps(Boot(bus, queueCreated, mutexCreated), t, steps))
  {
    hide AfterStep, AfterBegin, AfterAllOff, CleanQueue, OpenedMeansEmpty;
    if steps == [] {
      BootIsNotStopped(bus, queueCreated, mutexCreated);
    } else {
      var before := AfterSteps(Boot(bus, queueCreated, mutexCreated), t, steps[..|steps| - 1]);
      OpenedMeansEmptyIsInvariant(bus, queueCreated, mutexCreated, t, steps[..|steps| - 1]);
      QueueIsClean(bus, queueCreated, mutexCreated, t, steps[..|steps| - 1]);
      StepKeepsOpenedMeansEmpty(before, t, steps[|steps| - 1]);
    }
  }

  lemma BootIsNotStopped(bus: Bus, queueCreated: bool, mutexCreated: bool)
    ensures OpenedMeansEmpty(Boot(bus, queueCreated, mutexCreated))
  {
    hide AfterBegin, AfterAllOff;
  }

  /** The run that resets a stopped machine keeps the shadow and, on a working bus, registers that match it. */
  lemma ResetRunKeepsRelays(v: Vcu, r: Relay)
    requires CleanQueue(v) && Stopped(v.state) && Ready(r) && Working(r.bus)
    requires !TripsAtOnce(v) && PollsReset(v) && !RefusesReset(v)
    ensures var (w, relay, _) := AfterRun(v, r);
            && w.state == IDLE && relay.shadow == r.shadow && (InSync(r) ==> InSync(relay))
  {
    hide AfterRun, Tick, PerformAll, AfterVerifyIfDue, CleanQueue, Expected, PollsReset, RefusesReset, Ready, Working;
    var checked := AfterVerifyIfDue(r, Advance(v).uptimeMs);
    RunIsTick(v, r);
    AcceptedResetOpensNothing(v, checked.fault);
    CheckIfDue(r, Advance(v).uptimeMs);
    PerformOne(checked, CLEAR_FAULT);
  }

  /** On a working bus since boot and after any history: a run that takes a RESET in a stopped state reaches IDLE,
      and with registers that match the shadow it leaves no relay energised exactly when this stop's shutdown had
      commanded the contactors open or the shadow was empty already. */
  lemma IdleIsOpenIff(bus: Bus, queueCreated: bool, mutexCreated: bool, t: CanManager.Timeouts, history: seq<Step>)
    requires Working(bus)
    requires Stopped(AfterSteps(Boot(bus, queueCreated, mutexCreated), t, history).vcu.state)
    requires var v := Fed(AfterSteps(Boot(bus, queueCreated, mutexCreated), t, history));
             !TripsAtOnce(v) && PollsReset(v) && !RefusesReset(v)
    ensures var s := AfterSteps(Boot(bus, queueCreated, mutexCreated), t, history);
            var idle := AfterSteps(Boot(bus, queueCreated, mutexCreated), t, history + [VcuTask]);
            && idle.vcu.state == IDLE && idle.relay.shadow == s.relay.shadow
            && (InSync(s.relay) ==>
                 InSync(idle.relay) && (Deenergized(idle.relay) <==> OpenedIn(s.vcu) || s.relay.shadow == 0))
  {
    hide Boot, AfterRun, CleanQueue, Deenergized, Expected, OpenedIn;
    var s := AfterSteps(Boot(bus, queueCreated, mutexCreated), t, history);
    assert (history + [VcuTask])[..|history|] == history;
    ChecksAreInvariant(bus, queueCreated, mutexCreated, t, history);
    QueueIsClean(bus, queueCreated, mutexCreated, t, history);
    OpenedMeansEmptyIsInvariant(bus, queueCreated, mutexCreated, t, history);
    FedKeepsQueueClean(s);
    ResetRunKeepsRelays(Fed(s), s.relay);
    if InSync(s.relay) {
      SyncDeenergizedIff(AfterRun(Fed(s), s.relay).1);
    }
  }
}
