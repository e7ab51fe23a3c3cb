# Vehicle control firmware: a verified model

The firmware runs an electric vehicle's supervisory controller. It receives battery and motor data over CAN, decides in a
tick machine whether the high-voltage contactors may be closed, drives them through an SPI port expander, shows 24 cells
on a Nextion screen, takes commands from that screen, and sends telemetry over a radio link that may be down. This project
models those parts and proves what they keep over every run.

| file | what it models |
|---|---|
| `Words.dfy`, `Wrappers.dfy`, `VehicleData.dfy`, `Decimal.dfy` | fixed-width integers with wrap-around, optional values, the shared telemetry record, decimal text |
| `OfflineBuffer.dfy` | the drop-oldest ring over an array, and the test bench's deque; both are proved against one deque step |
| `UplinkScheduler.dfy` | heartbeat classification, link state machine, outage sampling, throttled replay through a sender that may refuse |
| `UplinkRuns.dfy` | whole runs of the scheduler: conservation, draining, link memory, outage coverage |
| `BmsAlgo.dfy` | the scan over 24 cells: extremes, balancing, state of charge, warning level |
| `BmsNextionPacket.dfy` | the change cache over 75 screen fields and the byte budget |
| `NextionConvergence.dfy` | what repeated synchronisation calls achieve, and what the command texts mean to the screen |
| `Telemetry.dfy`, `UksContract.dfy` | sanitising, the frame printer, the receiver's strict parser, and how they undo each other |
| `DisplayHMI.dfy` | the resumable three-byte command reader |
| `RelayManager.dfy` | shadow word, chip registers behind a bus whose transactions may fail, read-back, repair, latched fault |
| `VcuLogic.dfy` | the safety predicates and the tick machine with queue, bypass flags, timers and injected relay driver |
| `VcuRuns.dfy` | the tick machine over whole runs, for every interleaving of posts, snapshots and ticks |
| `CanManager.dfy`, `CanHistory.dfy` | frame handlers, freshness, bounded drain, and the resulting state as a function of the frame history |
| `VehicleSystem.dfy` | CAN task, mailbox, state machine and relay driver joined |

Code that changes state is a class whose methods are proved equal to a step function on a value (`View()`); the run theorems
are lemmas about those step functions. A step function is named after what it follows: `AfterRun`, `AfterUpdateLink`,
`AfterVerify` and so on.

The environment is a parameter everywhere: the chip's bus has a script of failing transactions, the UART a sequence of ready
bytes, the receive driver a sequence of answers with the tick at which each is handled, the radio sender a sequence of
answers, and clock readings, time-out lengths, queue and mutex creation and the outcome of a UART write are arguments. A
task's step is atomic, and steps of different tasks interleave in any order.

## Where the code differs from what is written about it

- `VcuLogic.cpp:315` says that the contactors are closed once, on entry. The guard `s_stateTimer <= TASK_PERIOD_MS` also
  holds in the run after entry, so they are commanded closed in exactly the first two runs of a READY stay
  (`VcuRuns.ClosedOnEntryAndOnceMore`).
- A staged shutdown is documented to request zero torque first. A RESET that is polled and refused on the first tick after
  a trip returns before the handler, the timer moves on, and the request is never made (`VcuRuns.RefusedResetLosesTorque`
  is such a stay; `VcuRuns.TorqueOnlyOnFirstTick` and `VcuRuns.TorqueFollowsTimer` state exactly when it is made).
- A trip is documented to open the contactors. It does so in the first run that neither takes the other trip nor polls a
  RESET, and not before (`VcuRuns.OpensIff`, `VcuRuns.OpensInFirstFreeRun`, `VehicleSystem.TripOpensInTwoRuns`). While every
  run takes the other trip or refuses a RESET nothing is commanded, however long that lasts
  (`VcuRuns.AlternatingTripsNeverOpen` and `VcuRuns.RefusedResetsNeverOpen` are such families), and a RESET that is accepted
  before such a run reaches IDLE with the contactors as the trip found them (`VehicleSystem.IdleWithContactorsClosed` is such
  a run from boot). So IDLE does not imply open contactors; `VehicleSystem.IdleIsOpenIff` says when it does, and
  `VehicleSystem.OpenStaysOpen` that opened ones stay open.
- On a failing bus even a command to open may leave relays energised: exactly those of a port whose latch is not reached by
  the command's write nor by the two writes of the repair (`RelayManager.AllOffFailsIff`); the fault is latched then
  (`RelayManager.VerifyIsNeverSilent`).
- A stay of 2^32 ms makes the shutdown timer wrap and asks for zero torque again (`VcuRuns.WrapAsksForTorqueAgain`).
- The CAN task stores the magnitude of a signed rpm into a signed 16-bit field, so -32768 stays negative
  (`CanHistory.RpmIsMagnitude`) and its frame is refused by the receiver (`UksContract.FrameRoundTrip`).
- Cell limits in millivolts are compared with a field in tenths of a millivolt. The model compares the raw numbers, as the
  code does, and claims no agreement with the screen's warning level.
- Telemetry frames are documented as at most about 112 bytes, with 120 reserved. The bound is 108 for any record and exactly
  106 for a sanitised one (`Telemetry.RawFrameLength`, `UksContract.FrameLengthBoundIsTight`).
- Initialisation writes latches before directions so that no relay fires. That holds on a working bus. On a failing one some
  relay is energised exactly when a port's latch write fails and either its direction write succeeds, or the repair that
  `begin` ends with fails to write that latch again and succeeds with the direction (`RelayManager.BeginEnergizesIff`;
  `RelayManager.BeginMayEnergize` has an input for each case).
- With a forced refresh on every call, the screen is brought up to date exactly when every field beyond the affordable
  prefix already was (`NextionConvergence.ForcedCallsConvergeIff`); a stale warning level never is
  (`NextionConvergence.ForcedCallsNeverConverge`).
- The boot-grace link check is proved memoryless under a clock that does not go back (`UplinkRuns.LinkIsMemoryless`), with no
  assumption on heartbeat times. On any clock it is, unless the link was down with no heartbeat remembered and the clock goes
  back into the boot grace (`UplinkRuns.LinkMatchesIff`, and `UplinkRuns.LinkRemembersWhenClockGoesBack` for an input).

## Model

| member | source | states |
|---|---|---|
| VehicleSystem.LiveMeansHealthy | ESP_AKS/src/main.cpp:195-232 | after any interleaving of drains, posts, chip resets and ticks since boot, on any bus, a run that ends in READY or DRIVE holds a snapshot with valid BMS data, no motor error, and voltage, temperature and current strictly inside the critical limits |
| VehicleSystem.LiveMeansHealthyFrames | ESP_AKS/src/main.cpp:195-232 | in terms of the bus: when a run since boot ends in READY or DRIVE, both BMS identifiers were fresh at the latest CAN update, the latest E000 frame's bytes lie inside the limits of voltage and current, both temperature bytes of the latest E001 frame are below 70, and no motor error was confirmed |
| VehicleSystem.MailboxIsHistory | ESP_AKS/src/main.cpp:195-208 | for every interleaving since boot, the mailbox's record shows, field by field, the frames that the CAN task had handled |
| VehicleSystem.CanTaskShowsHistory | ESP_AKS/src/main.cpp:195-208 | after a step of the CAN task from any history of frames: voltage, current, charges, temperatures, cell extremes, the 24 cells, motor values, validity and time-out flags of the record are those of the latest accepted frames, with this step's stamp and speed |
| VehicleSystem.FreshnessIsInvariant | ESP_AKS/lib/CanManager/CanManager.cpp:605-629 | the invariant behind it: while the bus is live both BMS identifiers were seen and the mailbox's snapshot is valid or marked timed out |
| VehicleSystem.ResetChipIsNoticed | ESP_AKS/lib/VcuLogic/VcuLogic.cpp:102-145 | on a working bus since boot, after any history and at any uptime including wrap, a chip that falls back to power-on registers makes the system leave READY and DRIVE within five runs, further resets included |
| VehicleSystem.NoticingRestoresRegisters | ESP_AKS/lib/RelayManager/RelayManager.cpp:192-248 | when no fault was latched before such a reset and no further one follows, the run that latches the fault ends with registers equal to the shadow |
| VehicleSystem.ChecksAreInvariant | ESP_AKS/lib/RelayManager/RelayManager.cpp:236-248 | on a working bus the driver stays ready, and in READY and DRIVE its last check is always less than one period old |
| VehicleSystem.LiveRuns | ESP_AKS/lib/VcuLogic/VcuLogic.cpp:131-154 | a run that ends live started live on an uncritical snapshot with no actuator fault, or from IDLE on one that permits READY, and commands nothing but closing |
| VehicleSystem.StoppingActs | ESP_AKS/lib/VcuLogic/VcuLogic.cpp:106-154 | a run that leaves READY and DRIVE commands nothing itself |
| VehicleSystem.FirstHandledRunDeenergizes | ESP_AKS/lib/VcuLogic/VcuLogic.cpp:331-392 | the first run after a trip, when it takes no other trip and polls no RESET, asks for zero torque, then commands the contactors open, and on a working bus leaves no relay energised whatever the registers held |
| VehicleSystem.EStopOpensInTwoRuns | ESP_AKS/lib/VcuLogic/VcuLogic.cpp:261-269 | on a working bus, with relays energised, a posted E-STOP leaves none energised after two runs exactly when no fault is pending and no RESET at the head of the queue before the second one |
| VehicleSystem.FaultOpensInTwoRuns | ESP_AKS/lib/VcuLogic/VcuLogic.cpp:270-282 | on a working bus, the same for a posted fault, when no E-STOP goes first, with a pending E-STOP in place of the fault |
| VehicleSystem.TripOpensInTwoRuns | ESP_AKS/lib/VcuLogic/VcuLogic.cpp:102-259 | both trips at once, on a working bus: the run that takes it commands nothing and leaves the relays alone; the next one empties the shadow exactly when it finds neither the other trip pending nor a RESET at the head of the queue |
| VehicleSystem.RunOpensIff | ESP_AKS/lib/VcuLogic/VcuLogic.cpp:102-259 | for any stopped machine that has not opened yet and any relays on a working bus: opening is commanded, the shadow emptied and no relay left energised exactly when the run takes no other trip and polls no RESET; otherwise the shadow stays |
| VehicleSystem.MustStopOpensContactors | ESP_AKS/lib/VcuLogic/VcuLogic.cpp:106-154 | on a working bus and after any history, a critical snapshot, a pending trip or an actuator fault while live stops the machine in its next run and leaves no relay energised after the run that follows, whatever other tasks do in between, when that one finds neither the other trip nor a RESET |
| VehicleSystem.DrainOpensContactors | ESP_AKS/lib/CanManager/CanManager.cpp:605-629 | the same two runs after a drain that finds one BMS identifier older than the limit or that reports a motor or pack fault |
| VehicleSystem.LiveIsListening | ESP_AKS/lib/VcuLogic/VcuLogic.cpp:84-99 | over any steps since boot, a live machine has its queue, so no posted trip is dropped |
| VehicleSystem.ReadyIsReachable | ESP_AKS/src/main.cpp:195-232 | from boot on a working bus, two good frames and a START reach READY with every bit of the shadow set |
| VehicleSystem.DriveIsReachable | ESP_AKS/lib/VcuLogic/VcuLogic.cpp:229-232 | a DRIVE_ENABLE posted after that run reaches DRIVE, with the registers in sync and the shadow still full |
| VehicleSystem.ResetLeavesContactors | ESP_AKS/lib/VcuLogic/VcuLogic.cpp:186-199 | from such a READY, a RESET and then an E-STOP reach IDLE in two runs with the contactors as they were |
| VehicleSystem.IdleWithContactorsClosed | ESP_AKS/lib/VcuLogic/VcuLogic.cpp:186-199 | so a run from boot ends in IDLE with every relay energised |
| VehicleSystem.IdleIsOpenIff | ESP_AKS/lib/VcuLogic/VcuLogic.cpp:187-199 | on a working bus and after any history, a RESET that is accepted in a stopped state keeps the shadow, and with registers that match it leaves no relay energised exactly when this stop's shutdown had commanded the opening or the shadow was empty already |
| VehicleSystem.OpenedMeansEmptyIsInvariant | ESP_AKS/lib/VcuLogic/VcuLogic.cpp:345-355 | for every interleaving since boot and on any bus, a shutdown that has commanded the opening has an empty shadow |
| VehicleSystem.StoppedKeepsEmpty | ESP_AKS/lib/VcuLogic/VcuLogic.cpp:331-392 | on any bus and at any timer, a run of a stopped machine leaves an empty shadow empty |
| VehicleSystem.OpenStaysOpen | ESP_AKS/lib/VcuLogic/VcuLogic.cpp:331-392 | on a working bus, no run of a stopped machine energises a relay again once the shadow is empty and the registers match it |
| VcuLogic.Logic.Run | ESP_AKS/lib/VcuLogic/VcuLogic.cpp:102-259 | one tick: new machine state, new relay state and commands are those of `AfterRun` |
| VcuLogic.Logic.TakeTrips | ESP_AKS/lib/VcuLogic/VcuLogic.cpp:106-125 | the bypass flags are consumed, E-STOP before FAULT, and end the run exactly when they change the state |
| VcuLogic.Logic.RunAfterCheck | ESP_AKS/lib/VcuLogic/VcuLogic.cpp:133-177 | actuator fault, critical condition, one polled event, state logic, in that order |
| VcuLogic.Logic.Dispatch | ESP_AKS/lib/VcuLogic/VcuLogic.cpp:170-258 | one event: trips, guarded RESET, START and DRIVE_ENABLE, then the state's periodic logic |
| VcuLogic.Logic.HandleReady | ESP_AKS/lib/VcuLogic/VcuLogic.cpp:314-322 | contactors are commanded closed while the state timer is at most one period |
| VcuLogic.Logic.HandleEmergencyStop | ESP_AKS/lib/VcuLogic/VcuLogic.cpp:331-363 | torque, delay, open, and re-assertion once a second; its relay effect is that of its commands |
| VcuLogic.Logic.HandleFault | ESP_AKS/lib/VcuLogic/VcuLogic.cpp:365-392 | the same sequence on FAULT's own flag and time stamp |
| VcuLogic.Logic.PostEvent | ESP_AKS/lib/VcuLogic/VcuLogic.cpp:261-287 | trips set their flag and bypass the queue; other events are queued or, when eight are waiting, dropped |
| VcuLogic.Logic.SetTelemetryData | ESP_AKS/lib/VcuLogic/VcuLogic.cpp:293-300 | the snapshot is replaced once the mutex exists |
| VcuLogic.Logic.Init | ESP_AKS/lib/VcuLogic/VcuLogic.cpp:81-100 | contactors are commanded open before IDLE is entered; a failed creation stops there |
| VcuLogic.Logic.Transition | ESP_AKS/lib/VcuLogic/VcuLogic.cpp:405-419 | the timer restarts, and a stopped state restarts its shutdown bookkeeping |
| VcuRuns.ReceiveKeepsTrips | ESP_AKS/lib/VcuLogic/VcuLogic.cpp:261-287 | a trip is pending exactly when it was or was posted, whatever else arrives and however full the queue is |
| VcuRuns.EStopIsNeverLost | ESP_AKS/lib/VcuLogic/VcuLogic.cpp:106-113 | a posted E-STOP ends the next run in EMERGENCY_STOP from any other state |
| VcuRuns.FaultIsNeverLost | ESP_AKS/lib/VcuLogic/VcuLogic.cpp:115-125 | a posted fault ends the next run in FAULT from any other state, or the run after it when an E-STOP goes first |
| VcuRuns.RunConsumesTrips | ESP_AKS/lib/VcuLogic/VcuLogic.cpp:106-125 | a run leaves no E-STOP pending, and a fault pending exactly when one was and the run takes an E-STOP first |
| VcuRuns.PostsBeforeInitAreLost | ESP_AKS/lib/VcuLogic/VcuLogic.cpp:261-287 | without a queue no sequence of posts over any number of runs makes the machine leave INIT or command anything, trips included |
| VcuRuns.FailedInitIsDeaf | ESP_AKS/lib/VcuLogic/VcuLogic.cpp:81-88 | an initialisation that cannot create the queue leaves such a machine and commands nothing |
| VcuRuns.InitOpensContactors | ESP_AKS/lib/VcuLogic/VcuLogic.cpp:81-100 | initialisation ends in IDLE with no relay energised, from any registers and shadow on a working bus, or stops in its state with the relays untouched when a creation fails |
| VcuRuns.QueueStaysClean | ESP_AKS/lib/VcuLogic/VcuLogic.cpp:264-286 | over any run the queue holds at most eight events and never a trip |
| VcuRuns.TripsStartTheShutdown | ESP_AKS/lib/VcuLogic/VcuLogic.cpp:405-419 | every run that stops the machine leaves a fresh shutdown and commands nothing |
| VcuRuns.StoppedTick | ESP_AKS/lib/VcuLogic/VcuLogic.cpp:186-199 | a run that stays stopped either polls a refused RESET and moves only the timer, or performs exactly the shutdown step of its time |
| VcuRuns.StoppedRun | ESP_AKS/lib/VcuLogic/VcuLogic.cpp:186-199 | a stopped machine that takes no trip leaves for IDLE exactly on a RESET that the interlock lets pass, commanding only the clearing of the fault |
| VcuRuns.OpensIff | ESP_AKS/lib/VcuLogic/VcuLogic.cpp:345-355 | a stopped machine that has not opened yet commands the contactors open in its next run exactly when that run takes no other trip and polls no RESET |
| VcuRuns.OpensInFirstFreeRun | ESP_AKS/lib/VcuLogic/VcuLogic.cpp:106-199 | after a trip and whatever arrives: nothing is commanded while runs take the other trip or refuse a RESET, and the first run that does neither opens exactly when it polls no RESET |
| VcuRuns.TorqueOnlyOnFirstTick | ESP_AKS/lib/VcuLogic/VcuLogic.cpp:339-342 | in a stay shorter than 2^32 ms zero torque is requested exactly in its first run, and there exactly when no RESET is polled |
| VcuRuns.TorqueFollowsTimer | ESP_AKS/lib/VcuLogic/VcuLogic.cpp:339-342 | in a stay of any length zero torque is requested in run k exactly when no RESET is polled and 20 (k + 1) modulo 2^32 is at most 20 |
| VcuRuns.RefusedResetLosesTorque | ESP_AKS/lib/VcuLogic/VcuLogic.cpp:187-193 | an input: a fault with a motor error and a RESET queued before it stays, and never requests zero torque |
| VcuRuns.RefusedResetsNeverOpen | ESP_AKS/lib/VcuLogic/VcuLogic.cpp:187-193 | an input: a fault with a motor error and a RESET posted before each run stays in FAULT and commands nothing, however long |
| VcuRuns.OpensIffHandled | ESP_AKS/lib/VcuLogic/VcuLogic.cpp:345-355 | a stay commands the contactors open exactly when one of its runs polls no RESET |
| VcuRuns.AcceptedResetOpensNothing | ESP_AKS/lib/VcuLogic/VcuLogic.cpp:187-199 | a stopped machine reaches IDLE exactly by polling, with no other trip pending, a RESET that the interlock lets pass, and that run commands only the clearing of the actuator fault |
| VcuRuns.StayIff | ESP_AKS/lib/VcuLogic/VcuLogic.cpp:106-199 | a stopped machine stays in its state over n runs exactly when none of them finds the other trip pending and every RESET that they poll is refused |
| VcuRuns.ShutdownCommandsAreCounted | ESP_AKS/lib/VcuLogic/VcuLogic.cpp:331-392 | in every stay of k runs, refused RESETs included and despite the start value (uint32_t)-1000: zero torque is requested once, as the first command, or never when the first run polls a RESET; opening is commanded at most 1 + (k - 1) / 50 times, and exactly as often when no run polls a RESET |
| VcuRuns.OpensOnceASecond | ESP_AKS/lib/VcuLogic/VcuLogic.cpp:345-361 | in every stay a run commands the contactors open exactly when it polls no RESET and no run did before, or the last that did is at least 50 runs back |
| VcuRuns.OpeningsAreASecondApart | ESP_AKS/lib/VcuLogic/VcuLogic.cpp:349-361 | any two opening commands of a stay are at least 1000 ms apart |
| VcuRuns.WrapAsksForTorqueAgain | ESP_AKS/lib/VcuLogic/VcuLogic.cpp:339-345 | the bound on the stay is exact: the run that wraps the timer requests zero torque again |
| VcuRuns.AlternatingTripsNeverOpen | ESP_AKS/lib/VcuLogic/VcuLogic.cpp:106-125 | while each run gets the opposite trip, the state changes every run and nothing is ever commanded |
| VcuRuns.WaysIn | ESP_AKS/lib/VcuLogic/VcuLogic.cpp:170-237 | a run keeps its state, stops, or enters READY, DRIVE or IDLE by the event and guard that earn it; closing is commanded only by a run that ends in READY |
| VcuRuns.ClosingIsEarned | ESP_AKS/lib/VcuLogic/VcuLogic.cpp:203-214 | every closing command of any run lies in a READY stay opened from IDLE by START on a permitting snapshot with no actuator fault |
| VcuRuns.ClosedOnEntryAndOnceMore | ESP_AKS/lib/VcuLogic/VcuLogic.cpp:314-319 | closing is commanded in the entering run, in the next one if READY stays, and in no later run of the stay |
| VcuRuns.DriveAfterTrip | ESP_AKS/lib/VcuLogic/VcuLogic.cpp:186-233 | after a trip DRIVE recurs only through an accepted RESET, a permitted START and a DRIVE_ENABLE, in that order and in three different runs |
| VcuRuns.ReadyEntryIff | ESP_AKS/lib/VcuLogic/VcuLogic.h:72-170 | the interlock, flattened: the warning band implies the critical one, so READY is permitted exactly inside the listed open intervals |
| VcuRuns.CriticalIff | ESP_AKS/lib/VcuLogic/VcuLogic.h:95-131 | the critical condition, flattened with its numbers; motor and BMS time-outs count in every state but IDLE |
| VcuRuns.ResetPermittedIff | ESP_AKS/lib/VcuLogic/VcuLogic.h:133-144 | a stopped machine may be reset exactly on no motor error, no time-out, and values inside the open intervals or invalid |
| VcuRuns.IdleRunEnds | ESP_AKS/lib/VcuLogic/VcuLogic.cpp:102-214 | where a run from IDLE ends, each outcome an if-and-only-if on pending trips, critical condition, permitted START and actuator fault |
| VcuRuns.ReadyRunEnds | ESP_AKS/lib/VcuLogic/VcuLogic.cpp:102-233 | where a run from READY ends: EMERGENCY_STOP exactly on a pending E-STOP, FAULT exactly on another reason to stop, DRIVE exactly on DRIVE_ENABLE and no reason to stop, and READY otherwise |
| VcuRuns.DriveRunEnds | ESP_AKS/lib/VcuLogic/VcuLogic.cpp:102-237 | where a run from DRIVE ends: it stays exactly when nothing stops it, whatever event it polls |
| VcuRuns.StoppedRunEnds | ESP_AKS/lib/VcuLogic/VcuLogic.cpp:102-199 | where a run from FAULT or EMERGENCY_STOP ends: the other stopped state exactly on its trip, IDLE exactly on a permitted RESET without one, and its own state otherwise |
| VcuRuns.InitRunEnds | ESP_AKS/lib/VcuLogic/VcuLogic.cpp:102-125 | a run before initialisation has finished takes trips and otherwise stays in INIT |
| VcuRuns.RestingCommandsNothing | ESP_AKS/lib/VcuLogic/VcuLogic.cpp:309-329 | INIT, IDLE and DRIVE command nothing while they last, and entering DRIVE commands nothing |
| VcuRuns.PollsOldest | ESP_AKS/lib/VcuLogic/VcuLogic.cpp:102-177 | a run removes the oldest waiting event exactly when no trip, actuator fault or critical condition ends it earlier |
| VcuRuns.PostsQueueInOrder | ESP_AKS/lib/VcuLogic/VcuLogic.cpp:261-287 | between two runs the queue becomes the first eight of what was waiting followed by the posts other than trips, in posting order |
| VcuRuns.LatestSnapshotCounts | ESP_AKS/lib/VcuLogic/VcuLogic.cpp:293-300 | the snapshot that a run sees is the latest one given |
| VcuRuns.ClocksAdvance | ESP_AKS/lib/VcuLogic/VcuLogic.cpp:102-105 | both clocks advance by 20 ms modulo 2^32, and the state's own timer is 0 after every change of state |
| RelayManager.Driver.Begin | ESP_AKS/lib/RelayManager/RelayManager.cpp:13-60 | success exactly when bus and device come up, with the registers written, cleared shadow and a check |
| RelayManager.Driver.SetRelay | ESP_AKS/lib/RelayManager/RelayManager.cpp:62-86 | an uninitialised driver or an out-of-range channel changes nothing; otherwise shadow, both latches, check |
| RelayManager.Driver.AllOn | ESP_AKS/lib/RelayManager/RelayManager.cpp:88-102 | ten channels in the shadow, both latches, check; nothing before initialisation |
| RelayManager.Driver.AllOff | ESP_AKS/lib/RelayManager/RelayManager.cpp:104-116 | empty shadow and high latches even before initialisation, then a check |
| RelayManager.Driver.WriteRegister | ESP_AKS/lib/RelayManager/RelayManager.cpp:137-151 | a write reaches the chip unless the device is absent or the transaction fails |
| RelayManager.Driver.ReadRegister | ESP_AKS/lib/RelayManager/RelayManager.cpp:154-177 | a read gives the register or fails |
| RelayManager.Driver.ReinitAndReassert | ESP_AKS/lib/RelayManager/RelayManager.cpp:179-190 | the six writes in their safe order |
| RelayManager.Driver.VerifyOutputs | ESP_AKS/lib/RelayManager/RelayManager.cpp:192-234 | read-back with early stop, repair, latched fault, second read-back |
| RelayManager.Driver.VerifyIfDue | ESP_AKS/lib/RelayManager/RelayManager.cpp:236-248 | the first call only starts the period; later ones check when 100 ms have passed on the wrapping clock |
| RelayManager.Driver.ClearActuatorFault | ESP_AKS/lib/RelayManager/RelayManager.cpp:254-256 | clears the latch and nothing else |
| RelayManager.VerifyRestoresSync | ESP_AKS/lib/RelayManager/RelayManager.cpp:192-234 | on a working bus a check ends with registers equal to the shadow and latches the fault exactly when they were not |
| RelayManager.ChecksEvery100Ms | ESP_AKS/lib/RelayManager/RelayManager.cpp:236-248 | a check is made exactly when initialised, started before and 100 ms or more back on the wrapping clock; otherwise at most the counting starts |
| RelayManager.UnstartedDoesNothing | ESP_AKS/lib/RelayManager/RelayManager.cpp:13-116 | a failed bring-up, a command before initialisation other than `allOff`, and a channel from 10 on change nothing |
| RelayManager.VerifyIsNeverSilent | ESP_AKS/lib/RelayManager/RelayManager.cpp:217-233 | on any bus a check ends with the fault latched or with registers that match |
| RelayManager.CommandsSetTheRegisters | ESP_AKS/lib/RelayManager/RelayManager.cpp:62-116 | on a working bus and from any registers, each command ends with latches the complement of the commanded shadow and all pins outputs |
| RelayManager.CommandsEnergize | ESP_AKS/lib/RelayManager/RelayManager.cpp:62-116 | in terms of relays: `allOn` energises every one, `allOff` none, `setRelay` its own as asked and each other as commanded before |
| RelayManager.AllOffLeaves | ESP_AKS/lib/RelayManager/RelayManager.cpp:104-116 | on any bus, the registers after `allOff`, in terms of which transactions fail |
| RelayManager.AllOffLeavesEnergized | ESP_AKS/lib/RelayManager/RelayManager.cpp:104-116 | on any bus, a port keeps relays energised only if the command's and both of the repair's writes of its latch fail, and then exactly those with a low latch whose pins are outputs afterwards |
| RelayManager.AllOffFailsIff | ESP_AKS/lib/RelayManager/RelayManager.cpp:104-116 | with all pins outputs: the energised relays of a port stay as they were exactly when its latch is never written, and are none otherwise |
| RelayManager.ChannelsAreIndependent | ESP_AKS/lib/RelayManager/RelayManager.cpp:69-75 | `setRelay` changes its own bit of the shadow and no other |
| RelayManager.ReassertEnergizesNothingNew | ESP_AKS/lib/RelayManager/RelayManager.cpp:179-190 | on a working bus, after each of the six writes the energised relays were energised before or are in the shadow |
| RelayManager.BeginEnergizesIff | ESP_AKS/lib/RelayManager/RelayManager.cpp:42-59 | from power-on and on any bus, some relay is energised after some write of `begin`, its repair included, exactly when a port's latch write fails and either its direction write succeeds or the repair fails on the latch again and succeeds on the direction |
| RelayManager.BeginMayEnergize | ESP_AKS/lib/RelayManager/RelayManager.cpp:42-59 | an input for each of the two cases |
| RelayManager.BeginTrace | ESP_AKS/lib/RelayManager/RelayManager.cpp:42-59 | `begin` writes four registers and, unless the early-stopping read-back finds them all as expected, the six of the repair |
| RelayManager.BeginIsSafe | ESP_AKS/lib/RelayManager/RelayManager.cpp:42-59 | on a working bus nothing is energised after any write and the driver ends in sync with an empty shadow |
| OfflineBuffer.Ring.Push | ESP_AKS/lib/OfflineBuffer/OfflineBuffer.cpp:14-24 | the circular store's content becomes that of the drop-oldest deque |
| OfflineBuffer.Ring.Pop | ESP_AKS/lib/OfflineBuffer/OfflineBuffer.cpp:26-32 | yields and removes the oldest entry, or fails on an empty ring and changes nothing |
| OfflineBuffer.Ring.Peek | ESP_AKS/lib/OfflineBuffer/OfflineBuffer.cpp:34-38 | yields the oldest entry, or fails on an empty ring |
| OfflineBuffer.Ring.DropFront | ESP_AKS/lib/OfflineBuffer/OfflineBuffer.cpp:40-45 | removes the oldest entry, or fails on an empty ring |
| OfflineBuffer.Ring.Reset | ESP_AKS/lib/OfflineBuffer/OfflineBuffer.cpp:8-12 | an empty ring from any head, tail and count |
| OfflineBuffer.Ring.Count | ESP_AKS/lib/OfflineBuffer/OfflineBuffer.cpp:47-49 | the number of entries |
| OfflineBuffer.OfflineBufferSim.Push | ESP_AKS/tools/e2e/offline_buffer_sim.py:20-23 | the deque takes the same step as the ring; a zero capacity raises on the empty deque |
| OfflineBuffer.OfflineBufferSim.DropFront | ESP_AKS/tools/e2e/offline_buffer_sim.py:28-32 | the same as the ring's |
| OfflineBuffer.WindowAppend | ESP_AKS/lib/OfflineBuffer/OfflineBuffer.cpp:20-22 | writing at the tail of a circular store that is not full appends to its window, with or without wrap |
| UplinkScheduler.Scheduler.OnRxByte | ESP_AKS/lib/LoraLink/UplinkScheduler.cpp:13-27 | only the heartbeat byte refreshes the link; any other is counted and warned about at most once an interval |
| UplinkScheduler.Scheduler.UpdateLink | ESP_AKS/lib/LoraLink/UplinkScheduler.cpp:29-59 | DOWN restarts sampling, UP reports the buffered count and the outage's time stamps, otherwise nothing changes |
| UplinkScheduler.Scheduler.OfflineSample | ESP_AKS/lib/LoraLink/UplinkScheduler.cpp:61-76 | a due sample is pushed and the outage's first and last time stamps follow |
| UplinkScheduler.Scheduler.ReplayBurst | ESP_AKS/lib/LoraLink/UplinkScheduler.cpp:82-93 | the loop attempts the buffer's front in order, removes what was accepted and stops at the first refusal |
| UplinkScheduler.Scheduler.OnTxTickLinkUp | ESP_AKS/lib/LoraLink/UplinkScheduler.cpp:78-102 | the tick's attempts, what stays buffered, and the returned number of accepted packets |
| UplinkScheduler.ReplayCount | ESP_AKS/lib/LoraLink/UplinkScheduler.cpp:85-93 | the number of replays is the longest run of acceptances within burst and buffer |
| UplinkRuns.NothingIsLostOrDuplicated | ESP_AKS/lib/LoraLink/UplinkScheduler.cpp:61-102 | over any run every pushed packet is exactly one of replayed, overwritten and buffered; replays are the pushes with that fate, once each and in order; an overwritten packet is followed by 75 younger pushes |
| UplinkRuns.TickReplaysFront | ESP_AKS/lib/LoraLink/UplinkScheduler.cpp:82-93 | whatever the sender answers, the accepted replays of a tick are the packets that left the ring, oldest first |
| UplinkRuns.DrainTakesCeilingTicks | ESP_AKS/lib/LoraLink/UplinkScheduler.cpp:85-93 | with a willing sender n packets are drained after k ticks exactly when k is at least the ceiling of n / burst; with burst 0 never |
| UplinkRuns.DrainsInCeilingTicksOfAnyRun | ESP_AKS/lib/LoraLink/UplinkScheduler.cpp:85-93 | the same after any run and with radio bytes and link updates between the ticks |
| UplinkRuns.LiveIsAlwaysAttempted | ESP_AKS/lib/LoraLink/UplinkScheduler.cpp:95-100 | every tick with live data ends with one attempt of it, after replays only |
| UplinkRuns.AnswersGoInOrder | ESP_AKS/lib/LoraLink/UplinkScheduler.cpp:82-100 | each attempt of a tick, the live one included, is accepted exactly when the sender's answer to it is |
| UplinkRuns.LinkIsMemoryless | ESP_AKS/lib/LoraLink/LinkMonitor.h:8-32 | under a monotone clock the link is down after an update exactly when the boot-grace time-out predicate holds |
| UplinkRuns.LinkIsTimedOut | ESP_AKS/lib/LoraLink/LinkMonitor.h:8-32 | in plain arithmetic, under a monotone clock: the link is down after an update exactly when more than the grace has passed since boot with no heartbeat, or more than the time-out since the last one |
| UplinkRuns.BytesAreClassified | ESP_AKS/lib/LoraLink/UplinkScheduler.cpp:13-27 | over any run the remembered heartbeat is the time of the latest byte 0xB0, and the counter is the number of other bytes modulo 2^32 |
| UplinkRuns.ByteStep | ESP_AKS/lib/LoraLink/UplinkScheduler.cpp:13-27 | of other bytes exactly those warn that arrive at least an interval after the last warning on the wrapping clock |
| UplinkRuns.LinkMatchesIff | ESP_AKS/lib/LoraLink/UplinkScheduler.cpp:40-49 | on any clock the flag equals that predicate exactly unless the link was down, no heartbeat is remembered and the clock reads a time inside the boot grace |
| UplinkRuns.LinkStep | ESP_AKS/lib/LoraLink/UplinkScheduler.cpp:40-59 | an update reports a change exactly when the flag changes, and touches nothing but the flag, save that going DOWN forgets the samples of the last outage |
| UplinkRuns.LinkRemembersWhenClockGoesBack | ESP_AKS/lib/LoraLink/UplinkScheduler.cpp:48-49 | an input on which they differ |
| UplinkRuns.TransitionsAlternate | ESP_AKS/lib/LoraLink/UplinkScheduler.cpp:40-57 | DOWN and UP alternate along every run, starting with DOWN |
| UplinkRuns.SamplesAreSpaced | ESP_AKS/lib/OfflineBuffer/OfflineBuffer.h:27-33 | the first call of an outage samples, samples are at least one period apart and, with calls at most d apart, closer than period + d |
| UplinkRuns.ShortOutageLosesNothing | ESP_AKS/lib/OfflineBuffer/OfflineBuffer.h:8-11 | calls spanning less than 75 periods from an empty buffer leave exactly the samples in it |
| UplinkRuns.OutageIsItsSamples | ESP_AKS/lib/LoraLink/UplinkScheduler.cpp:61-76 | radio bytes and link updates between the samples of an outage change nothing that sampling depends on |
| UplinkRuns.UpReportNamesThisOutage | ESP_AKS/lib/LoraLink/UplinkScheduler.cpp:48-57 | the UP report counts the buffer and names the first and last sample of this outage, exactly when it has any |
| BmsNextionPacket.Cache.BuildCommands | ESP_AKS/lib/BmsAlgo/BmsNextionPacket.cpp:25-126 | emits exactly the longest affordable prefix, in fixed order, of the fields to send; just those are cached; warm once all were sent, and then the cache holds the highest and lowest cell, the level and, when cells were visited, voltages, bars and bits |
| BmsNextionPacket.Cache.SyncCells | ESP_AKS/lib/BmsAlgo/BmsNextionPacket.cpp:61-96 | the three loops are one greedy visit of fields 0 to 71 |
| BmsNextionPacket.Cache.SyncSummary | ESP_AKS/lib/BmsAlgo/BmsNextionPacket.cpp:98-121 | the three branches continue that visit |
| BmsNextionPacket.EmitAndCheck | ESP_AKS/lib/BmsAlgo/BmsNextionPacket.cpp:35-56 | a command is emitted exactly when the budget was never exceeded before and still holds it with its end bytes |
| BmsNextionPacket.VisitsSendLongestPrefix | ESP_AKS/lib/BmsAlgo/BmsNextionPacket.cpp:58-121 | greedy visiting with a sticky flag equals the simple specification, for any field range, budget and force |
| BmsNextionPacket.CompleteCall | ESP_AKS/lib/BmsAlgo/BmsNextionPacket.cpp:59-121 | a call that sent all it had to leaves each of the 75 fields at its target, except the cell fields of a warm, unforced call without a cell tick, which it leaves alone |
| BmsNextionPacket.CompleteCallShows | ESP_AKS/lib/BmsAlgo/BmsNextionPacket.cpp:59-121 | after such a call the cache holds the highest cell, the lowest cell and the warning level in its last three fields and, when cells were visited, the raw voltages, their percentages and the balance bits |
| BmsNextionPacket.AllSentIff | ESP_AKS/lib/BmsAlgo/BmsNextionPacket.cpp:47-51 | everything was sent exactly when the budget holds the whole list |
| BmsNextionPacket.CommandTexts | ESP_AKS/lib/BmsAlgo/BmsNextionPacket.cpp:35-121 | the texts of the six kinds of command and the three end bytes each is charged |
| BmsNextionPacket.Cache.constructor | ESP_AKS/lib/BmsAlgo/BmsNextionPacket.h:57-73 | the cold cache's values |
| BmsNextionPacket.CellBarFill | ESP_AKS/lib/BmsAlgo/BmsNextionPacket.cpp:14-21 | the bar is the whole percentage of the cell between 2500 and 3650 mV, rounded down, clamped outside, and 0 for the no-data value |
| NextionConvergence.BarFollowsSocMap | ESP_AKS/lib/BmsAlgo/BmsNextionPacket.cpp:14-21 | the bar is the state-of-charge map of the cell, except that the no-data value empties it |
| NextionConvergence.SentIsLongestAffordable | ESP_AKS/lib/BmsAlgo/BmsNextionPacket.cpp:47-51 | a prefix of the fields fits the budget exactly when it is no longer than what is sent |
| NextionConvergence.CallsStayInBudget | ESP_AKS/lib/BmsAlgo/BmsNextionPacket.cpp:47-56 | the emitted texts and their end bytes never exceed the budget of the call, whatever its inputs |
| NextionConvergence.CallRemovesSentFields | ESP_AKS/lib/BmsAlgo/BmsNextionPacket.cpp:59-121 | with force off a cell call leaves stale exactly the fields it could not afford, in order |
| NextionConvergence.CommandsAreShort | ESP_AKS/lib/BmsAlgo/BmsNextionPacket.cpp:35-51 | every command costs at most 20 bytes, so the 40-byte text buffer never cuts one |
| NextionConvergence.StaleCountFalls | ESP_AKS/lib/BmsAlgo/BmsNextionPacket.cpp:59-121 | with a budget of at least 20 bytes the number of stale fields strictly falls |
| NextionConvergence.ProgressIffFirstFits | ESP_AKS/lib/BmsAlgo/BmsNextionPacket.cpp:47-51 | for any budget a call makes progress exactly when the first stale field's command fits |
| NextionConvergence.EachCallFixesFour | ESP_AKS/lib/BmsAlgo/BmsNextionPacket.h:75-78 | k calls with the default budget fix at least the smaller of 4k and all stale fields |
| NextionConvergence.NineteenCallsSynchronise | ESP_AKS/lib/BmsAlgo/BmsNextionPacket.cpp:25-126 | with fixed inputs 19 calls bring all 75 fields to their target, and no later unforced call emits anything |
| NextionConvergence.ForcedCallsStarve | ESP_AKS/lib/BmsAlgo/BmsNextionPacket.cpp:64-121 | with force on every call a field beyond the affordable prefix keeps its value for ever |
| NextionConvergence.ForcedCallsConvergeIff | ESP_AKS/lib/BmsAlgo/BmsNextionPacket.cpp:64-121 | any number of forced calls, for any budget, brings the screen up to date exactly when every field beyond the affordable prefix already was |
| NextionConvergence.ForcedCallsNeverConverge | ESP_AKS/lib/BmsAlgo/BmsNextionPacket.cpp:115-121 | with 90 bytes a stale warning level is beyond that prefix, so forced calls never repair it |
| NextionConvergence.CommandsAreUnambiguous | ESP_AKS/lib/BmsAlgo/BmsNextionPacket.cpp:39-43 | a command's text determines its field and its value |
| NextionConvergence.ScreenFollowsCache | ESP_AKS/lib/BmsAlgo/BmsNextionPacket.cpp:53-121 | a screen that agreed with the cache agrees with it after executing the emitted texts |
| BmsAlgo.ComputePack | ESP_AKS/lib/BmsAlgo/BmsAlgo.cpp:46-133 | the three kinds of input: invalid, no cell data, and extremes with first positions, sum, balancing, warning level, and the charge as the percentage of the cells' mean |
| BmsAlgo.Scan | ESP_AKS/lib/BmsAlgo/BmsAlgo.cpp:60-78 | one pass finds sum, maximum, minimum and the first position of each |
| BmsAlgo.MarkBalance | ESP_AKS/lib/BmsAlgo/BmsAlgo.cpp:96-111 | marks exactly the cells within 5 mV of the highest when the spread exceeds 50 mV, and none otherwise |
| BmsAlgo.SocFromAvgMv | ESP_AKS/lib/BmsAlgo/BmsAlgo.cpp:35-42 | the whole percentage of the mean between 2500 and 3650 mV, rounded down and clamped outside |
| BmsAlgo.BalancingSparesTheLowest | ESP_AKS/lib/BmsAlgo/BmsAlgo.cpp:96-111 | some cell is balanced exactly when the spread exceeds the threshold, and a lowest cell never is |
| BmsAlgo.SocNeverFallsWhenCellsRise | ESP_AKS/lib/BmsAlgo/BmsAlgo.cpp:92-94 | raising any cells never lowers the state of charge |
| BmsAlgo.InterpretationIsUnique | ESP_AKS/lib/BmsAlgo/BmsAlgo.cpp:58-132 | what `ComputePack` promises for valid data determines its whole result |
| BmsAlgo.ReportedLevel | ESP_AKS/lib/BmsAlgo/BmsAlgo.cpp:113-130 | the warning level in terms of some cell or temperature outside the printed limits |
| BmsAlgo.ReportedBalance | ESP_AKS/lib/BmsAlgo/BmsAlgo.cpp:96-111 | a cell is balanced exactly when some two cells differ by more than 50 mV and none is more than 5 mV above it |
| BmsAlgo.NoDataShowsNothing | ESP_AKS/lib/BmsAlgo/BmsAlgo.cpp:10-32 | the record of a pack without data is all zeros with no balancing |
| Telemetry.Printer.SendStatus | ESP_AKS/lib/Telemetry/Telemetry.cpp:18-66 | the UART gets the whole frame, never cut, with the current number; the number is used up only by a write that succeeds |
| Telemetry.Printer.Begin | ESP_AKS/lib/Telemetry/Telemetry.cpp:12-16 | numbering restarts at 0 |
| Telemetry.RawFrameLength | ESP_AKS/lib/Telemetry/Telemetry.cpp:27-56 | a frame of any record has at most 108 characters |
| Telemetry.SanitizedFrameLength | ESP_AKS/include/SystemConfig.h:108-112 | a frame of a sanitised record has at most 106 |
| UksContract.FrameRoundTrip | ESP_AKS/tools/e2e/contract.py:222-254 | the receiver accepts a sanitised record's frame exactly when 0 <= rpm <= 20000, motor voltage <= 32767 and speed <= 3000, and then reads back all 18 numbers under the right names; otherwise the reason of the refusal |
| UksContract.VerdictOnFrame | ESP_AKS/tools/e2e/contract.py:229-254 | the verdict on any 18 printed numbers, with the reason of every refusal |
| UksContract.VerdictOnAnyLine | ESP_AKS/tools/e2e/contract.py:222-236 | for any line: its body is its tokens joined by commas and its rest is line ends; not 19 tokens is parse_fail, another tag is bad_tag, and an accepted line has 19 tokens of which the first is TEL |
| UksContract.ReceiverOrder | ESP_AKS/tools/e2e/contract.py:50-54 | an accepted line's 18 numbers, by position, under the receiver's names |
| UksContract.StrictTokens | ESP_AKS/tools/e2e/contract.py:257-270 | digits are a number, one sign is allowed exactly where signs are, and a sign alone or nothing is refused |
| UksContract.OtherCharactersRefused | ESP_AKS/tools/e2e/contract.py:257-270 | a token with any other character is refused |
| UksContract.ContractRanges | ESP_AKS/tools/e2e/contract.py:58-80 | the ranges of the 18 numbers, name by name, that the receiver accepts |
| UksContract.AcceptedValuesAreCanonical | ESP_AKS/tools/e2e/contract.py:164-178 | whatever line is accepted, printing its values gives a frame that is accepted with the same values |
| UksContract.ParseUksFrame | ESP_AKS/tools/e2e/contract.py:222-254 | the early returns of the parser agree with a verdict that judges all tokens together |
| UksContract.ParseFields | ESP_AKS/tools/e2e/contract.py:238-246 | the loop succeeds exactly when every token is a strict integer in its field's range |
| UksContract.PrinterAgreesWithReceiver | ESP_AKS/tools/e2e/contract.py:50-54 | the printer's order of fields is the receiver's order of names |
| UksContract.FrameText | ESP_AKS/lib/Telemetry/Telemetry.cpp:27-48 | the printed frame is the tag and 18 decimal texts in their printed order, with commas between and a line end |
| UksContract.TokenOfIntText | ESP_AKS/tools/e2e/contract.py:257-270 | printed numbers are strict tokens where their sign is allowed, and are read back |
| UksContract.PrintedTokenAccepted | ESP_AKS/tools/e2e/contract.py:58-80 | a printed number is accepted exactly when it lies in its field's range |
| UksContract.FrameLengthBoundIsTight | ESP_AKS/lib/Telemetry/Telemetry.cpp:27-48 | some sanitised record needs all 106 characters |
| UksContract.SanitizingIsMinimal | ESP_AKS/lib/Telemetry/TelemetrySanitize.h:27-56 | sanitising changes a record exactly when one of its three fields is outside the receiver's range, and never twice |
| UksContract.SanitizedFields | ESP_AKS/lib/Telemetry/TelemetrySanitize.h:27-56 | an unknown state becomes 4, a charge above 10000 becomes 10000, the lowest 32-bit current becomes its successor, and nothing else changes |
| Decimal.PlacesOfDec | ESP_AKS/lib/Telemetry/Telemetry.cpp:27-48 | a printed number shows its decimal places, most significant first |
| Decimal.SignOfIntText | ESP_AKS/lib/Telemetry/Telemetry.cpp:27-48 | a minus sign is printed exactly before the digits of a negative number |
| DisplayHMI.TouchReader.ReadTouchCommand | ESP_AKS/lib/DisplayHMI/DisplayHMI.cpp:131-180 | a call consumes ready bytes in order, at least one when there is one, up to the first command or to the end, and leaves the automaton where those bytes take it |
| DisplayHMI.SplittingIsInvisible | ESP_AKS/lib/DisplayHMI/DisplayHMI.cpp:143-179 | however the stream arrives and however many calls read it, the commands are those of the bytes consumed |
| DisplayHMI.StreamIsReadCompletely | ESP_AKS/lib/DisplayHMI/DisplayHMI.cpp:143-179 | once nothing arrives any more, as many calls as bytes are waiting drain the UART, and the commands yielded are those of the whole stream |
| DisplayHMI.CommandsOwnThreeBytes | ESP_AKS/lib/DisplayHMI/DisplayHMI.cpp:134-141 | each command comes from its own three adjacent bytes 0x5A, c, ~c, and is neither 0x00 nor 0xFF |
| DisplayHMI.WrongChecksumEndsFrame | ESP_AKS/lib/DisplayHMI/DisplayHMI.cpp:163-176 | a wrong checksum byte ends the frame without a command, even when it is 0x5A, which then starts no frame |
| DisplayHMI.FramesRoundTrip | ESP_AKS/lib/DisplayHMI/DisplayHMI.cpp:153-172 | a stream of well-formed frames decodes to its commands exactly when none is 0x00 or 0xFF |
| DisplayHMI.FillerResynchronises | ESP_AKS/lib/DisplayHMI/DisplayHMI.cpp:153-157 | after any noise and one filler byte the following frames decode exactly |
| CanManager.Manager.ProcessRxMessages | ESP_AKS/lib/CanManager/CanManager.cpp:127-249 | at most 32 frames in order, up to the queue's end or a driver error, then the three validity updates; an uninitialised manager does nothing |
| CanManager.Manager.Dispatch | ESP_AKS/lib/CanManager/CanManager.cpp:179-242 | remote frames are only counted, short ones change nothing, and an identifier works only in its own frame format |
| CanManager.Manager.HandleMotorStatus | ESP_AKS/lib/CanManager/CanManager.cpp:274-325 | the motor record after a frame and whether a fault is reported |
| CanManager.Manager.HandleLbBmsE000 | ESP_AKS/lib/CanManager/CanManager.cpp:331-400 | pack values, pack-limit flags and whether a fault is reported |
| CanManager.Manager.HandleCellFrame | ESP_AKS/lib/CanManager/CanManager.cpp:431-496 | four cells in tenths at the group's place, and validity with the sixth group |
| CanManager.Manager.UpdateMotorStatusValidity | ESP_AKS/lib/CanManager/CanManager.cpp:577-603 | a seen, valid and old status becomes invalid and timed out |
| CanManager.Manager.UpdateBmsValidity | ESP_AKS/lib/CanManager/CanManager.cpp:605-649 | combined freshness of the two identifiers |
| CanManager.Manager.UpdateCellVoltageValidity | ESP_AKS/lib/CanManager/CanManager.cpp:651-675 | old cells become timed out, and the group mask is cleared only when they were valid |
| CanManager.MotorErrorFaultConfirmed | ESP_AKS/lib/CanManager/MotorFaultDebounce.h:24-34 | the saturating counter restarts exactly on a clean frame, and only an error is ever confirmed |
| CanHistory.DrainIsEvents | ESP_AKS/lib/CanManager/CanManager.cpp:166-248 | any split of the frames into drains is one list of events |
| CanHistory.RemoteFramesAreCounted | ESP_AKS/lib/CanManager/CanManager.cpp:183-186 | remote frames are counted modulo 2^32 and change nothing else |
| CanHistory.DrainLimit | ESP_AKS/lib/CanManager/CanManager.cpp:166-248 | a drain takes the waiting frames, at most 32 |
| CanHistory.CellDataFollowsHistory | ESP_AKS/lib/CanManager/CanManager.cpp:431-496 | cell data is valid exactly when all six groups were accepted since the last invalidation, and every group holds its latest accepted frame |
| CanHistory.ValidCellsAreLatest | ESP_AKS/lib/CanParse/CanParse.cpp:147-199 | when valid, each of the 24 cells is a tenth of its word in the latest accepted frame of its group |
| CanHistory.CellIdentifiers | ESP_AKS/lib/CanParse/CanParse.cpp:147-199 | 0xE015 to 0xE019 and 0xE020 carry the six groups of four cells, and no other identifier carries any |
| CanHistory.CellFlagFollowsHistory | ESP_AKS/lib/CanManager/CanManager.cpp:651-675 | the cells' time-out flag is raised by an update that finds the latest cell frame too old, cleared by one that finds complete fresh data, and changed by nothing else |
| CanHistory.RecordShowsHistory | ESP_AKS/lib/CanManager/CanManager.cpp:262-272 | the shared record after an update holds, field by field, the values of the latest accepted frames and the validity and time-out flags of the history |
| CanHistory.MotorFollowsHistory | ESP_AKS/lib/CanManager/CanManager.cpp:298-324 | for every history the counter is the trailing error run saturated at 65535, the published flags are the last frame's after three error frames in a row and none before, and one fault is reported per maximal block of equal non-zero published flags |
| CanHistory.MotorValuesFollowHistory | ESP_AKS/lib/CanManager/CanManager.cpp:274-325 | for every history rpm and voltage are the latest motor frame's, and the status is valid until an update finds it too old and timed out until the next frame |
| CanHistory.MotorFrames | ESP_AKS/lib/CanParse/CanParse.cpp:5-24 | a motor frame is a full standard data frame 0x200, and its lowest flag bit is no error |
| CanHistory.BlocksOfMore | ESP_AKS/lib/CanManager/CanManager.cpp:719-729 | reporting on a change to new non-zero flags counts the maximal blocks |
| CanHistory.RpmIsMagnitude | ESP_AKS/lib/CanManager/CanManager.cpp:306-313 | the stored rpm is the magnitude of the received one, except for -32768 |
| CanHistory.BmsFollowsHistory | ESP_AKS/lib/CanManager/CanManager.cpp:331-429 | pack values are those of the latest E000 frame, temperatures and extremes those of the latest E001 frame, and one pack fault is reported per maximal block on the same side of the limits |
| CanHistory.PackLimits | ESP_AKS/lib/CanManager/CanManager.cpp:331-400 | pack faults are at most 60.0 V and at least 87.6 V |
| CanHistory.WordIsBigEndian | ESP_AKS/lib/CanParse/CanParse.cpp:32-53 | a word's high byte comes first |
| CanHistory.DrainReportsBlocks | ESP_AKS/lib/CanManager/CanManager.cpp:166-249 | a drain reports as many faults as new maximal blocks of published motor flags and of pack-limit flags begin in its frames |
| CanHistory.ValidIffBothFresh | ESP_AKS/lib/CanManager/BmsFreshness.h:29-52 | after an update pack data is valid exactly when both identifiers' latest frames are younger than the limit |
| CanHistory.UpdateDecidesFreshness | ESP_AKS/lib/CanManager/BmsFreshness.h:37-52 | once both identifiers were seen, data that is not valid is timed out |
| CanHistory.DrainDecidesFreshness | ESP_AKS/lib/CanManager/CanManager.cpp:245-248 | every drain ends with that decided and forgets no identifier |

## Left out

- Real concurrency: mutexes, atomics and preemption inside a task's step. A step is atomic; interleavings are between steps.
- Task set-up, watchdogs, stack reports, CAN bit-rate detection, bus-off recovery, UART and SPI set-up: calls into the
  platform. Their outcomes that matter are arguments.
- Logging and its throttles (the warning log, the READY-refusal log, time-out logs): they change no modelled state.
- Speed from rpm and the screen's smoothing: floating point. The uplink's speed is an arbitrary 16-bit number.
- The build with a motor driver (`MOTOR_DRIVER_PRESENT`): the model is the default build, which sends no torque frame.
  The command ZERO_TORQUE is the request to the injected sink, whether or not a sink is set.
- Charger frames, frames with unknown meaning and the standard frame 0x000: they change no data that is modelled.
- CAN handlers before the mutex exists: a manager that is not initialised takes no frame, so they are not reached.
- The radio module's configuration and the screen's text helpers: mostly single-path byte building.
- The send callback reports success even when its UART write fails. Conservation is stated for what the callback reports,
  and the period of the transmission tick in the radio task is not modelled.
- A null emit callback of `buildBmsNextionCommands`, which returns at once.
- UksContract.ParseUksFrame: does not model characters outside ASCII, where Python's `isdigit` also knows other decimal digits
  and superscripts (on which `int` raises), nor tokens of more than 4300 digits, on which `int` raises.
- The receiver's forward line, the drift checks between repositories and the log replay tool.
- CanManager.Manager.HandleCellFrame: the six handlers are one, with the group as its argument; the manager's fields are
  grouped into three records.
- Loops with long bodies (`buildBmsNextionCommands`, `onTxTickLinkUp`, `run`) are split into one method per stage.
