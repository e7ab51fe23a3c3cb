/** CAN reception: which frame updates what, freshness of each source, and the bounded drain of the receive queue. */
module CanManager {
  import opened Words
  import opened VehicleData

  const RX_DRAIN_MAX := 32
  const DEBOUNCE_FRAMES := 3
  const MOTOR_STATUS_ID := 0x200
  const E000_ID := 0xE000
  const E001_ID := 0xE001

  /** The freshness limits in scheduler ticks. */
  datatype Timeouts = Timeouts(motor: uint32, bms: uint32, cell: uint32)

  type Payload = s: seq<byte> | |s| == 8 witness [0, 0, 0, 0, 0, 0, 0, 0]

  datatype Frame = Frame(rtr: bool, extd: bool, id: uint32, dlc: byte, data: Payload)

  /** One answer of the receive driver, with the tick at which its handler runs. */
  datatype Rx = Received(frame: Frame, tick: uint32) | ReceiveError

  datatype Motor = Motor(
    rpm: int16,
    voltageDeciV: uint16,
    errorFlags: byte,
    dataValid: bool,
    timeoutActive: bool,
    statusValid: bool,
    lastTick: uint32,
    seen: bool,
    consecutive: uint16)

  datatype Bms = Bms(
    packVoltageDeciV: uint16,
    currentCentiA: int32,
    socHundredths: uint16,
    soc2Hundredths: uint16,
    cellMinDeciMv: uint16,
    cellMaxDeciMv: uint16,
    cellAvgDeciMv: uint16,
    tempHighestC: int8,
    tempLowestC: int8,
    dataValid: bool,
    timeoutActive: bool,
    lastE000Tick: uint32,
    seenE000: bool,
    lastE001Tick: uint32,
    seenE001: bool,
    packFaultFlags: byte)

  datatype CellData = CellData(
    voltages: Cells,
    valid: bool,
    timeoutActive: bool,
    lastTick: uint32,
    seen: bool,
    mask: bv8,
    complete: bool)

  datatype Can = Can(motor: Motor, bms: Bms, cells: CellData, remoteFrames: uint32)

  const START: Can := Can(
    Motor(0, 0, 0, false, false, false, 0, false, 0),
    Bms(0, 0, 0, 0, 0, 0, 0, 0, 0, false, false, 0, false, 0, false, 0),
    CellData(ZERO_CELLS, false, false, 0, false, 0, false),
    0)

  /** Big-endian 16-bit word at byte i. */
  function Word(p: Payload, i: nat): uint16
    requires i < 7
  {
    var high: int := p[i];
    high * 0x100 + p[i + 1]
  }

  // ---------------------------------------------------------------- motor status

  /** One frame's turn of the debounce counter, which saturates. */
  function Debounce(errorFlags: byte, count: uint16, debounceFrames: uint16): (uint16, bool) {
    if errorFlags == 0 then (0, false)
    else
      var c: uint16 := if count < 0xFFFF then count + 1 else count;
      (c, c >= debounceFrames)
  }

  method MotorErrorFaultConfirmed(errorFlags: byte, count: uint16, debounceFrames: uint16)
    returns (count': uint16, confirmed: bool)
    ensures (count', confirmed) == Debounce(errorFlags, count, debounceFrames)
    ensures errorFlags == 0 <==> count' == 0
    ensures confirmed ==> errorFlags != 0
  {
    if errorFlags == 0 {
      return 0, false;
    }
    count' := count;
    if count' < 0xFFFF {
      count' := count' + 1;
    }
    confirmed := count' >= debounceFrames;
  }

  /** The lowest bit says that the motor runs and is no error. */
  function ErrorBits(b: byte): byte {
    if b % 2 == 1 then b - 1 else b
  }

  /** The magnitude of a signed rpm, stored back into a signed 16-bit field. */
  function StoredRpm(rpm: int16): int16 {
    var magnitude: int := if rpm < 0 then 0 - (rpm as int) else rpm;
    ToInt16(magnitude)
  }

  /** A change to a new, non-zero set of flags is reported. */
  predicate Notifies(previous: byte, current: byte) {
    current != 0 && current != previous
  }

  function AfterMotorFrame(m: Motor, p: Payload, tick: uint32): (Motor, bool) {
    var flags := ErrorBits(p[7]);
    var (count, confirmed) := Debounce(flags, m.consecutive, DEBOUNCE_FRAMES);
    var published := if confirmed then flags else 0;
    (Motor(StoredRpm(ToInt16(Word(p, 0))), Word(p, 2), published, true, false, true, tick, true, count),
     Notifies(m.errorFlags, published))
  }

  function AfterMotorUpdate(m: Motor, t: Timeouts, now: uint32): Motor {
    if m.seen && m.statusValid && Sub32(now, m.lastTick) >= t.motor
    then m.(statusValid := false, dataValid := false, timeoutActive := true)
    else m
  }

  // ---------------------------------------------------------------- BMS

  function PackFaultFlags(deciV: uint16): byte {
    if deciV <= CRITICAL_MIN_PACK_DECI_V then 1
    else if deciV >= CRITICAL_MAX_PACK_DECI_V then 2
    else 0
  }

  function AfterE000(b: Bms, p: Payload, tick: uint32): (Bms, bool) {
    var flags := PackFaultFlags(Word(p, 2));
    (b.(currentCentiA := ToInt16(Word(p, 0)) * 10,
        packVoltageDeciV := Word(p, 2),
        socHundredths := Word(p, 4),
        soc2Hundredths := Word(p, 6),
        lastE000Tick := tick,
        seenE000 := true,
        packFaultFlags := flags),
     Notifies(b.packFaultFlags, flags))
  }

  function AfterE001(b: Bms, p: Payload, tick: uint32): Bms {
    var t1, t2 := ToInt8(p[6]), ToInt8(p[7]);
    b.(cellMinDeciMv := Word(p, 0),
       cellMaxDeciMv := Word(p, 2),
       cellAvgDeciMv := Word(p, 4),
       tempHighestC := if t1 >= t2 then t1 else t2,
       tempLowestC := if t1 <= t2 then t1 else t2,
       lastE001Tick := tick,
       seenE001 := true)
  }

  predicate IdFresh(seen: bool, now: uint32, lastTick: uint32, timeout: uint32) {
    seen && Sub32(now, lastTick) < timeout
  }

  function AfterBmsUpdate(b: Bms, t: Timeouts, now: uint32): Bms {
    var fresh0 := IdFresh(b.seenE000, now, b.lastE000Tick, t.bms);
    var fresh1 := IdFresh(b.seenE001, now, b.lastE001Tick, t.bms);
    b.(dataValid := fresh0 && fresh1,
       timeoutActive := (b.seenE000 && !fresh0) || (b.seenE001 && !fresh1))
  }

  // ---------------------------------------------------------------- cell voltages

  const GROUPS := 6
  const ALL_GROUPS: bv8 := 0x3F

  /** The group of four cells that an identifier carries; the identifiers jump from 0xE019 to 0xE020. */
  function GroupOfId(id: uint32): (g: nat)
    ensures g <= GROUPS
  {
    if 0xE015 <= id <= 0xE019 then id - 0xE015 else if id == 0xE020 then 5 else GROUPS
  }

  function GroupBit(g: nat): bv8
    requires g < GROUPS
  {
    if g == 0 then 1 else if g == 1 then 2 else if g == 2 then 4 else if g == 3 then 8 else if g == 4 then 16 else 32
  }

  /** The frame's four raw words in tenths, at the group's place. */
  function StoreGroup(cells: Cells, g: nat, p: Payload): Cells
    requires g < GROUPS
  {
    cells[4 * g := Word(p, 0) / 10][4 * g + 1 := Word(p, 2) / 10]
    [4 * g + 2 := Word(p, 4) / 10][4 * g + 3 := Word(p, 6) / 10]
  }

  function AfterCellFrame(c: CellData, g: nat, p: Payload, tick: uint32): CellData
    requires g < GROUPS
  {
    var mask := c.mask | GroupBit(g);
    c.(voltages := StoreGroup(c.voltages, g, p),
       lastTick := tick,
       seen := true,
       mask := mask,
       valid := c.valid || mask == ALL_GROUPS,
       complete := c.complete || mask == ALL_GROUPS)
  }

  function AfterCellUpdate(c: CellData, t: Timeouts, now: uint32): CellData {
    if c.seen && Sub32(now, c.lastTick) >= t.cell then
      (if c.valid then c.(valid := false, complete := false, mask := 0, timeoutActive := true)
       else c.(timeoutActive := true))
    else if c.valid then c.(timeoutActive := false)
    else c
  }

  // ---------------------------------------------------------------- dispatch and drain

  /** A frame's effect, and whether its handler reported a fault. Short and remote frames change no data. */
  function AfterFrame(c: Can, f: Frame, tick: uint32): (Can, bool) {
    if f.rtr then (c.(remoteFrames := Add32(c.remoteFrames, 1)), false)
    else if f.dlc < 8 then (c, false)
    else if f.extd then
      if f.id == E000_ID then
        var (b, fault) := AfterE000(c.bms, f.data, tick);
        (c.(bms := b), fault)
      else if f.id == E001_ID then (c.(bms := AfterE001(c.bms, f.data, tick)), false)
      else if GroupOfId(f.id) < GROUPS then
        (c.(cells := AfterCellFrame(c.cells, GroupOfId(f.id), f.data, tick)), false)
      else (c, false)
    else if f.id == MOTOR_STATUS_ID then
      var (m, fault) := AfterMotorFrame(c.motor, f.data, tick);
      (c.(motor := m), fault)
    else (c, false)
  }

  function AfterUpdates(c: Can, t: Timeouts, now: uint32): Can {
    c.(motor := AfterMotorUpdate(c.motor, t, now),
       bms := AfterBmsUpdate(c.bms, t, now),
       cells := AfterCellUpdate(c.cells, t, now))
  }

  /** How many frames one call takes, counting from k: up to the limit, the queue's end or a driver error. */
  function Taken(rx: seq<Rx>, k: nat): (n: nat)
    requires k <= |rx| && k <= RX_DRAIN_MAX && forall i :: 0 <= i < k ==> rx[i].Received?
    ensures k <= n <= |rx| && n <= RX_DRAIN_MAX && forall i :: 0 <= i < n ==> rx[i].Received?
    ensures n == |rx| || n == RX_DRAIN_MAX || rx[n].ReceiveError?
    decreases |rx| - k
  {
    if k < |rx| && k < RX_DRAIN_MAX && rx[k].Received? then Taken(rx, k + 1) else k
  }

  /** The state after the first n frames and the number of faults reported. */
  function AfterFrames(c: Can, rx: seq<Rx>, n: nat): (Can, nat)
    requires n <= |rx| && forall i :: 0 <= i < n ==> rx[i].Received?
  {
    if n == 0 then (c, 0)
    else
      var (before, faults) := AfterFrames(c, rx, n - 1);
      var (after, fault) := AfterFrame(before, rx[n - 1].frame, rx[n - 1].tick);
      (after, if fault then faults + 1 else faults)
  }

  function AfterDrain(c: Can, t: Timeouts, rx: seq<Rx>, now: uint32): (Can, nat) {
    var (drained, faults) := AfterFrames(c, rx, Taken(rx, 0));
    (AfterUpdates(drained, t, now), faults)
  }

  /** The record that other tasks see. */
  function TelemetryOf(c: Can): TelemetryData {
    TelemetryData(c.motor.rpm, c.motor.voltageDeciV, c.motor.errorFlags, c.motor.dataValid, c.motor.timeoutActive,
                  c.cells.voltages, c.bms.cellMaxDeciMv, c.bms.cellMinDeciMv, c.bms.cellAvgDeciMv, 0,
                  c.cells.valid, c.cells.timeoutActive,
                  c.bms.packVoltageDeciV, c.bms.currentCentiA, c.bms.socHundredths, c.bms.soc2Hundredths,
                  c.bms.tempHighestC, c.bms.tempLowestC, c.bms.dataValid, c.bms.timeoutActive, 0, 0)
  }

  class Manager {
    const timeouts: Timeouts
    var isInitialized: bool
    var motor: Motor
    var bms: Bms
    var cells: CellData
    var rxRemoteFrameCount: uint32

    ghost function View(): Can
      reads this
    {
      Can(motor, bms, cells, rxRemoteFrameCount)
    }

    constructor (timeouts: Timeouts)
      ensures !isInitialized && View() == START && this.timeouts == timeouts
    {
      this.timeouts, isInitialized := timeouts, false;
      motor, bms, cells, rxRemoteFrameCount := START.motor, START.bms, START.cells, 0;
    }

    method Begin(driverStarts: bool) returns (ok: bool)
      modifies this`isInitialized
      ensures ok == isInitialized == (old(isInitialized) || driverStarts)
    {
      isInitialized := isInitialized || driverStarts;
      ok := isInitialized;
    }

    method HandleMotorStatus(p: Payload, tick: uint32) returns (fault: bool)
      modifies this`motor
      ensures (motor, fault) == AfterMotorFrame(old(motor), p, tick)
    {
      var flags := ErrorBits(p[7]);
      var count, confirmed := MotorErrorFaultConfirmed(flags, motor.consecutive, DEBOUNCE_FRAMES);
      var previous := motor.errorFlags;
      var current := if confirmed then flags else 0;
      motor := Motor(StoredRpm(ToInt16(Word(p, 0))), Word(p, 2), current, true, false, true, tick, true, count);
      fault := Notifies(previous, current);
    }

    method HandleLbBmsE000(p: Payload, tick: uint32) returns (fault: bool)
      modifies this`bms
      ensures (bms, fault) == AfterE000(old(bms), p, tick)
    {
      var flags := PackFaultFlags(Word(p, 2));
      var previous := bms.packFaultFlags;
      bms := bms.(packVoltageDeciV := Word(p, 2), currentCentiA := ToInt16(Word(p, 0)) * 10,
                  socHundredths := Word(p, 4), soc2Hundredths := Word(p, 6));
      bms := bms.(lastE000Tick := tick, seenE000 := true, packFaultFlags := flags);
      fault := Notifies(previous, flags);
    }

    method HandleCellFrame(g: nat, p: Payload, tick: uint32)
      requires g < GROUPS
      modifies this`cells
      ensures cells == AfterCellFrame(old(cells), g, p, tick)
    {
      cells := cells.(voltages := StoreGroup(cells.voltages, g, p));
      cells := cells.(lastTick := tick, seen := true, mask := cells.mask | GroupBit(g));
      if cells.mask == ALL_GROUPS {
        cells := cells.(valid := true, complete := true);
      }
    }

    method Dispatch(f: Frame, tick: uint32) returns (fault: bool)
      modifies this
      ensures (View(), fault) == AfterFrame(old(View()), f, tick) && isInitialized == old(isInitialized)
    {
      fault := false;
      if f.rtr {
        rxRemoteFrameCount := Add32(rxRemoteFrameCount, 1);
        return;
      }
      if f.dlc < 8 {
        return;
      }
      if f.extd {
        if f.id == E000_ID {
          fault := HandleLbBmsE000(f.data, tick);
        } else if f.id == E001_ID {
          bms := AfterE001(bms, f.data, tick);
        } else if GroupOfId(f.id) < GROUPS {
          HandleCellFrame(GroupOfId(f.id), f.data, tick);
        }
      } else if f.id == MOTOR_STATUS_ID {
        fault := HandleMotorStatus(f.data, tick);
      }
    }

    method UpdateCellVoltageValidity(now: uint32)
      modifies this`cells
      ensures cells == AfterCellUpdate(old(cells), timeouts, now)
    {
      if cells.seen && Sub32(now, cells.lastTick) >= timeouts.cell {
        if cells.valid {
          cells := cells.(valid := false, complete := false, mask := 0);
        }
        cells := cells.(timeoutActive := true);
      } else if cells.valid {
        cells := cells.(timeoutActive := false);
      }
    }

    method UpdateBmsValidity(now: uint32)
      modifies this`bms
      ensures bms == AfterBmsUpdate(old(bms), timeouts, now)
    {
      var fresh0 := IdFresh(bms.seenE000, now, bms.lastE000Tick, timeouts.bms);
      var fresh1 := IdFresh(bms.seenE001, now, bms.lastE001Tick, timeouts.bms);
      bms := bms.(dataValid := fresh0 && fresh1);
      bms := bms.(timeoutActive := (bms.seenE000 && !fresh0) || (bms.seenE001 && !fresh1));
    }

    method UpdateMotorStatusValidity(now: uint32)
      modifies this`motor
      ensures motor == AfterMotorUpdate(old(motor), timeouts, now)
    {
      if motor.seen && motor.statusValid && Sub32(now, motor.lastTick) >= timeouts.motor {
        motor := motor.(statusValid := false);
        motor := motor.(dataValid := false, timeoutActive := true);
      }
    }

    /** `rx` is the receive queue; `rest` stays in it. `faults` counts the fault callbacks. */
    method ProcessRxMessages(rx: seq<Rx>, now: uint32) returns (rest: seq<Rx>, faults: nat)
      modifies this
      ensures !isInitialized ==> View() == old(View()) && rest == rx && faults == 0
      ensures isInitialized == old(isInitialized)
      ensures isInitialized ==>
                var n := Taken(rx, 0);
                && (View(), faults) == AfterDrain(old(View()), timeouts, rx, now)
                && rest == rx[if n < |rx| && n < RX_DRAIN_MAX then n + 1 else n..]
    {
      faults := 0;
      if !isInitialized {
        return rx, 0;
      }
      var i := 0;
      var taken := 0;
      while i < RX_DRAIN_MAX
        invariant i == taken <= |rx| && i <= RX_DRAIN_MAX && isInitialized
        invariant forall k :: 0 <= k < i ==> rx[k].Received?
        invariant Taken(rx, i) == Taken(rx, 0)
        invariant (View(), faults) == AfterFrames(old(View()), rx, i)
      {
        if taken == |rx| {
          break;
        }
        var msg := rx[taken];
        taken := taken + 1;
        if msg.ReceiveError? {
          break;
        }
        var fault := Dispatch(msg.frame, msg.tick);
        if fault {
          faults := faults + 1;
        }
        i := i + 1;
      }
      rest := rx[taken..];
      UpdateMotorStatusValidity(now);
      UpdateBmsValidity(now);
      UpdateCellVoltageValidity(now);
    }
  }
}
