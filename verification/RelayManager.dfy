/** The contactor driver over an MCP23S17 port expander: a shadow word, read-back, repair and a latched fault. */
module RelayManager {
  import opened Words

  const RELAY_TOTAL_CHANNELS: bv8 := 10
  const ALL_CHANNELS: bv16 := 0x3FF
  const VERIFY_PERIOD_MS := 100

  datatype Register = OLATA | OLATB | IODIRA | IODIRB

  datatype Regs = Regs(olatA: bv8, olatB: bv8, iodirA: bv8, iodirB: bv8)

  /** All pins inputs, all latches low. */
  const POWER_ON: Regs := Regs(0, 0, 0xFF, 0xFF)

  /** The chip behind its SPI bus. The k-th transaction from now fails when `failures[k]` says so, and otherwise
      succeeds; `trace` holds the registers after every write. */
  datatype Bus = Bus(regs: Regs, failures: seq<bool>, trace: seq<Regs>)

  predicate Failing(b: Bus) {
    b.failures != [] && b.failures[0]
  }

  function Later(failures: seq<bool>): seq<bool> {
    if failures == [] then [] else failures[1..]
  }

  function Get(r: Regs, reg: Register): bv8 {
    match reg
    case OLATA => r.olatA
    case OLATB => r.olatB
    case IODIRA => r.iodirA
    case IODIRB => r.iodirB
  }

  function Set(r: Regs, reg: Register, value: bv8): Regs {
    match reg
    case OLATA => r.(olatA := value)
    case OLATB => r.(olatB := value)
    case IODIRA => r.(iodirA := value)
    case IODIRB => r.(iodirB := value)
  }

  function BusWrite(b: Bus, reg: Register, value: bv8): Bus {
    var regs := if Failing(b) then b.regs else Set(b.regs, reg, value);
    Bus(regs, Later(b.failures), b.trace + [regs])
  }

  function BusRead(b: Bus, reg: Register): (Bus, bool, bv8) {
    (b.(failures := Later(b.failures)), !Failing(b), if Failing(b) then 0 else Get(b.regs, reg))
  }

  datatype Relay = Relay(
    shadow: bv16,
    attached: bool,
    initialized: bool,
    fault: bool,
    lastVerifyMs: uint32,
    verifyStarted: bool,
    bus: Bus)

  /** The driver before `begin`. */
  function Unstarted(bus: Bus): Relay {
    Relay(0, false, false, false, 0, false, bus)
  }

  /** The hardware is active-low: the latches hold the complement of the shadow. */
  function LatchA(shadow: bv16): bv8 {
    (!shadow & 0xFF) as bv8
  }

  function LatchB(shadow: bv16): bv8 {
    ((!shadow >> 8) & 0xFF) as bv8
  }

  function Write(r: Relay, reg: Register, value: bv8): Relay {
    if r.attached then r.(bus := BusWrite(r.bus, reg, value)) else r
  }

  function WriteLatches(r: Relay, a: bv8, b: bv8): Relay {
    Write(Write(r, OLATA, a), OLATB, b)
  }

  function WriteDirections(r: Relay): Relay {
    Write(Write(r, IODIRA, 0x00), IODIRB, 0x00)
  }

  /** Latches high, pins to outputs, then the shadow. */
  function Reassert(r: Relay): Relay {
    WriteLatches(WriteDirections(WriteLatches(r, 0xFF, 0xFF)), LatchA(r.shadow), LatchB(r.shadow))
  }

  function Expected(shadow: bv16): Regs {
    Regs(LatchA(shadow), LatchB(shadow), 0x00, 0x00)
  }

  /** Four reads that stop at the first one that fails; whether all succeeded and matched the shadow. */
  function ReadBack(r: Relay): (Relay, bool) {
    var (b1, ok1, v1) := BusRead(r.bus, OLATA);
    if !ok1 then (r.(bus := b1), false) else
    var (b2, ok2, v2) := BusRead(b1, OLATB);
    if !ok2 then (r.(bus := b2), false) else
    var (b3, ok3, v3) := BusRead(b2, IODIRA);
    if !ok3 then (r.(bus := b3), false) else
    var (b4, ok4, v4) := BusRead(b3, IODIRB);
    (r.(bus := b4), ok4 && Regs(v1, v2, v3, v4) == Expected(r.shadow))
  }

  function AfterVerify(r: Relay): (Relay, bool) {
    if !r.initialized || !r.attached then (r, true)
    else
      var (read, good) := ReadBack(r);
      if good then (read, true)
      else (ReadBack(Reassert(read).(fault := true)).0, false)
  }

  function AfterBegin(r: Relay, busReady: bool, deviceReady: bool): Relay {
    if !busReady || !deviceReady then r
    else
      var written := WriteDirections(WriteLatches(r.(attached := true), 0xFF, 0xFF));
      AfterVerify(written.(shadow := 0, initialized := true)).0
  }

  function WithChannel(shadow: bv16, channel: bv8, on: bool): bv16
    requires channel < RELAY_TOTAL_CHANNELS
  {
    var mask: bv16 := 1 << channel;
    if on then shadow | mask else shadow & !mask
  }

  function AfterSetRelay(r: Relay, channel: bv8, on: bool): Relay {
    if !r.initialized || channel >= RELAY_TOTAL_CHANNELS then r
    else
      var shadow := WithChannel(r.shadow, channel, on);
      AfterVerify(WriteLatches(r.(shadow := shadow), LatchA(shadow), LatchB(shadow))).0
  }

  function AfterAllOn(r: Relay): Relay {
    if !r.initialized then r
    else AfterVerify(WriteLatches(r.(shadow := ALL_CHANNELS), LatchA(ALL_CHANNELS), LatchB(ALL_CHANNELS))).0
  }

  function AfterAllOff(r: Relay): Relay {
    AfterVerify(WriteLatches(r.(shadow := 0), 0xFF, 0xFF)).0
  }

  function AfterVerifyIfDue(r: Relay, now: uint32): Relay {
    if !r.initialized then r
    else if !r.verifyStarted then r.(verifyStarted := true, lastVerifyMs := now)
    else if Sub32(now, r.lastVerifyMs) < VERIFY_PERIOD_MS then r
    else AfterVerify(r.(lastVerifyMs := now)).0
  }

  class Driver {
    var relayState: bv16
    var spiDev: bool
    var initialized: bool
    var actuatorFault: bool
    var lastVerifyMs: uint32
    var verifyStarted: bool
    /** The environment: the chip and its bus. */
    var bus: Bus

    ghost function View(): Relay
      reads this
    {
      Relay(relayState, spiDev, initialized, actuatorFault, lastVerifyMs, verifyStarted, bus)
    }

    constructor (bus: Bus)
      ensures View() == Unstarted(bus)
    {
      relayState, spiDev, initialized, actuatorFault := 0, false, false, false;
      lastVerifyMs, verifyStarted, this.bus := 0, false, bus;
    }

    method WriteRegister(reg: Register, value: bv8)
      modifies this`bus
      ensures View() == Write(old(View()), reg, value)
    {
      if !spiDev {
        return;
      }
      bus := BusWrite(bus, reg, value);
    }

    method ReadRegister(reg: Register) returns (ok: bool, value: bv8)
      modifies this`bus
      ensures !spiDev ==> !ok && bus == old(bus)
      ensures spiDev ==> (bus, ok, value) == BusRead(old(bus), reg)
    {
      if !spiDev {
        return false, 0;
      }
      bus, ok, value := BusRead(bus, reg).0, BusRead(bus, reg).1, BusRead(bus, reg).2;
    }

    method ReadAndCompare() returns (good: bool)
      requires spiDev
      modifies this`bus
      ensures (View(), good) == ReadBack(old(View()))
    {
      hide BusRead;
      var ok, a, b, da, db;
      ok, a := ReadRegister(OLATA);
      if !ok {
        return false;
      }
      ok, b := ReadRegister(OLATB);
      if !ok {
        return false;
      }
      ok, da := ReadRegister(IODIRA);
      if !ok {
        return false;
      }
      ok, db := ReadRegister(IODIRB);
      good := ok && a == LatchA(relayState) && b == LatchB(relayState) && da == 0x00 && db == 0x00;
    }

    /** The safe order: latches high before the pins become outputs. */
    method InitRegisters()
      modifies this`bus
      ensures View() == WriteDirections(WriteLatches(old(View()), 0xFF, 0xFF))
    {
      WriteRegister(OLATA, 0xFF);
      WriteRegister(OLATB, 0xFF);
      WriteRegister(IODIRA, 0x00);
      WriteRegister(IODIRB, 0x00);
    }

    method ReinitAndReassert()
      modifies this`bus
      ensures View() == Reassert(old(View()))
    {
      InitRegisters();
      WriteRegister(OLATA, LatchA(relayState));
      WriteRegister(OLATB, LatchB(relayState));
    }

    method VerifyOutputs() returns (good: bool)
      modifies this`bus, this`actuatorFault
      ensures (View(), good) == AfterVerify(old(View()))
    {
      if !initialized || !spiDev {
        return true;
      }
      good := ReadAndCompare();
      if good {
        return true;
      }
      ReinitAndReassert();
      actuatorFault := true;
      var _ := ReadAndCompare();
      return false;
    }

    method Begin(busReady: bool, deviceReady: bool) returns (ok: bool)
      modifies this
      ensures ok == (busReady && deviceReady) && View() == AfterBegin(old(View()), busReady, deviceReady)
    {
      hide AfterVerify, WriteLatches, WriteDirections;
      if !busReady {
        return false;
      }
      if !deviceReady {
        return false;
      }
      spiDev := true;
      InitRegisters();
      relayState := 0;
      initialized := true;
      var _ := VerifyOutputs();
      return true;
    }

    method SetRelay(channel: bv8, state: bool)
      modifies this
      ensures View() == AfterSetRelay(old(View()), channel, state)
    {
      if !initialized || channel >= RELAY_TOTAL_CHANNELS {
        return;
      }
      relayState := WithChannel(relayState, channel, state);
      WriteRegister(OLATA, LatchA(relayState));
      WriteRegister(OLATB, LatchB(relayState));
      var _ := VerifyOutputs();
    }

    method AllOn()
      modifies this
      ensures View() == AfterAllOn(old(View()))
    {
      if !initialized {
        return;
      }
      relayState := ALL_CHANNELS;
      WriteRegister(OLATA, LatchA(ALL_CHANNELS));
      WriteRegister(OLATB, LatchB(ALL_CHANNELS));
      var _ := VerifyOutputs();
    }

    method AllOff(silent: bool)
      modifies this
      ensures View() == AfterAllOff(old(View()))
    {
      relayState := 0;
      WriteRegister(OLATA, 0xFF);
      WriteRegister(OLATB, 0xFF);
      var _ := VerifyOutputs();
    }

    method VerifyIfDue(now: uint32)
      modifies this
      ensures View() == AfterVerifyIfDue(old(View()), now)
    {
      if !initialized {
        return;
      }
      if !verifyStarted {
        verifyStarted := true;
        lastVerifyMs := now;
        return;
      }
      if Sub32(now, lastVerifyMs) < VERIFY_PERIOD_MS {
        return;
      }
      lastVerifyMs := now;
      var _ := VerifyOutputs();
    }

    method ClearActuatorFault()
      modifies this`actuatorFault
      ensures View() == old(View()).(fault := false)
    {
      actuatorFault := false;
    }
  }

  // ---------------------------------------------------------------- what the driver guarantees

  predicate Working(b: Bus) {
    forall i :: 0 <= i < |b.failures| ==> !b.failures[i]
  }

  /** The registers are what the shadow asks for: latches its complement, all pins outputs. */
  predicate InSync(r: Relay) {
    r.bus.regs == Expected(r.shadow)
  }

  predicate Ready(r: Relay) {
    r.initialized && r.attached
  }

  /** Whether the k-th transaction from now fails. */
  predicate FailsAt(b: Bus, k: nat) {
    k < |b.failures| && b.failures[k]
  }

  /** The failure script after n transactions. */
  function Dropped(failures: seq<bool>, n: nat): seq<bool> {
    if n <= |failures| then failures[n..] else []
  }

  /** The number of reads of a read-back, which stops at the first one that fails. */
  function ReadsOf(b: Bus): nat {
    if FailsAt(b, 0) then 1 else if FailsAt(b, 1) then 2 else if FailsAt(b, 2) then 3 else 4
  }

  lemma ReadOutcome(b: Bus, reg: Register)
    ensures BusRead(b, reg)
            == (b.(failures := Dropped(b.failures, 1)), !FailsAt(b, 0), if FailsAt(b, 0) then 0 else Get(b.regs, reg))
    ensures forall k: nat :: FailsAt(BusRead(b, reg).0, k) == FailsAt(b, k + 1)
  {
  }

  lemma DroppedTwice(failures: seq<bool>, m: nat, n: nat)
    ensures Dropped(Dropped(failures, m), n) == Dropped(failures, m + n)
  {
  }

  /** A read-back changes nothing but the bus's future, and is good exactly when no read fails and the registers
      match. */
  lemma ReadBackOutcome(r: Relay)
    ensures var (read, good) := ReadBack(r);
            && read == r.(bus := r.bus.(failures := Dropped(r.bus.failures, ReadsOf(r.bus))))
            && (good <==>
                 InSync(r) && !FailsAt(r.bus, 0) && !FailsAt(r.bus, 1) && !FailsAt(r.bus, 2) && !FailsAt(r.bus, 3))
  {
    hide BusRead, FailsAt, Dropped, LatchA, LatchB;
    ReadOutcome(r.bus, OLATA);
    var b1 := BusRead(r.bus, OLATA).0;
    ReadOutcome(b1, OLATB);
    var b2 := BusRead(b1, OLATB).0;
    ReadOutcome(b2, IODIRA);
    var b3 := BusRead(b2, IODIRA).0;
    ReadOutcome(b3, IODIRB);
    DroppedTwice(r.bus.failures, 1, 1);
    DroppedTwice(r.bus.failures, 2, 1);
    DroppedTwice(r.bus.failures, 3, 1);
    assert FailsAt(b3, 0) == FailsAt(b2, 1) == FailsAt(b1, 2);
    assert FailsAt(b2, 0) == FailsAt(b1, 1);
  }

  lemma ReadBackOnWorkingBus(r: Relay)
    requires Working(r.bus)
    ensures var (read, good) := ReadBack(r);
            && read == r.(bus := read.bus) && read.bus.regs == r.bus.regs && Working(read.bus)
            && (good <==> InSync(r))
  {
    hide ReadBack;
    ReadBackOutcome(r);
  }

  lemma ReassertOnWorkingBus(r: Relay)
    requires Working(r.bus) && r.attached
    ensures var after := Reassert(r);
            after == r.(bus := after.bus) && InSync(after) && Working(after.bus)
  {
  }

  /** On a working bus a check leaves the registers equal to the shadow, and latches the fault exactly when they were
      not. */
  lemma VerifyRestoresSync(r: Relay)
    requires Working(r.bus) && Ready(r)
    ensures var (after, good) := AfterVerify(r);
            && InSync(after) && Working(after.bus)
            && (good <==> InSync(r))
            && after == r.(bus := after.bus, fault := r.fault || !InSync(r))
  {
    ReadBackOnWorkingBus(r);
    var read := ReadBack(r).0;
    if !InSync(r) {
      ReassertOnWorkingBus(read);
      ReadBackOnWorkingBus(Reassert(read).(fault := true));
    }
  }

  lemma ReassertKeeps(r: Relay)
    ensures Reassert(r) == r.(bus := Reassert(r).bus)
  {
  }

  /** On any bus, failing or not, a check ends with the fault latched or with registers that match the shadow. */
  lemma VerifyIsNeverSilent(r: Relay)
    requires Ready(r)
    ensures var (after, good) := AfterVerify(r);
            && after.shadow == r.shadow
            && (if good then InSync(after) else after.fault)
  {
    var (read, good) := ReadBack(r);
    ReadBackOutcome(r);
    ReassertKeeps(read);
    ReadBackOutcome(Reassert(read).(fault := true));
  }

  /** Commands on a working bus: whatever the registers held, they end equal to the commanded shadow. */
  lemma CommandsSetTheRegisters(r: Relay, channel: bv8, on: bool)
    requires Working(r.bus) && Ready(r)
    ensures InSync(AfterAllOn(r)) && AfterAllOn(r).shadow == ALL_CHANNELS
    ensures InSync(AfterAllOff(r)) && AfterAllOff(r).shadow == 0
    ensures channel < RELAY_TOTAL_CHANNELS ==>
              var after := AfterSetRelay(r, channel, on);
              InSync(after) && after.shadow == WithChannel(r.shadow, channel, on)
  {
    VerifyRestoresSync(WriteLatches(r.(shadow := ALL_CHANNELS), LatchA(ALL_CHANNELS), LatchB(ALL_CHANNELS)));
    VerifyRestoresSync(WriteLatches(r.(shadow := 0), 0xFF, 0xFF));
    if channel < RELAY_TOTAL_CHANNELS {
      var shadow := WithChannel(r.shadow, channel, on);
      VerifyRestoresSync(WriteLatches(r.(shadow := shadow), LatchA(shadow), LatchB(shadow)));
    }
  }

  /** `setRelay` changes its own channel and no other. */
  lemma ChannelsAreIndependent(shadow: bv16, channel: bv8, on: bool)
    requires channel < RELAY_TOTAL_CHANNELS
    ensures var mask: bv16 := 1 << channel;
            && WithChannel(shadow, channel, on) & mask == (if on then mask else 0)
            && WithChannel(shadow, channel, on) & !mask == shadow & !mask
  {
  }

  /** A driver checks exactly when it is initialised, was asked before, and 100 ms or more have passed on the
      wrapping clock since it last started counting; otherwise only the counting may start. */
  lemma ChecksEvery100Ms(r: Relay, now: uint32)
    ensures var due := r.initialized && r.verifyStarted && (now - r.lastVerifyMs) % 0x1_0000_0000 >= 100;
            AfterVerifyIfDue(r, now) ==
            if due then AfterVerify(r.(lastVerifyMs := now)).0
            else if r.initialized && !r.verifyStarted then r.(verifyStarted := true, lastVerifyMs := now)
            else r
  {
    hide AfterVerify;
    assert Sub32(now, r.lastVerifyMs) == (now - r.lastVerifyMs) % 0x1_0000_0000;
  }

  /** Bring-up fails without touching the chip when the bus or the device is missing; before `begin` nothing but
      `allOff` changes the driver, and a check finds no fault. */
  lemma UnstartedDoesNothing(r: Relay, busReady: bool, deviceReady: bool, channel: bv8, on: bool, now: uint32)
    ensures !busReady || !deviceReady ==> AfterBegin(r, busReady, deviceReady) == r
    ensures !r.initialized ==>
              AfterAllOn(r) == r && AfterSetRelay(r, channel, on) == r && AfterVerifyIfDue(r, now) == r
    ensures !r.initialized && !r.attached ==> AfterAllOff(r) == r.(shadow := 0)
    ensures !r.initialized || !r.attached ==> AfterVerify(r) == (r, true)
    ensures channel >= 10 ==> AfterSetRelay(r, channel, on) == r
  {
  }

  // ---------------------------------------------------------------- what is energised on the way

  /** A relay is energised when its pin is an output and its latch is low. */
  function EnergizedA(r: Regs): bv8 {
    !r.olatA & !r.iodirA
  }

  function EnergizedB(r: Regs): bv8 {
    !r.olatB & !r.iodirB
  }

  /** Whether a channel's relay is energised: channels 0..7 are on port A, 8 and 9 on port B. */
  predicate Energized(r: Regs, channel: bv8)
    requires channel < RELAY_TOTAL_CHANNELS
  {
    if channel < 8 then
      var pin: bv8 := 1 << channel;
      EnergizedA(r) & pin != 0
    else
      var pin: bv8 := 1 << (channel - 8);
      EnergizedB(r) & pin != 0
  }

  /** The shadow's bit for a channel. */
  predicate Commanded(shadow: bv16, channel: bv8)
    requires channel < RELAY_TOTAL_CHANNELS
  {
    var mask: bv16 := 1 << channel;
    shadow & mask != 0
  }

  /** Registers that match the shadow energise exactly the relays whose bits it has. */
  lemma SyncEnergizesShadow(r: Relay, channel: bv8)
    requires InSync(r) && channel < RELAY_TOTAL_CHANNELS
    ensures Energized(r.bus.regs, channel) <==> Commanded(r.shadow, channel)
  {
  }

  lemma CommandedBits(shadow: bv16, channel: bv8, on: bool, other: bv8)
    requires channel < RELAY_TOTAL_CHANNELS && other < RELAY_TOTAL_CHANNELS
    ensures Commanded(ALL_CHANNELS, other) && !Commanded(0, other)
    ensures Commanded(WithChannel(shadow, channel, on), other)
        <==> if other == channel then on else Commanded(shadow, other)
  {
  }

  /** On a working bus, whatever the registers held: `allOn` energises every relay, `allOff` none, and `setRelay` its
      own as asked and every other as commanded before. */
  lemma CommandsEnergize(r: Relay, channel: bv8, on: bool, other: bv8)
    requires Working(r.bus) && Ready(r) && channel < RELAY_TOTAL_CHANNELS && other < RELAY_TOTAL_CHANNELS
    ensures Energized(AfterAllOn(r).bus.regs, other)
    ensures !Energized(AfterAllOff(r).bus.regs, other)
    ensures Energized(AfterSetRelay(r, channel, on).bus.regs, other) <==>
            if other == channel then on else Commanded(r.shadow, other)
  {
    hide Energized, Commanded, WithChannel, AfterVerify, Expected;
    CommandsSetTheRegisters(r, channel, on);
    CommandedBits(r.shadow, channel, on, other);
    SyncEnergizesShadow(AfterAllOn(r), other);
    SyncEnergizesShadow(AfterAllOff(r), other);
    SyncEnergizesShadow(AfterSetRelay(r, channel, on), other);
  }

  predicate Within(r: Regs, a: bv8, b: bv8) {
    EnergizedA(r) & !a == 0 && EnergizedB(r) & !b == 0
  }

  /** The register states after each write between two points of a run. */
  function Written(before: Relay, after: Relay): seq<Regs> {
    if |before.bus.trace| <= |after.bus.trace| then after.bus.trace[|before.bus.trace|..] else []
  }

  /** The registers after each of the six writes of a re-assertion, given which of them fail. */
  function ReassertStates(r: Regs, shadow: bv16, fails: seq<bool>): (states: seq<Regs>)
    requires |fails| == 6
    ensures |states| == 6
  {
    var init := InitStates(r, fails[..4]);
    var r4 := if fails[4] then init[3] else init[3].(olatA := LatchA(shadow));
    var r5 := if fails[5] then r4 else r4.(olatB := LatchB(shadow));
    init + [r4, r5]
  }

  /** The registers after each of the four initialising writes, given which of them fail. */
  function InitStates(r: Regs, fails: seq<bool>): (states: seq<Regs>)
    requires |fails| == 4
    ensures |states| == 4
  {
    var r0 := if fails[0] then r else r.(olatA := 0xFF);
    var r1 := if fails[1] then r0 else r0.(olatB := 0xFF);
    var r2 := if fails[2] then r1 else r1.(iodirA := 0x00);
    var r3 := if fails[3] then r2 else r2.(iodirB := 0x00);
    [r0, r1, r2, r3]
  }

  /** The outcomes of the next n transactions. */
  function Outcomes(b: Bus, n: nat): (fails: seq<bool>)
    ensures |fails| == n && forall k :: 0 <= k < n ==> fails[k] == FailsAt(b, k)
  {
    if n == 0 then [] else Outcomes(b, n - 1) + [FailsAt(b, n - 1)]
  }

  lemma WriteTraced(r: Relay, reg: Register, value: bv8)
    requires r.attached
    ensures var regs := if FailsAt(r.bus, 0) then r.bus.regs else Set(r.bus.regs, reg, value);
            Write(r, reg, value) == r.(bus := Bus(regs, Dropped(r.bus.failures, 1), r.bus.trace + [regs]))
  {
  }

  lemma InitTrace(r: Relay)
    requires r.attached
    ensures var states := InitStates(r.bus.regs, Outcomes(r.bus, 4));
            WriteDirections(WriteLatches(r, 0xFF, 0xFF))
            == r.(bus := Bus(states[3], Dropped(r.bus.failures, 4), r.bus.trace + states))
  {
    hide Write;
    var r1 := Write(r, OLATA, 0xFF);
    var r2 := Write(r1, OLATB, 0xFF);
    var r3 := Write(r2, IODIRA, 0x00);
    WriteTraced(r, OLATA, 0xFF);
    WriteTraced(r1, OLATB, 0xFF);
    WriteTraced(r2, IODIRA, 0x00);
    WriteTraced(r3, IODIRB, 0x00);
  }

  lemma ReassertTrace(r: Relay)
    requires r.attached
    ensures var states := ReassertStates(r.bus.regs, r.shadow, Outcomes(r.bus, 6));
            Reassert(r) == r.(bus := Bus(states[5], Dropped(r.bus.failures, 6), r.bus.trace + states))
  {
    hide Write, InitStates, LatchA, LatchB;
    var init := WriteDirections(WriteLatches(r, 0xFF, 0xFF));
    InitTrace(r);
    assert Outcomes(r.bus, 6)[..4] == Outcomes(r.bus, 4);
    WriteTraced(init, OLATA, LatchA(r.shadow));
    WriteTraced(Write(init, OLATA, LatchA(r.shadow)), OLATB, LatchB(r.shadow));
  }

  /** Whether some of the states energises a relay. */
  ghost predicate Fires(states: seq<Regs>) {
    exists i :: 0 <= i < |states| && !Within(states[i], 0, 0)
  }

  lemma ReassertStatesWithin(r: Regs, shadow: bv16)
    ensures forall s :: s in ReassertStates(r, shadow, [false, false, false, false, false, false]) ==>
              Within(s, EnergizedA(r) | !LatchA(shadow), EnergizedB(r) | !LatchB(shadow))
  {
  }

  /** Re-asserting on a working bus never energises a relay that was off before and is off in the shadow, at any of
      its six writes. */
  lemma ReassertEnergizesNothingNew(r: Relay)
    requires Working(r.bus) && r.attached
    ensures |Written(r, Reassert(r))| == 6
    ensures forall s :: s in Written(r, Reassert(r)) ==>
              Within(s, EnergizedA(r.bus.regs) | !LatchA(r.shadow), EnergizedB(r.bus.regs) | !LatchB(r.shadow))
  {
    hide Reassert, ReassertStates, Within, LatchA, LatchB, EnergizedA, EnergizedB;
    ReassertTrace(r);
    assert Outcomes(r.bus, 6) == [false, false, false, false, false, false];
    ReassertStatesWithin(r.bus.regs, r.shadow);
  }

  /** The position of the repair's first write in the transactions of `begin`: after four writes and the read-back. */
  function RepairStart(b: Bus): nat {
    if FailsAt(b, 4) then 5 else if FailsAt(b, 5) then 6 else if FailsAt(b, 6) then 7 else 8
  }

  /** Port 0 is A and port 1 is B. The latch write of the port fails, and so does what would make up for it: its
      direction write succeeds, or the repair's latch write fails again and the repair's direction write succeeds. */
  predicate PortFires(b: Bus, port: nat)
    requires port < 2
  {
    && FailsAt(b, port)
    && (|| !FailsAt(b, 2 + port)
        || (FailsAt(b, RepairStart(b) + port) && !FailsAt(b, RepairStart(b) + 2 + port)))
  }

  /** Each register holds all zeros or all ones. */
  predicate Plain(r: Regs) {
    && (r.olatA == 0 || r.olatA == 0xFF) && (r.olatB == 0 || r.olatB == 0xFF)
    && (r.iodirA == 0 || r.iodirA == 0xFF) && (r.iodirB == 0 || r.iodirB == 0xFF)
  }

  predicate Firing(r: Regs) {
    (r.olatA == 0 && r.iodirA == 0) || (r.olatB == 0 && r.iodirB == 0)
  }

  lemma PlainFires(r: Regs)
    requires Plain(r)
    ensures Within(r, 0, 0) <==> !Firing(r)
  {
  }

  lemma PlainStatesFire(states: seq<Regs>)
    requires forall i :: 0 <= i < |states| ==> Plain(states[i])
    ensures Fires(states) <==> exists i :: 0 <= i < |states| && Firing(states[i])
  {
    hide Within, Plain, Firing;
    forall i | 0 <= i < |states|
      ensures Within(states[i], 0, 0) <==> !Firing(states[i])
    {
      PlainFires(states[i]);
    }
  }

  lemma InitFiresIff(f: seq<bool>)
    requires |f| == 4
    ensures Fires(InitStates(POWER_ON, f)) <==> (f[0] && !f[2]) || (f[1] && !f[3])
    ensures InitStates(POWER_ON, f)[3]
            == Regs(if f[0] then 0 else 0xFF, if f[1] then 0 else 0xFF,
                    if f[2] then 0xFF else 0, if f[3] then 0xFF else 0)
  {
    hide Fires, Within;
    var states := InitStates(POWER_ON, f);
    PlainStatesFire(states);
    assert Firing(states[3]) <==> (f[0] && !f[2]) || (f[1] && !f[3]);
  }

  lemma RepairFiresIff(r: Regs, g: seq<bool>)
    requires |g| == 6 && Plain(r) && !Firing(r)
    ensures Fires(ReassertStates(r, 0, g)) <==> (r.olatA == 0 && g[0] && !g[2]) || (r.olatB == 0 && g[1] && !g[3])
  {
    hide Fires, Within;
    var states := ReassertStates(r, 0, g);
    PlainStatesFire(states);
    assert Firing(states[3]) <==> (r.olatA == 0 && g[0] && !g[2]) || (r.olatB == 0 && g[1] && !g[3]);
  }

  lemma FiresConcat(a: seq<Regs>, b: seq<Regs>)
    ensures Fires(a + b) <==> Fires(a) || Fires(b)
  {
    if i :| 0 <= i < |a| && !Within(a[i], 0, 0) {
      assert (a + b)[i] == a[i];
    }
    if i :| 0 <= i < |b| && !Within(b[i], 0, 0) {
      assert (a + b)[|a| + i] == b[i];
    }
  }

  /** What `begin` writes: the four initialising writes and, unless the read-back finds them all, the six of the
      repair. */
  lemma BeginTrace(r: Relay)
    requires r.bus.regs == POWER_ON
    ensures var init := InitStates(POWER_ON, Outcomes(r.bus, 4));
            var at := Dropped(r.bus.failures, RepairStart(r.bus));
            var good := init[3] == Expected(0) && !FailsAt(r.bus, 4) && !FailsAt(r.bus, 5) && !FailsAt(r.bus, 6)
                && !FailsAt(r.bus, 7);
            Written(r, AfterBegin(r, true, true))
            == init + (if good then [] else ReassertStates(init[3], 0, Outcomes(Bus(init[3], at, []), 6)))
  {
    hide InitStates, ReassertStates, Reassert, ReadBack, Expected, WriteLatches, WriteDirections;
    var start := r.(attached := true);
    InitTrace(start);
    var written := WriteDirections(WriteLatches(start, 0xFF, 0xFF)).(shadow := 0, initialized := true);
    ReadBackOutcome(written);
    var read := ReadBack(written).0;
    ReassertTrace(read.(fault := true));
    ReadBackOutcome(Reassert(read.(fault := true)));
    ReadBackOutcome(Reassert(read).(fault := true));
    ReassertTrace(read);
    SameOutcomes(read.bus, Bus(read.bus.regs, Dropped(r.bus.failures, RepairStart(r.bus)), []), 6);
  }

  lemma SameOutcomes(a: Bus, b: Bus, n: nat)
    requires a.failures == b.failures
    ensures Outcomes(a, n) == Outcomes(b, n)
  {
  }

  /** From power-on and on any bus, `begin` energises some relay after some of its writes exactly when a port
      fires. */
  lemma BeginEnergizesIff(r: Relay)
    requires r.bus.regs == POWER_ON
    ensures Fires(Written(r, AfterBegin(r, true, true))) <==> PortFires(r.bus, 0) || PortFires(r.bus, 1)
  {
    hide InitStates, ReassertStates, AfterBegin, Fires, Within, Dropped, Expected;
    BeginTrace(r);
    var f := Outcomes(r.bus, 4);
    var init := InitStates(POWER_ON, f);
    var at := Bus(init[3], Dropped(r.bus.failures, RepairStart(r.bus)), []);
    InitFiresIff(f);
    ExpectedOff();
    FiresConcat(init, []);
    FiresConcat(init, ReassertStates(init[3], 0, Outcomes(at, 6)));
    NothingFires();
    RepairOutcomes(r.bus, at);
    if !Firing(init[3]) {
      RepairFiresIff(init[3], Outcomes(at, 6));
    }
  }

  /** One failing latch write is enough; so is one that fails again in the repair after its direction write failed
      too. */
  lemma BeginMayEnergize()
    ensures var r := Unstarted(Bus(POWER_ON, [true], [])); Fires(Written(r, AfterBegin(r, true, true)))
    ensures var r := Unstarted(Bus(POWER_ON, [true, false, true, false, false, false, false, false, true], []));
            Fires(Written(r, AfterBegin(r, true, true)))
  {
    hide AfterBegin, Written, Fires;
    BeginEnergizesIff(Unstarted(Bus(POWER_ON, [true], [])));
    BeginEnergizesIff(Unstarted(Bus(POWER_ON, [true, false, true, false, false, false, false, false, true], [])));
  }

  lemma NothingFires()
    ensures !Fires([])
  {
  }

  lemma RepairOutcomes(b: Bus, at: Bus)
    requires at.failures == Dropped(b.failures, RepairStart(b))
    ensures forall k :: 0 <= k < 6 ==> FailsAt(at, k) == FailsAt(b, RepairStart(b) + k)
  {
  }

  /** On a working bus, initialisation from power-on energises nothing and ends in sync with an empty shadow. */
  lemma BeginIsSafe(r: Relay)
    requires Working(r.bus) && r.bus.regs == POWER_ON
    ensures var after := AfterBegin(r, true, true);
            && InSync(after) && after.shadow == 0 && Ready(after) && after.fault == r.fault
            && !Fires(Written(r, after))
  {
    hide InitStates, Fires, Within, WriteLatches, WriteDirections, AfterVerify, Written, Expected;
    BeginEnergizesIff(r);
    var start := r.(attached := true);
    InitTrace(start);
    InitFiresIff(Outcomes(start.bus, 4));
    InitKeepsWorking(start);
    var written := WriteDirections(WriteLatches(start, 0xFF, 0xFF)).(shadow := 0, initialized := true);
    ExpectedOff();
    VerifyRestoresSync(written);
  }

  lemma ExpectedOff()
    ensures Expected(0) == Regs(0xFF, 0xFF, 0x00, 0x00)
  {
  }

  lemma InitKeepsWorking(r: Relay)
    requires Working(r.bus) && r.attached
    ensures Working(WriteDirections(WriteLatches(r, 0xFF, 0xFF)).bus)
  {
  }

  // ---------------------------------------------------------------- opening on a failing bus

  /** The position of the repair's first write in the transactions of `allOff`: after two writes and the read-back. */
  function OffRepairStart(b: Bus): nat {
    if FailsAt(b, 2) then 3 else if FailsAt(b, 3) then 4 else if FailsAt(b, 4) then 5 else 6
  }

  /** The registers that `allOff` leaves: those after its two latch writes or, when the read-back is bad, after the
      repair. */
  lemma AllOffRegs(r: Relay)
    requires Ready(r)
    ensures var written := r.bus.regs.(olatA := if FailsAt(r.bus, 0) then r.bus.regs.olatA else 0xFF,
                                       olatB := if FailsAt(r.bus, 1) then r.bus.regs.olatB else 0xFF);
            var at := Bus(written, Dropped(r.bus.failures, OffRepairStart(r.bus)), []);
            || (AfterAllOff(r).bus.regs == written && written == Expected(0))
            || AfterAllOff(r).bus.regs == ReassertStates(written, 0, Outcomes(at, 6))[5]
  {
    hide Write, ReassertStates, Reassert, ReadBack, Expected;
    var off := r.(shadow := 0);
    WriteTraced(off, OLATA, 0xFF);
    WriteTraced(Write(off, OLATA, 0xFF), OLATB, 0xFF);
    var written := WriteLatches(off, 0xFF, 0xFF);
    ReadBackOutcome(written);
    var read := ReadBack(written).0;
    ReassertTrace(read);
    ReadBackOutcome(Reassert(read).(fault := true));
    SameOutcomes(read.bus, Bus(read.bus.regs, Dropped(r.bus.failures, OffRepairStart(r.bus)), []), 6);
  }

  /** Whether all three writes of the port's latch fail: the command's, and the repair's first and last. */
  predicate LatchNeverWritten(b: Bus, port: nat)
    requires port < 2
  {
    FailsAt(b, port) && FailsAt(b, OffRepairStart(b) + port) && FailsAt(b, OffRepairStart(b) + 4 + port)
  }

  lemma InitLast(r: Regs, f: seq<bool>)
    requires |f| == 4
    ensures InitStates(r, f)[3] == Regs(if f[0] then r.olatA else 0xFF, if f[1] then r.olatB else 0xFF,
                                        if f[2] then r.iodirA else 0x00, if f[3] then r.iodirB else 0x00)
  {
  }

  lemma LatchedOff(r: Regs, g: seq<bool>)
    requires |g| == 6
    ensures ReassertStates(r, 0, g)[5]
            == Regs(if g[0] && g[4] then r.olatA else 0xFF, if g[1] && g[5] then r.olatB else 0xFF,
                    if g[2] then r.iodirA else 0x00, if g[3] then r.iodirB else 0x00)
  {
    hide LatchA, LatchB, InitStates;
    LatchesOff();
    InitLast(r, g[..4]);
  }

  lemma LatchesOff()
    ensures LatchA(0) == 0xFF && LatchB(0) == 0xFF
  {
  }

  lemma OffOutcomes(b: Bus, at: Bus)
    requires at.failures == Dropped(b.failures, OffRepairStart(b))
    ensures forall k :: 0 <= k < 6 ==> FailsAt(at, k) == FailsAt(b, OffRepairStart(b) + k)
  {
  }

  lemma NothingEnergized(r: Regs)
    ensures r.olatA == 0xFF ==> EnergizedA(r) == 0
    ensures r.olatB == 0xFF ==> EnergizedB(r) == 0
  {
  }

  lemma EnergizedByPort(r: Regs, s: Regs)
    ensures r.olatA == s.olatA && r.iodirA == s.iodirA ==> EnergizedA(r) == EnergizedA(s)
    ensures r.olatB == s.olatB && r.iodirB == s.iodirB ==> EnergizedB(r) == EnergizedB(s)
  {
  }

  /** On any bus, the registers that `allOff` leaves. */
  lemma AllOffLeaves(r: Relay)
    requires Ready(r)
    ensures var regs, start := r.bus.regs, OffRepairStart(r.bus);
            AfterAllOff(r).bus.regs == Regs(if LatchNeverWritten(r.bus, 0) then regs.olatA else 0xFF,
                                            if LatchNeverWritten(r.bus, 1) then regs.olatB else 0xFF,
                                            if FailsAt(r.bus, start + 2) then regs.iodirA else 0x00,
                                            if FailsAt(r.bus, start + 3) then regs.iodirB else 0x00)
  {
    hide AfterAllOff, ReassertStates, Expected, OffRepairStart, Dropped, FailsAt;
    AllOffRegs(r);
    ExpectedOff();
    var regs, start := r.bus.regs, OffRepairStart(r.bus);
    var written := regs.(olatA := if FailsAt(r.bus, 0) then regs.olatA else 0xFF,
                         olatB := if FailsAt(r.bus, 1) then regs.olatB else 0xFF);
    var at := Bus(written, Dropped(r.bus.failures, start), []);
    OffOutcomes(r.bus, at);
    LatchedOff(written, Outcomes(at, 6));
  }

  /** On any bus: `allOff` opens the relays of a port unless all three writes of its latch fail, and then leaves
      energised exactly those whose latch was low, as far as their pins are outputs afterwards. */
  lemma AllOffLeavesEnergized(r: Relay)
    requires Ready(r)
    ensures var regs, after, start := r.bus.regs, AfterAllOff(r).bus.regs, OffRepairStart(r.bus);
            var dirA := if FailsAt(r.bus, start + 2) then regs.iodirA else 0;
            var dirB := if FailsAt(r.bus, start + 3) then regs.iodirB else 0;
            && EnergizedA(after) == (if LatchNeverWritten(r.bus, 0) then EnergizedA(regs.(iodirA := dirA)) else 0)
            && EnergizedB(after) == (if LatchNeverWritten(r.bus, 1) then EnergizedB(regs.(iodirB := dirB)) else 0)
  {
    hide AfterAllOff, OffRepairStart, FailsAt, LatchNeverWritten, EnergizedA, EnergizedB;
    AllOffLeaves(r);
    var regs, after := r.bus.regs, AfterAllOff(r).bus.regs;
    NothingEnergized(after);
    EnergizedByPort(after, regs.(iodirA := after.iodirA));
    EnergizedByPort(after, regs.(iodirB := after.iodirB));
  }

  /** With all pins outputs, a relay stays energised exactly when it was and its latch is never written. */
  lemma AllOffFailsIff(r: Relay)
    requires Ready(r) && r.bus.regs.iodirA == 0 && r.bus.regs.iodirB == 0
    ensures EnergizedA(AfterAllOff(r).bus.regs) == if LatchNeverWritten(r.bus, 0) then EnergizedA(r.bus.regs) else 0
    ensures EnergizedB(AfterAllOff(r).bus.regs) == if LatchNeverWritten(r.bus, 1) then EnergizedB(r.bus.regs) else 0
  {
    hide AfterAllOff, LatchNeverWritten, EnergizedA, EnergizedB;
    AllOffLeavesEnergized(r);
    assert r.bus.regs.(iodirA := 0) == r.bus.regs == r.bus.regs.(iodirB := 0);
  }
}
