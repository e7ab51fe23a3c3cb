/** CAN state as a function of the whole frame history, for every split of the frames into drains. */
module CanHistory {
  import opened Words
  import opened Wrappers
  import opened VehicleData
  import opened CanManager

  /** A run of the CAN task, flattened: frames handled and validity updates, in order. */
  datatype Event = Handled(frame: Frame, tick: uint32) | Updated(now: uint32)

  function AfterEvent(c: Can, t: Timeouts, e: Event): Can {
    match e
    case Handled(frame, tick) => AfterFrame(c, frame, tick).0
    case Updated(now) => AfterUpdates(c, t, now)
  }

  function Apply(t: Timeouts, events: seq<Event>): Can {
    if events == [] then START else AfterEvent(Apply(t, events[..|events| - 1]), t, events[|events| - 1])
  }

  lemma ApplyMore(t: Timeouts, events: seq<Event>, e: Event)
    ensures Apply(t, events + [e]) == AfterEvent(Apply(t, events), t, e)
  {
    assert (events + [e])[..|events|] == events;
  }

  function EventsOf(rx: seq<Rx>, n: nat): (events: seq<Event>)
    requires n <= |rx| && forall i :: 0 <= i < n ==> rx[i].Received?
  {
    if n == 0 then [] else EventsOf(rx, n - 1) + [Handled(rx[n - 1].frame, rx[n - 1].tick)]
  }

  lemma {:induction false} FramesAreEvents(t: Timeouts, events: seq<Event>, rx: seq<Rx>, n: nat)
    requires n <= |rx| && forall i :: 0 <= i < n ==> rx[i].Received?
    ensures AfterFrames(Apply(t, events), rx, n).0 == Apply(t, events + EventsOf(rx, n))
  {
    if n == 0 {
      assert events + [] == events;
    } else {
      FramesAreEvents(t, events, rx, n - 1);
      var last := Handled(rx[n - 1].frame, rx[n - 1].tick);
      ApplyMore(t, events + EventsOf(rx, n - 1), last);
      assert events + EventsOf(rx, n) == events + EventsOf(rx, n - 1) + [last];
    }
  }

  /** One drain is its frames followed by one update, so any split of the frames into drains is one list of events. */
  lemma DrainIsEvents(t: Timeouts, events: seq<Event>, rx: seq<Rx>, now: uint32)
    ensures AfterDrain(Apply(t, events), t, rx, now).0 == Apply(t, events + EventsOf(rx, Taken(rx, 0)) + [Updated(now)])
  {
    FramesAreEvents(t, events, rx, Taken(rx, 0));
    ApplyMore(t, events + EventsOf(rx, Taken(rx, 0)), Updated(now));
  }

  // ---------------------------------------------------------------- cell voltages

  predicate Carries(e: Event, g: nat) {
    e.Handled? && !e.frame.rtr && e.frame.extd && e.frame.dlc >= 8 && GroupOfId(e.frame.id) == g
  }

  predicate IsCellEvent(e: Event) {
    e.Handled? && GroupOfId(e.frame.id) < GROUPS && Carries(e, GroupOfId(e.frame.id))
  }

  /** The latest accepted payload of a group. */
  function Latest(events: seq<Event>, g: nat): Option<Payload> {
    if events == [] then None
    else
      var last := events[|events| - 1];
      if Carries(last, g) then Some(last.frame.data) else Latest(events[..|events| - 1], g)
  }

  /** The tick of the latest accepted cell frame. */
  function LatestTick(events: seq<Event>): Option<uint32> {
    if events == [] then None
    else
      var last := events[|events| - 1];
      if IsCellEvent(last) then Some(last.tick) else LatestTick(events[..|events| - 1])
  }

  /** Cell data goes stale on an update that finds the latest cell frame too old. */
  predicate Stale(t: Timeouts, events: seq<Event>, now: uint32) {
    LatestTick(events).Some? && Sub32(now, LatestTick(events).value) >= t.cell
  }

  const EVERY_GROUP: set<nat> := {0, 1, 2, 3, 4, 5}

  /** The groups accepted since the last invalidation; only complete data can be invalidated. */
  function Since(t: Timeouts, events: seq<Event>): (groups: set<nat>)
    ensures groups <= EVERY_GROUP
  {
    if events == [] then {}
    else
      var earlier := Since(t, events[..|events| - 1]);
      var last := events[|events| - 1];
      if last.Updated? then
        if earlier == EVERY_GROUP && Stale(t, events[..|events| - 1], last.now) then {} else earlier
      else if IsCellEvent(last) then earlier + {GroupOfId(last.frame.id)}
      else earlier
  }

  function BitIf(groups: set<nat>, g: nat): bv8
    requires g < GROUPS
  {
    if g in groups then GroupBit(g) else 0
  }

  function MaskOf(groups: set<nat>): bv8 {
    BitIf(groups, 0) | BitIf(groups, 1) | BitIf(groups, 2) | BitIf(groups, 3) | BitIf(groups, 4) | BitIf(groups, 5)
  }

  lemma MaskOfMore(groups: set<nat>, g: nat)
    requires g < GROUPS
    ensures MaskOf(groups + {g}) == MaskOf(groups) | GroupBit(g)
  {
    forall h | 0 <= h < GROUPS && h != g
      ensures BitIf(groups + {g}, h) == BitIf(groups, h)
    {
    }
    OrOnce(BitIf(groups, 0), BitIf(groups, 1), BitIf(groups, 2), BitIf(groups, 3), BitIf(groups, 4),
           BitIf(groups, 5), g);
  }

  lemma OrOnce(b0: bv8, b1: bv8, b2: bv8, b3: bv8, b4: bv8, b5: bv8, g: nat)
    requires g < GROUPS
    requires (if g == 0 then b0 else if g == 1 then b1 else if g == 2 then b2
              else if g == 3 then b3 else if g == 4 then b4 else b5) & !GroupBit(g) == 0
    ensures (if g == 0 then GroupBit(0) else b0) | (if g == 1 then GroupBit(1) else b1)
            | (if g == 2 then GroupBit(2) else b2) | (if g == 3 then GroupBit(3) else b3)
            | (if g == 4 then GroupBit(4) else b4) | (if g == 5 then GroupBit(5) else b5)
            == (b0 | b1 | b2 | b3 | b4 | b5) | GroupBit(g)
  {
  }

  lemma MaskIsFull(groups: set<nat>)
    requires groups <= EVERY_GROUP
    ensures MaskOf(groups) == ALL_GROUPS <==> groups == EVERY_GROUP
    ensures MaskOf({}) == 0
  {
    assert groups == EVERY_GROUP <==>
           0 in groups && 1 in groups && 2 in groups && 3 in groups && 4 in groups && 5 in groups;
  }

  /** Whether the cells hold the tenths of a payload at a group's place. */
  predicate Holds(cells: Cells, g: nat, p: Payload)
    requires g < GROUPS
  {
    && cells[4 * g] == Word(p, 0) / 10 && cells[4 * g + 1] == Word(p, 2) / 10
    && cells[4 * g + 2] == Word(p, 4) / 10 && cells[4 * g + 3] == Word(p, 6) / 10
  }

  predicate HoldsZeros(cells: Cells, g: nat)
    requires g < GROUPS
  {
    cells[4 * g] == cells[4 * g + 1] == cells[4 * g + 2] == cells[4 * g + 3] == 0
  }

  ghost predicate CellsMatchHistory(t: Timeouts, events: seq<Event>, c: CellData) {
    && c.mask == MaskOf(Since(t, events))
    && (c.valid <==> Since(t, events) == EVERY_GROUP)
    && c.complete == c.valid
    && c.seen == LatestTick(events).Some?
    && (c.seen ==> c.lastTick == LatestTick(events).value)
    && (forall g :: 0 <= g < GROUPS && Latest(events, g).Some? ==> Holds(c.voltages, g, Latest(events, g).value))
    && (forall g :: 0 <= g < GROUPS && Latest(events, g).None? ==> HoldsZeros(c.voltages, g))
    && (forall g :: g in Since(t, events) ==> Latest(events, g).Some?)
  }

  lemma StoredGroupHolds(cells: Cells, g: nat, p: Payload, h: nat, q: Payload)
    requires g < GROUPS && h < GROUPS
    ensures Holds(StoreGroup(cells, g, p), g, p)
    ensures h != g && Holds(cells, h, q) ==> Holds(StoreGroup(cells, g, p), h, q)
    ensures h != g && HoldsZeros(cells, h) ==> HoldsZeros(StoreGroup(cells, g, p), h)
  {
  }

  lemma CellEventMore(t: Timeouts, events: seq<Event>, e: Event, h: nat)
    requires IsCellEvent(e)
    ensures Since(t, events + [e]) == Since(t, events) + {GroupOfId(e.frame.id)}
    ensures LatestTick(events + [e]) == Some(e.tick)
    ensures Latest(events + [e], h) == if h == GroupOfId(e.frame.id) then Some(e.frame.data) else Latest(events, h)
  {
    assert (events + [e])[..|events|] == events;
  }

  lemma StoredGroupMatches(events: seq<Event>, c: Cells, g: nat, p: Payload)
    requires g < GROUPS
    requires forall h :: 0 <= h < GROUPS && Latest(events, h).Some? ==> Holds(c, h, Latest(events, h).value)
    requires forall h :: 0 <= h < GROUPS && Latest(events, h).None? ==> HoldsZeros(c, h)
    ensures forall h :: 0 <= h < GROUPS && h != g && Latest(events, h).None? ==> HoldsZeros(StoreGroup(c, g, p), h)
    ensures Holds(StoreGroup(c, g, p), g, p)
    ensures forall h :: 0 <= h < GROUPS && h != g && Latest(events, h).Some? ==>
              Holds(StoreGroup(c, g, p), h, Latest(events, h).value)
  {
    hide StoreGroup, Holds, HoldsZeros, Latest;
    StoredGroupHolds(c, g, p, g, p);
    forall h | 0 <= h < GROUPS && h != g && Latest(events, h).None?
      ensures HoldsZeros(StoreGroup(c, g, p), h)
    {
      StoredGroupHolds(c, g, p, h, p);
    }
    forall h | 0 <= h < GROUPS && h != g && Latest(events, h).Some?
      ensures Holds(StoreGroup(c, g, p), h, Latest(events, h).value)
    {
      StoredGroupHolds(c, g, p, h, Latest(events, h).value);
    }
  }

  lemma CellFrameMatches(t: Timeouts, events: seq<Event>, c: CellData, e: Event)
    requires CellsMatchHistory(t, events, c) && IsCellEvent(e)
    ensures CellsMatchHistory(t, events + [e], AfterCellFrame(c, GroupOfId(e.frame.id), e.frame.data, e.tick))
  {
    hide StoreGroup, Holds, HoldsZeros, Latest, LatestTick, Since, MaskOf, GroupBit, GroupOfId, Carries;
    var g, all := GroupOfId(e.frame.id), events + [e];
    CellEventMore(t, events, e, g);
    MaskOfMore(Since(t, events), g);
    MaskIsFull(Since(t, all));
    StoredGroupMatches(events, c.voltages, g, e.frame.data);
    forall h | 0 <= h
      ensures Latest(all, h) == if h == g then Some(e.frame.data) else Latest(events, h)
    {
      CellEventMore(t, events, e, h);
    }
  }

  lemma OtherEventMatches(t: Timeouts, events: seq<Event>, c: CellData, e: Event)
    requires CellsMatchHistory(t, events, c) && !IsCellEvent(e)
    ensures CellsMatchHistory(t, events + [e], if e.Updated? then AfterCellUpdate(c, t, e.now) else c)
  {
    var all := events + [e];
    assert all[..|events|] == events;
    MaskIsFull(Since(t, events));
    assert LatestTick(all) == LatestTick(events);
    forall h | 0 <= h < GROUPS
      ensures Latest(all, h) == Latest(events, h)
    {
      assert !Carries(e, h);
    }
  }

  lemma StartMatches(t: Timeouts)
    ensures CellsMatchHistory(t, [], START.cells)
  {
    MaskIsFull({});
  }

  lemma CellsAfterEvent(c: Can, t: Timeouts, e: Event)
    ensures IsCellEvent(e) ==>
              e.Handled? && GroupOfId(e.frame.id) < GROUPS
              && AfterEvent(c, t, e).cells == AfterCellFrame(c.cells, GroupOfId(e.frame.id), e.frame.data, e.tick)
    ensures !IsCellEvent(e) ==>
              AfterEvent(c, t, e).cells == if e.Updated? then AfterCellUpdate(c.cells, t, e.now) else c.cells
  {
    hide AfterMotorFrame, AfterE000, AfterE001, AfterCellFrame, AfterCellUpdate, AfterMotorUpdate, AfterBmsUpdate;
  }

  /** Cell data is valid exactly when all six groups were accepted since the last invalidation, and every group ever
      accepted holds the tenths of its latest accepted frame; so valid data is 24 such values. */
  lemma {:induction false} CellDataFollowsHistory(t: Timeouts, events: seq<Event>)
    ensures CellsMatchHistory(t, events, Apply(t, events).cells)
  {
    hide AfterEvent, CellsMatchHistory, IsCellEvent;
    if events == [] {
      StartMatches(t);
    } else {
      var earlier, last := events[..|events| - 1], events[|events| - 1];
      CellDataFollowsHistory(t, earlier);
      assert events == earlier + [last];
      var c := Apply(t, earlier);
      CellsAfterEvent(c, t, last);
      if IsCellEvent(last) {
        CellFrameMatches(t, earlier, c.cells, last);
      } else {
        OtherEventMatches(t, earlier, c.cells, last);
      }
    }
  }

  /** Valid data: each of the 24 cells is a tenth of its word in the latest accepted frame of its group. */
  lemma ValidCellsAreLatest(t: Timeouts, events: seq<Event>, i: nat)
    requires Apply(t, events).cells.valid && i < CELL_COUNT
    ensures Latest(events, i / 4).Some?
    ensures Apply(t, events).cells.voltages[i] == Word(Latest(events, i / 4).value, 2 * (i % 4)) / 10
  {
    hide Apply, Latest, Since, LatestTick, Word;
    CellDataFollowsHistory(t, events);
    var g := i / 4;
    assert g in EVERY_GROUP;
    assert Holds(Apply(t, events).cells.voltages, g, Latest(events, g).value);
    var k := i - 4 * g;
    assert i % 4 == k && (k == 0 || k == 1 || k == 2 || k == 3);
  }

  /** The time-out flag of the cells: an update that finds the latest cell frame too old raises it, an update that
      finds complete fresh data clears it, and nothing else changes it. */
  lemma CellFlagFollowsHistory(t: Timeouts, events: seq<Event>, e: Event)
    ensures var flag, after := Apply(t, events).cells.timeoutActive, Apply(t, events + [e]).cells.timeoutActive;
            if e.Updated? then after == (Stale(t, events, e.now) || (flag && Since(t, events) != EVERY_GROUP))
            else after == flag
    ensures !Apply(t, []).cells.timeoutActive
  {
    ApplyMore(t, events, e);
    CellDataFollowsHistory(t, events);
    hide Latest, Since, LatestTick, Holds, HoldsZeros, StoreGroup, MaskOf;
  }

  /** The identifiers, and the four cells that each carries. */
  lemma CellIdentifiers(id: uint32, g: nat)
    requires g < 6
    ensures GroupOfId(id) == g <==> id == [0xE015, 0xE016, 0xE017, 0xE018, 0xE019, 0xE020][g]
  {
  }

  // ---------------------------------------------------------------- motor errors

  predicate IsMotorEvent(e: Event) {
    e.Handled? && !e.frame.rtr && !e.frame.extd && e.frame.dlc >= 8 && e.frame.id == MOTOR_STATUS_ID
  }

  /** The error bits of the motor frames, in order. */
  function MotorFlags(events: seq<Event>): seq<byte> {
    if events == [] then []
    else
      var last := events[|events| - 1];
      MotorFlags(events[..|events| - 1]) + if IsMotorEvent(last) then [ErrorBits(last.frame.data[7])] else []
  }

  /** How many of the last frames all carried errors. */
  function TrailingRun(flags: seq<byte>): nat {
    if flags == [] || flags[|flags| - 1] == 0 then 0 else TrailingRun(flags[..|flags| - 1]) + 1
  }

  /** The flags to publish after each frame: its own once three frames in a row carried errors, and none before. */
  function Published(flags: seq<byte>): (published: seq<byte>)
    ensures |published| == |flags|
  {
    if flags == [] then []
    else
      Published(flags[..|flags| - 1])
      + [if TrailingRun(flags) >= 3 then flags[|flags| - 1] else 0]
  }

  function LastOr0(s: seq<byte>): byte {
    if s == [] then 0 else s[|s| - 1]
  }

  /** The motor-fault callbacks of a run. */
  function MotorFaults(t: Timeouts, events: seq<Event>): nat {
    if events == [] then 0
    else
      var earlier, last := events[..|events| - 1], events[|events| - 1];
      MotorFaults(t, earlier)
      + if IsMotorEvent(last) && AfterFrame(Apply(t, earlier), last.frame, last.tick).1 then 1 else 0
  }

  /** The length of the leading block of equal values. */
  function LeadingBlock(s: seq<byte>): (n: nat)
    requires s != []
    ensures 0 < n <= |s|
  {
    if |s| > 1 && s[1] == s[0] then 1 + LeadingBlock(s[1..]) else 1
  }

  /** The number of maximal blocks of equal non-zero values. */
  function Blocks(s: seq<byte>): nat
    decreases |s|
  {
    if s == [] then 0 else Blocks(s[LeadingBlock(s)..]) + if s[0] != 0 then 1 else 0
  }

  lemma {:induction false} LeadingBlockOfMore(s: seq<byte>, x: byte)
    requires s != []
    ensures LeadingBlock(s + [x]) == if LeadingBlock(s) == |s| && x == s[0] then |s| + 1 else LeadingBlock(s)
    ensures LeadingBlock(s) == |s| ==> s[|s| - 1] == s[0]
  {
    if |s| > 1 {
      if s[1] == s[0] {
        LeadingBlockOfMore(s[1..], x);
        assert (s + [x])[1..] == s[1..] + [x];
      }
    } else if x == s[0] {
      assert (s + [x])[1..] == [x];
    }
  }

  lemma {:induction false} BlocksOfMore(s: seq<byte>, x: byte)
    ensures Blocks(s + [x]) == Blocks(s) + if x != 0 && (s == [] || s[|s| - 1] != x) then 1 else 0
    decreases |s|
  {
    if s == [] {
      assert [x][LeadingBlock([x])..] == [];
      assert [] + [x] == [x];
    } else {
      var n := LeadingBlock(s);
      LeadingBlockOfMore(s, x);
      if n == |s| && x == s[0] {
        assert (s + [x])[|s| + 1..] == [] && s[|s|..] == [];
      } else {
        assert (s + [x])[n..] == s[n..] + [x];
        BlocksOfMore(s[n..], x);
      }
    }
  }

  ghost predicate MotorMatchesHistory(t: Timeouts, events: seq<Event>) {
    var flags := MotorFlags(events);
    && Apply(t, events).motor.consecutive == Min(TrailingRun(flags), 0xFFFF)
    && Apply(t, events).motor.errorFlags == LastOr0(Published(flags))
    && MotorFaults(t, events) == Blocks(Published(flags))
  }

  lemma PublishedMore(flags: seq<byte>, f: byte)
    ensures TrailingRun(flags + [f]) == if f == 0 then 0 else TrailingRun(flags) + 1
    ensures Published(flags + [f]) == Published(flags) + [if TrailingRun(flags + [f]) >= DEBOUNCE_FRAMES then f else 0]
  {
    assert (flags + [f])[..|flags|] == flags;
  }

  lemma MotorEventMore(t: Timeouts, events: seq<Event>, e: Event)
    requires IsMotorEvent(e)
    ensures MotorFlags(events + [e]) == MotorFlags(events) + [ErrorBits(e.frame.data[7])]
    ensures Apply(t, events + [e]).motor == AfterMotorFrame(Apply(t, events).motor, e.frame.data, e.tick).0
    ensures MotorFaults(t, events + [e]) == MotorFaults(t, events)
            + if AfterMotorFrame(Apply(t, events).motor, e.frame.data, e.tick).1 then 1 else 0
  {
    hide AfterMotorFrame, ErrorBits;
    assert (events + [e])[..|events|] == events;
  }

  lemma MotorFrameMatches(t: Timeouts, events: seq<Event>, e: Event)
    requires MotorMatchesHistory(t, events) && IsMotorEvent(e)
    ensures MotorMatchesHistory(t, events + [e])
  {
    hide Apply, MotorFlags, MotorFaults, Published, TrailingRun, Blocks, ErrorBits, StoredRpm, Word;
    var flags, f := MotorFlags(events), ErrorBits(e.frame.data[7]);
    MotorEventMore(t, events, e);
    PublishedMore(flags, f);
    BlocksOfMore(Published(flags), if TrailingRun(flags + [f]) >= DEBOUNCE_FRAMES then f else 0);
  }

  lemma OtherEventKeepsMotor(t: Timeouts, events: seq<Event>, e: Event)
    requires MotorMatchesHistory(t, events) && !IsMotorEvent(e)
    ensures MotorMatchesHistory(t, events + [e])
  {
    assert (events + [e])[..|events|] == events;
    assert MotorFlags(events + [e]) == MotorFlags(events);
    ApplyMore(t, events, e);
  }

  /** For every history: the counter is the length of the trailing error run, saturated; the published flags are the
      last frame's when at least three frames in a row carried errors and none otherwise; and one fault is reported
      per maximal block of equal non-zero published flags. */
  lemma {:induction false} MotorFollowsHistory(t: Timeouts, events: seq<Event>)
    ensures MotorMatchesHistory(t, events)
  {
    if events != [] {
      var earlier, last := events[..|events| - 1], events[|events| - 1];
      MotorFollowsHistory(t, earlier);
      assert events == earlier + [last];
      if IsMotorEvent(last) {
        MotorFrameMatches(t, earlier, last);
      } else {
        OtherEventKeepsMotor(t, earlier, last);
      }
    }
  }

  /** The stored rpm is the magnitude of the received one, except for -32768, which has none in 16 bits. */
  lemma RpmIsMagnitude(rpm: int16)
    ensures StoredRpm(rpm) >= 0 <==> rpm != -32768
    ensures rpm != -32768 ==> StoredRpm(rpm) == if rpm < 0 then -rpm else rpm
    ensures rpm == -32768 ==> StoredRpm(rpm) == -32768
  {
  }

  /** The latest accepted motor frame, with its tick. */
  function LatestMotor(events: seq<Event>): Option<(Payload, uint32)> {
    if events == [] then None
    else
      var last := events[|events| - 1];
      if IsMotorEvent(last) then Some((last.frame.data, last.tick)) else LatestMotor(events[..|events| - 1])
  }

  /** Whether a motor frame was accepted and no update since then found it as old as the limit. */
  predicate MotorAlive(t: Timeouts, events: seq<Event>) {
    if events == [] then false
    else
      var earlier, last := events[..|events| - 1], events[|events| - 1];
      if last.Updated? then
        MotorAlive(t, earlier) && LatestMotor(earlier).Some? && Sub32(last.now, LatestMotor(earlier).value.1) < t.motor
      else IsMotorEvent(last) || MotorAlive(t, earlier)
  }

  ghost predicate MotorValuesMatch(t: Timeouts, events: seq<Event>, m: Motor) {
    && m.seen == LatestMotor(events).Some?
    && m.dataValid == m.statusValid == MotorAlive(t, events)
    && (MotorAlive(t, events) ==> m.seen)
    && m.timeoutActive == (m.seen && !MotorAlive(t, events))
    && (m.seen ==>
         var (p, tick) := LatestMotor(events).value;
         m.lastTick == tick && m.rpm == StoredRpm(ToInt16(Word(p, 0))) && m.voltageDeciV == Word(p, 2))
    && (!m.seen ==> m.rpm == 0 && m.voltageDeciV == 0)
  }

  lemma MotorEventValues(t: Timeouts, events: seq<Event>, e: Event)
    requires MotorValuesMatch(t, events, Apply(t, events).motor)
    ensures MotorValuesMatch(t, events + [e], Apply(t, events + [e]).motor)
  {
    hide StoredRpm, Word, ToInt16, Debounce, ErrorBits, Notifies, AfterE000, AfterE001, AfterCellFrame, AfterCellUpdate,
      AfterBmsUpdate;
    assert (events + [e])[..|events|] == events;
    ApplyMore(t, events, e);
  }

  /** For every history: rpm and voltage are those of the latest motor frame, the status is valid until an update
      finds that frame too old, and from then on timed out until the next frame. */
  lemma {:induction false} MotorValuesFollowHistory(t: Timeouts, events: seq<Event>)
    ensures MotorValuesMatch(t, events, Apply(t, events).motor)
  {
    if events != [] {
      hide MotorValuesMatch, Apply;
      MotorValuesFollowHistory(t, events[..|events| - 1]);
      MotorEventValues(t, events[..|events| - 1], events[|events| - 1]);
      assert events == events[..|events| - 1] + [events[|events| - 1]];
    } else {
      assert Apply(t, []) == START;
    }
  }

  /** Which frames are accepted, and which bits are errors: the lowest bit says that the motor runs. */
  lemma MotorFrames(e: Event, b: byte)
    ensures IsMotorEvent(e) <==>
            e.Handled? && !e.frame.rtr && !e.frame.extd && e.frame.dlc >= 8 && e.frame.id == 0x200
    ensures ErrorBits(b) % 2 == 0 && (ErrorBits(b) == b || ErrorBits(b) == b - 1)
  {
  }

  /** Words are big-endian. */
  lemma WordIsBigEndian(p: Payload, i: nat, u: uint16)
    requires i < 7
    ensures Word(p, i) == u <==> p[i] as int == u / 256 && p[i + 1] as int == u % 256
  {
    assert u == u / 256 * 256 + u % 256;
    var high, low: int := p[i], p[i + 1];
    assert (256 * high + low) / 256 == high && (256 * high + low) % 256 == low;
  }

  /** The pack-limit flags: at most 60.0 V, and at least 87.6 V. */
  lemma PackLimits(deciV: uint16)
    ensures PackFaultFlags(deciV) == 1 <==> deciV <= 600
    ensures PackFaultFlags(deciV) == 2 <==> deciV >= 876
    ensures PackFaultFlags(deciV) == 0 <==> 600 < deciV < 876
  {
  }

  function CountRemote(events: seq<Event>): nat {
    if events == [] then 0
    else
      var last := events[|events| - 1];
      CountRemote(events[..|events| - 1]) + if last.Handled? && last.frame.rtr then 1 else 0
  }

  lemma RemoteStep(c: Can, t: Timeouts, e: Event)
    ensures AfterEvent(c, t, e).remoteFrames
            == if e.Handled? && e.frame.rtr then Add32(c.remoteFrames, 1) else c.remoteFrames
    ensures e.Handled? && e.frame.rtr ==> AfterEvent(c, t, e) == c.(remoteFrames := Add32(c.remoteFrames, 1))
    ensures e.Handled? && !e.frame.rtr && e.frame.dlc < 8 ==> AfterEvent(c, t, e) == c
  {
    hide AfterMotorFrame, AfterE000, AfterE001, AfterCellFrame;
  }

  lemma CountsOn(n: nat, count: uint32)
    requires count == n % 0x1_0000_0000
    ensures Add32(count, 1) == (n + 1) % 0x1_0000_0000
  {
    assert n == n / 0x1_0000_0000 * 0x1_0000_0000 + count;
    WrapAround(count, 1, 0, 0);
  }

  /** Remote frames are counted modulo 2^32. */
  lemma {:induction false} RemoteFramesAreCounted(t: Timeouts, events: seq<Event>)
    ensures Apply(t, events).remoteFrames == CountRemote(events) % 0x1_0000_0000
  {
    hide AfterEvent;
    if events != [] {
      RemoteFramesAreCounted(t, events[..|events| - 1]);
      RemoteStep(Apply(t, events[..|events| - 1]), t, events[|events| - 1]);
      CountsOn(CountRemote(events[..|events| - 1]), Apply(t, events[..|events| - 1]).remoteFrames);
    }
  }

  /** A drain takes 32 frames when as many wait. */
  lemma DrainLimit(rx: seq<Rx>)
    requires forall i :: 0 <= i < |rx| ==> rx[i].Received?
    ensures Taken(rx, 0) == Min(|rx|, 32)
  {
  }

  // ---------------------------------------------------------------- pack values and pack faults

  predicate IsBmsEvent(e: Event, id: uint32) {
    e.Handled? && !e.frame.rtr && e.frame.extd && e.frame.dlc >= 8 && e.frame.id == id
  }

  /** The latest accepted frame of an identifier, with its tick. */
  function LatestOf(events: seq<Event>, id: uint32): Option<(Payload, uint32)> {
    if events == [] then None
    else
      var last := events[|events| - 1];
      if IsBmsEvent(last, id) then Some((last.frame.data, last.tick)) else LatestOf(events[..|events| - 1], id)
  }

  predicate PackMatches(b: Bms, latest: Option<(Payload, uint32)>) {
    && b.seenE000 == latest.Some?
    && (latest.Some? ==>
         var (p, tick) := latest.value;
         && b.lastE000Tick == tick && b.currentCentiA == 10 * ToInt16(Word(p, 0)) && b.packVoltageDeciV == Word(p, 2)
         && b.socHundredths == Word(p, 4) && b.soc2Hundredths == Word(p, 6))
    && (latest.None? ==>
         b.currentCentiA == 0 && b.packVoltageDeciV == 0 && b.socHundredths == 0 && b.soc2Hundredths == 0)
  }

  predicate TempsMatch(b: Bms, latest: Option<(Payload, uint32)>) {
    && b.seenE001 == latest.Some?
    && (latest.Some? ==>
         var (p, tick) := latest.value;
         && b.lastE001Tick == tick && b.cellMinDeciMv == Word(p, 0) && b.cellMaxDeciMv == Word(p, 2)
         && b.cellAvgDeciMv == Word(p, 4)
         && {b.tempLowestC, b.tempHighestC} == {ToInt8(p[6]), ToInt8(p[7])} && b.tempLowestC <= b.tempHighestC)
    && (latest.None? ==>
         && b.cellMinDeciMv == 0 && b.cellMaxDeciMv == 0 && b.cellAvgDeciMv == 0
         && b.tempLowestC == 0 && b.tempHighestC == 0)
  }

  /** The pack-limit flags of the E000 frames, in order. */
  function PackFlags(events: seq<Event>): seq<byte> {
    if events == [] then []
    else
      var last := events[|events| - 1];
      PackFlags(events[..|events| - 1])
      + if IsBmsEvent(last, E000_ID) then [PackFaultFlags(Word(last.frame.data, 2))] else []
  }

  /** The pack-fault callbacks of a run. */
  function PackFaults(t: Timeouts, events: seq<Event>): nat {
    if events == [] then 0
    else
      var earlier, last := events[..|events| - 1], events[|events| - 1];
      PackFaults(t, earlier)
      + if IsBmsEvent(last, E000_ID) && AfterFrame(Apply(t, earlier), last.frame, last.tick).1 then 1 else 0
  }

  ghost predicate BmsMatchesHistory(t: Timeouts, events: seq<Event>) {
    var b := Apply(t, events).bms;
    && PackMatches(b, LatestOf(events, E000_ID)) && TempsMatch(b, LatestOf(events, E001_ID))
    && b.packFaultFlags == LastOr0(PackFlags(events))
    && PackFaults(t, events) == Blocks(PackFlags(events))
  }

  lemma BmsAfterEvent(c: Can, t: Timeouts, e: Event)
    ensures AfterEvent(c, t, e).bms
            == if IsBmsEvent(e, E000_ID) then AfterE000(c.bms, e.frame.data, e.tick).0
               else if IsBmsEvent(e, E001_ID) then AfterE001(c.bms, e.frame.data, e.tick)
               else if e.Updated? then AfterBmsUpdate(c.bms, t, e.now) else c.bms
    ensures IsBmsEvent(e, E000_ID) ==>
              AfterFrame(c, e.frame, e.tick).1 == AfterE000(c.bms, e.frame.data, e.tick).1
  {
    hide AfterMotorFrame, AfterE000, AfterE001, AfterCellFrame, AfterCellUpdate, AfterMotorUpdate, AfterBmsUpdate;
  }

  lemma BmsHistoryMore(t: Timeouts, events: seq<Event>, e: Event)
    ensures LatestOf(events + [e], E000_ID)
            == if IsBmsEvent(e, E000_ID) then Some((e.frame.data, e.tick)) else LatestOf(events, E000_ID)
    ensures LatestOf(events + [e], E001_ID)
            == if IsBmsEvent(e, E001_ID) then Some((e.frame.data, e.tick)) else LatestOf(events, E001_ID)
    ensures PackFlags(events + [e])
            == PackFlags(events)
               + if IsBmsEvent(e, E000_ID) then [PackFaultFlags(Word(e.frame.data, 2))] else []
    ensures PackFaults(t, events + [e])
            == PackFaults(t, events)
               + if IsBmsEvent(e, E000_ID) && AfterFrame(Apply(t, events), e.frame, e.tick).1 then 1 else 0
  {
    hide AfterFrame, PackFaultFlags, Word;
    assert (events + [e])[..|events|] == events;
  }

  lemma BmsEventMatches(t: Timeouts, events: seq<Event>, e: Event)
    requires BmsMatchesHistory(t, events)
    ensures BmsMatchesHistory(t, events + [e])
  {
    hide Apply, AfterEvent, AfterFrame, LatestOf, PackFlags, PackFaults, Blocks, PackFaultFlags, Word, ToInt8, ToInt16;
    ApplyMore(t, events, e);
    BmsAfterEvent(Apply(t, events), t, e);
    BmsHistoryMore(t, events, e);
    if IsBmsEvent(e, E000_ID) {
      BlocksOfMore(PackFlags(events), PackFaultFlags(Word(e.frame.data, 2)));
    } else {
      assert PackFlags(events) + [] == PackFlags(events);
    }
  }

  /** For every history: voltage, current and charge are those of the latest E000 frame, temperatures and cell
      extremes those of the latest E001 frame, and one pack fault is reported per maximal block of frames on the
      same side of the limits. */
  lemma {:induction false} BmsFollowsHistory(t: Timeouts, events: seq<Event>)
    ensures BmsMatchesHistory(t, events)
  {
    if events != [] {
      var earlier, last := events[..|events| - 1], events[|events| - 1];
      BmsFollowsHistory(t, earlier);
      assert events == earlier + [last];
      BmsEventMatches(t, earlier, last);
    }
  }

  /** After an update the pack data is valid exactly when both identifiers' latest frames are younger than the
      limit. */
  lemma ValidIffBothFresh(t: Timeouts, events: seq<Event>, now: uint32)
    ensures var e0, e1 := LatestOf(events, E000_ID), LatestOf(events, E001_ID);
            Apply(t, events + [Updated(now)]).bms.dataValid <==>
            (&& e0.Some? && Sub32(now, e0.value.1) < t.bms
             && e1.Some? && Sub32(now, e1.value.1) < t.bms)
  {
    BmsFollowsHistory(t, events);
    ApplyMore(t, events, Updated(now));
  }

  lemma CountsOfFrame(t: Timeouts, events: seq<Event>, frame: Frame, tick: uint32)
    ensures var all := events + [Handled(frame, tick)];
            MotorFaults(t, all) + PackFaults(t, all)
            == MotorFaults(t, events) + PackFaults(t, events)
               + if AfterFrame(Apply(t, events), frame, tick).1 then 1 else 0
  {
    assert (events + [Handled(frame, tick)])[..|events|] == events;
  }

  /** What the handlers of n frames report is what the two counts grow by. */
  lemma {:induction false} CountsOfFrames(t: Timeouts, events: seq<Event>, rx: seq<Rx>, n: nat)
    requires n <= |rx| && forall i :: 0 <= i < n ==> rx[i].Received?
    ensures var all := events + EventsOf(rx, n);
            MotorFaults(t, all) + PackFaults(t, all)
            == MotorFaults(t, events) + PackFaults(t, events) + AfterFrames(Apply(t, events), rx, n).1
  {
    hide AfterFrame, MotorFaults, PackFaults, Apply;
    if n == 0 {
      assert events + [] == events;
    } else {
      CountsOfFrames(t, events, rx, n - 1);
      FramesAreEvents(t, events, rx, n - 1);
      var earlier := events + EventsOf(rx, n - 1);
      CountsOfFrame(t, earlier, rx[n - 1].frame, rx[n - 1].tick);
      assert events + EventsOf(rx, n) == earlier + [Handled(rx[n - 1].frame, rx[n - 1].tick)];
    }
  }

  lemma CountsOfUpdate(t: Timeouts, events: seq<Event>, now: uint32)
    ensures MotorFaults(t, events + [Updated(now)]) == MotorFaults(t, events)
    ensures PackFaults(t, events + [Updated(now)]) == PackFaults(t, events)
  {
    assert (events + [Updated(now)])[..|events|] == events;
  }

  /** One drain reports as many faults as new maximal blocks of published motor flags and of pack-limit flags begin
      in its frames. */
  lemma DrainReportsBlocks(t: Timeouts, events: seq<Event>, rx: seq<Rx>, now: uint32)
    ensures var all := events + EventsOf(rx, Taken(rx, 0)) + [Updated(now)];
            AfterDrain(Apply(t, events), t, rx, now).1
            == (Blocks(Published(MotorFlags(all))) - Blocks(Published(MotorFlags(events))))
               + (Blocks(PackFlags(all)) - Blocks(PackFlags(events)))
  {
    hide AfterFrames, MotorFaults, PackFaults, Apply, MotorFlags, PackFlags, Blocks, Published, EventsOf, Taken;
    var handled := events + EventsOf(rx, Taken(rx, 0));
    CountsOfFrames(t, events, rx, Taken(rx, 0));
    CountsOfUpdate(t, handled, now);
    MotorFollowsHistory(t, events);
    MotorFollowsHistory(t, handled + [Updated(now)]);
    BmsFollowsHistory(t, events);
    BmsFollowsHistory(t, handled + [Updated(now)]);
  }

  // ---------------------------------------------------------------- BMS freshness

  predicate BothSeen(b: Bms) {
    b.seenE000 && b.seenE001
  }

  /** What every update establishes: valid data needs both identifiers, and once both were seen, data that is not
      valid raises the time-out. */
  predicate FreshnessDecided(b: Bms) {
    && (b.dataValid ==> BothSeen(b) && !b.timeoutActive)
    && (BothSeen(b) && !b.dataValid ==> b.timeoutActive)
  }

  lemma UpdateDecidesFreshness(b: Bms, t: Timeouts, now: uint32)
    ensures FreshnessDecided(AfterBmsUpdate(b, t, now)) && BothSeen(AfterBmsUpdate(b, t, now)) == BothSeen(b)
  {
  }

  lemma {:induction false} SeenIsSticky(c: Can, rx: seq<Rx>, n: nat)
    requires n <= |rx| && forall i :: 0 <= i < n ==> rx[i].Received?
    ensures BothSeen(c.bms) ==> BothSeen(AfterFrames(c, rx, n).0.bms)
  {
    if n > 0 {
      SeenIsSticky(c, rx, n - 1);
    }
  }

  /** A drain keeps what was seen and ends with freshness decided. */
  lemma DrainDecidesFreshness(c: Can, t: Timeouts, rx: seq<Rx>, now: uint32)
    ensures var after := AfterDrain(c, t, rx, now).0;
            FreshnessDecided(after.bms) && (BothSeen(c.bms) ==> BothSeen(after.bms))
  {
    SeenIsSticky(c, rx, Taken(rx, 0));
    UpdateDecidesFreshness(AfterFrames(c, rx, Taken(rx, 0)).0.bms, t, now);
  }

  // ---------------------------------------------------------------- the record that other tasks see

  /** The time-out flag of the cells, from the history alone. */
  predicate CellsTimedOut(t: Timeouts, events: seq<Event>) {
    if events == [] then false
    else
      var earlier, last := events[..|events| - 1], events[|events| - 1];
      if last.Updated? then
        Stale(t, earlier, last.now) || (CellsTimedOut(t, earlier) && Since(t, earlier) != EVERY_GROUP)
      else CellsTimedOut(t, earlier)
  }

  lemma {:induction false} CellFlagIsHistory(t: Timeouts, events: seq<Event>)
    ensures Apply(t, events).cells.timeoutActive == CellsTimedOut(t, events)
  {
    hide Apply, Stale, Since;
    CellFlagFollowsHistory(t, [], Updated(0));
    if events != [] {
      CellFlagIsHistory(t, events[..|events| - 1]);
      CellFlagFollowsHistory(t, events[..|events| - 1], events[|events| - 1]);
      assert events == events[..|events| - 1] + [events[|events| - 1]];
    }
  }

  /** Voltage, current and charges of the latest E000 frame, and zeros before any. */
  predicate ShowsPack(events: seq<Event>, d: TelemetryData) {
    var latest := LatestOf(events, 0xE000);
    if latest.None? then
      d.packVoltageDeciV == 0 && d.currentCentiA == 0 && d.socHundredths == 0 && d.soc2Hundredths == 0
    else
      var p := latest.value.0;
      && d.currentCentiA == 10 * ToInt16(Word(p, 0)) && d.packVoltageDeciV == Word(p, 2)
      && d.socHundredths == Word(p, 4) && d.soc2Hundredths == Word(p, 6)
  }

  /** Cell extremes and temperatures of the latest E001 frame: the two readings, the higher one first. */
  predicate ShowsTemps(events: seq<Event>, d: TelemetryData) {
    var latest := LatestOf(events, 0xE001);
    if latest.None? then
      && d.cellVoltageMinDeciMv == 0 && d.cellVoltageMaxDeciMv == 0 && d.cellVoltageAvgDeciMv == 0
      && d.tempHighestC == 0 && d.tempLowestC == 0
    else
      var p := latest.value.0;
      && d.cellVoltageMinDeciMv == Word(p, 0) && d.cellVoltageMaxDeciMv == Word(p, 2)
      && d.cellVoltageAvgDeciMv == Word(p, 4)
      && d.tempHighestC == (if ToInt8(p[6]) >= ToInt8(p[7]) then ToInt8(p[6]) else ToInt8(p[7]))
      && d.tempLowestC == (if ToInt8(p[6]) >= ToInt8(p[7]) then ToInt8(p[7]) else ToInt8(p[6]))
  }

  /** The tenths of the four words of each group's latest frame, and zeros before any. */
  predicate ShowsCells(events: seq<Event>, cells: Cells) {
    forall g, k :: 0 <= g < 6 && 0 <= k < 4 ==>
      cells[4 * g + k] == (if Latest(events, g).None? then 0 else Word(Latest(events, g).value, 2 * k) / 10)
  }

  /** Magnitude of the rpm, voltage and confirmed error flags. */
  predicate ShowsMotor(events: seq<Event>, d: TelemetryData) {
    var latest := LatestMotor(events);
    && d.motorErrorFlags == LastOr0(Published(MotorFlags(events)))
    && (if latest.None? then d.motorRpm == 0 && d.motorVoltageDeciV == 0
        else
          && d.motorRpm == StoredRpm(ToInt16(Word(latest.value.0, 0)))
          && d.motorVoltageDeciV == Word(latest.value.0, 2))
  }

  predicate FreshAt(events: seq<Event>, id: uint32, now: uint32, limit: uint32) {
    LatestOf(events, id).Some? && Sub32(now, LatestOf(events, id).value.1) < limit
  }

  /** The validity and time-out flags after an update. */
  predicate ShowsFlags(t: Timeouts, events: seq<Event>, now: uint32, d: TelemetryData) {
    var all := events + [Updated(now)];
    && d.bmsDataValid == (FreshAt(events, 0xE000, now, t.bms) && FreshAt(events, 0xE001, now, t.bms))
    && d.bmsTimeoutActive == (|| (LatestOf(events, 0xE000).Some? && !FreshAt(events, 0xE000, now, t.bms))
                              || (LatestOf(events, 0xE001).Some? && !FreshAt(events, 0xE001, now, t.bms)))
    && d.motorDataValid == MotorAlive(t, all)
    && d.motorTimeoutActive == (LatestMotor(all).Some? && !MotorAlive(t, all))
    && d.cellVoltageDataValid == (Since(t, all) == EVERY_GROUP)
    && d.cellVoltageTimeoutActive == CellsTimedOut(t, all)
    && d.bmsSystemState == 0
  }

  predicate ShowsHistory(t: Timeouts, events: seq<Event>, now: uint32, d: TelemetryData) {
    && ShowsPack(events, d) && ShowsTemps(events, d) && ShowsCells(events, d.cellVoltages) && ShowsMotor(events, d)
    && ShowsFlags(t, events, now, d)
  }

  lemma UpdateKeepsValues(t: Timeouts, events: seq<Event>, now: uint32, g: nat)
    ensures var all := events + [Updated(now)];
            && LatestOf(all, E000_ID) == LatestOf(events, E000_ID)
            && LatestOf(all, E001_ID) == LatestOf(events, E001_ID)
            && LatestMotor(all) == LatestMotor(events) && MotorFlags(all) == MotorFlags(events)
            && Latest(all, g) == Latest(events, g)
  {
    assert (events + [Updated(now)])[..|events|] == events;
    assert MotorFlags(events) + [] == MotorFlags(events);
  }

  lemma RecordShowsBms(t: Timeouts, events: seq<Event>, now: uint32)
    ensures var d := TelemetryOf(Apply(t, events + [Updated(now)])); ShowsPack(events, d) && ShowsTemps(events, d)
  {
    hide Apply, LatestOf, Word, ToInt8, ToInt16, PackFlags, PackFaults, Blocks, LastOr0;
    BmsFollowsHistory(t, events + [Updated(now)]);
    UpdateKeepsValues(t, events, now, 0);
  }

  lemma RecordShowsCells(t: Timeouts, events: seq<Event>, now: uint32)
    ensures ShowsCells(events, TelemetryOf(Apply(t, events + [Updated(now)])).cellVoltages)
  {
    hide Apply, Latest, Word, Since, LatestTick, MaskOf;
    var all := events + [Updated(now)];
    CellDataFollowsHistory(t, all);
    forall g, k | 0 <= g < 6 && 0 <= k < 4
      ensures TelemetryOf(Apply(t, all)).cellVoltages[4 * g + k]
              == if Latest(events, g).None? then 0 else Word(Latest(events, g).value, 2 * k) / 10
    {
      UpdateKeepsValues(t, events, now, g);
      assert Latest(all, g).Some? ==> Holds(Apply(t, all).cells.voltages, g, Latest(all, g).value);
      assert k == 0 || k == 1 || k == 2 || k == 3;
    }
  }

  lemma RecordShowsMotor(t: Timeouts, events: seq<Event>, now: uint32)
    ensures ShowsMotor(events, TelemetryOf(Apply(t, events + [Updated(now)])))
  {
    hide Apply, LatestMotor, MotorFlags, Published, Word, ToInt16, StoredRpm, MotorAlive, TrailingRun, Blocks,
      MotorFaults;
    MotorFollowsHistory(t, events + [Updated(now)]);
    MotorValuesFollowHistory(t, events + [Updated(now)]);
    UpdateKeepsValues(t, events, now, 0);
  }

  lemma RecordShowsFlags(t: Timeouts, events: seq<Event>, now: uint32)
    ensures ShowsFlags(t, events, now, TelemetryOf(Apply(t, events + [Updated(now)])))
  {
    var all := events + [Updated(now)];
    BmsFlagsAfterUpdate(t, events, now);
    MotorValuesFollowHistory(t, all);
    CellDataFollowsHistory(t, all);
    CellFlagIsHistory(t, all);
    hide Apply, LatestMotor, MotorAlive, LatestOf, Latest, LatestTick, Since, MaskOf, CellsTimedOut, FreshAt, Holds,
      HoldsZeros;
  }

  lemma BmsFlagsAfterUpdate(t: Timeouts, events: seq<Event>, now: uint32)
    ensures var b := Apply(t, events + [Updated(now)]).bms;
            && b.dataValid == (FreshAt(events, 0xE000, now, t.bms) && FreshAt(events, 0xE001, now, t.bms))
            && b.timeoutActive == (|| (LatestOf(events, 0xE000).Some? && !FreshAt(events, 0xE000, now, t.bms))
                                   || (LatestOf(events, 0xE001).Some? && !FreshAt(events, 0xE001, now, t.bms)))
  {
    hide LatestOf, PackFlags, PackFaults, Blocks, Word, ToInt8, ToInt16;
    BmsFollowsHistory(t, events);
    ApplyMore(t, events, Updated(now));
  }

  /** Field by field: the record after an update holds the values of the latest accepted frames. */
  lemma RecordShowsHistory(t: Timeouts, events: seq<Event>, now: uint32)
    ensures ShowsHistory(t, events, now, TelemetryOf(Apply(t, events + [Updated(now)])))
  {
    hide ShowsPack, ShowsTemps, ShowsCells, ShowsMotor, ShowsFlags, Apply;
    RecordShowsBms(t, events, now);
    RecordShowsCells(t, events, now);
    RecordShowsMotor(t, events, now);
    RecordShowsFlags(t, events, now);
  }
}
