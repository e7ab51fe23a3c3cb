/** Incremental screen synchronisation: a change cache over 75 fields, sent under a byte budget. */
module BmsNextionPacket {
  import opened Words
  import opened VehicleData
  import opened Decimal
  import opened BmsAlgo

  const CELL_FIELDS := 72
  const FIELD_COUNT := 75
  const END_BYTES := 3
  const NO_DATA_MV := 65535
  const DEFAULT_BUDGET := 90

  function CellBarFill(mv: uint16): (fill: byte)
    ensures fill <= 100
    ensures if mv == 65535 then fill == 0 else IsPercentage(fill, mv)
  {
    if mv == NO_DATA_MV then 0
    else if mv <= SOC_EMPTY_MV then 0
    else if mv >= SOC_FULL_MV then 100
    else (mv - SOC_EMPTY_MV) * 100 / (SOC_FULL_MV - SOC_EMPTY_MV)
  }

  /** The screen's fields in sending order: cell0..23, j0..23, bal0..23, cellmax, cellmin, warn. */
  function FieldName(f: nat): string {
    if f < 24 then "cell" + Dec(f)
    else if f < 48 then "j" + Dec(f - 24)
    else if f < 72 then "bal" + Dec(f - 48)
    else if f == 72 then "cellmax"
    else if f == 73 then "cellmin"
    else "warn"
  }

  function Command(f: nat, value: nat): string {
    FieldName(f) + ".val=" + Dec(value)
  }

  /** Bytes on the wire: the text and the end sequence that the caller appends. */
  function CommandBytes(f: nat, value: nat): nat {
    |Command(f, value)| + END_BYTES
  }

  /** A value for each of the 75 fields. */
  type Screen = s: seq<uint16> | |s| == FIELD_COUNT witness ZERO_CELLS + ZERO_CELLS + ZERO_CELLS + [0, 0, 0]

  function Fills(cells: seq<uint16>): (fills: seq<byte>)
    ensures |fills| == |cells|
    ensures forall i :: 0 <= i < |cells| ==> fills[i] == CellBarFill(cells[i])
  {
    if cells == [] then [] else Fills(cells[..|cells| - 1]) + [CellBarFill(cells[|cells| - 1])]
  }

  function Bits(flags: seq<bool>): (bits: seq<byte>)
    ensures |bits| == |flags|
    ensures forall i :: 0 <= i < |flags| ==> bits[i] == if flags[i] then 1 else 0
  {
    if flags == [] then [] else Bits(flags[..|flags| - 1]) + [if flags[|flags| - 1] then 1 else 0]
  }

  /** The texts of the 75 fields' commands, and what they cost on the wire with their three end bytes. */
  lemma CommandTexts(i: nat, v: nat)
    requires i < 24
    ensures Command(i, v) == "cell" + Dec(i) + ".val=" + Dec(v)
    ensures Command(24 + i, v) == "j" + Dec(i) + ".val=" + Dec(v)
    ensures Command(48 + i, v) == "bal" + Dec(i) + ".val=" + Dec(v)
    ensures Command(72, v) == "cellmax.val=" + Dec(v)
    ensures Command(73, v) == "cellmin.val=" + Dec(v)
    ensures Command(74, v) == "warn.val=" + Dec(v)
    ensures forall f :: 0 <= f < 75 ==> CommandBytes(f, v) == |Command(f, v)| + 3
  {
  }

  /** What the screen ought to show. */
  function Target(comp: BmsComputed, raw: BmsPackData): Screen {
    raw.cellVoltageMv + Fills(raw.cellVoltageMv) + Bits(comp.balanceFlag)
    + [comp.cellMaxMv, comp.cellMinMv, comp.warningLevel]
  }

  /** The fields in [lo, hi) that have to be sent, in order. */
  function Pending(view: Screen, target: Screen, force: bool, lo: nat, hi: nat): (fields: seq<nat>)
    requires hi <= FIELD_COUNT
    ensures forall i :: 0 <= i < |fields| ==> lo <= fields[i] < hi
    ensures |fields| <= hi
  {
    if hi <= lo then []
    else Pending(view, target, force, lo, hi - 1) + if force || view[hi - 1] != target[hi - 1] then [hi - 1] else []
  }

  predicate AreFields(fields: seq<nat>) {
    forall i :: 0 <= i < |fields| ==> fields[i] < FIELD_COUNT
  }

  function Cost(target: Screen, fields: seq<nat>): nat
    requires AreFields(fields)
  {
    if fields == [] then 0
    else
      var last := fields[|fields| - 1];
      Cost(target, fields[..|fields| - 1]) + CommandBytes(last, target[last])
  }

  /** The length of the longest prefix of the fields that fits the budget. */
  function Fit(target: Screen, fields: seq<nat>, maxBytes: nat): (n: nat)
    requires AreFields(fields)
    ensures n <= |fields|
  {
    if Cost(target, fields) <= maxBytes then |fields| else Fit(target, fields[..|fields| - 1], maxBytes)
  }

  function Commands(target: Screen, fields: seq<nat>): seq<string>
    requires AreFields(fields)
  {
    if fields == [] then []
    else
      var last := fields[|fields| - 1];
      Commands(target, fields[..|fields| - 1]) + [Command(last, target[last])]
  }

  /** The view with the given fields brought to their target. */
  function Applied(view: Screen, target: Screen, fields: seq<nat>): Screen
    requires AreFields(fields)
  {
    if fields == [] then view
    else
      var last := fields[|fields| - 1];
      Applied(view, target, fields[..|fields| - 1])[last := target[last]]
  }

  /** Cold caches, forced refreshes and cell ticks visit every field; other calls only the three summary fields. */
  function FirstField(warm: bool, force: bool, updateCells: bool): nat {
    if updateCells || force || !warm then 0 else CELL_FIELDS
  }

  /** The simple specification: send the longest affordable prefix of the pending fields and cache just those. */
  function Sent(view: Screen, target: Screen, warm: bool, force: bool, updateCells: bool,
                maxBytes: nat): (fields: seq<nat>)
    ensures AreFields(fields)
  {
    var fields := Pending(view, target, force, FirstField(warm, force, updateCells), FIELD_COUNT);
    fields[..Fit(target, fields, maxBytes)]
  }

  predicate AllSent(view: Screen, target: Screen, warm: bool, force: bool, updateCells: bool, maxBytes: nat) {
    |Sent(view, target, warm, force, updateCells, maxBytes)|
    == |Pending(view, target, force, FirstField(warm, force, updateCells), FIELD_COUNT)|
  }

  // ---------------------------------------------------------------- the greedy loops compute that prefix

  /** What `emitAndCheck` carries from field to field. */
  datatype Emission = Emission(cmds: seq<string>, bytes: nat, exhausted: bool)

  /** One field's turn: nothing to send, sent and cached, or the budget is exhausted from here on. */
  function Visit(e: Emission, view: Screen, target: Screen, force: bool, f: nat, maxBytes: nat): (Emission, Screen)
    requires f < FIELD_COUNT
  {
    if !force && view[f] == target[f] then (e, view)
    else if e.exhausted || e.bytes + CommandBytes(f, target[f]) > maxBytes then (e.(exhausted := true), view)
    else (Emission(e.cmds + [Command(f, target[f])], e.bytes + CommandBytes(f, target[f]), false),
          view[f := target[f]])
  }

  function VisitAll(view: Screen, target: Screen, force: bool, maxBytes: nat, lo: nat, hi: nat): (Emission, Screen)
    requires hi <= FIELD_COUNT
  {
    if hi <= lo then (Emission([], 0, false), view)
    else
      var (e, v) := VisitAll(view, target, force, maxBytes, lo, hi - 1);
      Visit(e, v, target, force, hi - 1, maxBytes)
  }

  lemma {:induction false} AppliedElsewhere(view: Screen, target: Screen, fields: seq<nat>, f: nat)
    requires AreFields(fields) && f < FIELD_COUNT && f !in fields
    ensures Applied(view, target, fields)[f] == view[f]
  {
    if fields != [] {
      AppliedElsewhere(view, target, fields[..|fields| - 1], f);
    }
  }

  /** Only a list that exceeds the budget is cut, and what is kept fits. */
  lemma {:induction false} FitCuts(target: Screen, fields: seq<nat>, maxBytes: nat)
    requires AreFields(fields)
    ensures Cost(target, fields[..Fit(target, fields, maxBytes)]) <= maxBytes
    ensures Fit(target, fields, maxBytes) < |fields| ==> Cost(target, fields) > maxBytes
  {
    if Cost(target, fields) <= maxBytes {
      assert fields[..|fields|] == fields;
    } else {
      var shorter := fields[..|fields| - 1];
      FitCuts(target, shorter, maxBytes);
      var n := Fit(target, shorter, maxBytes);
      assert fields[..n] == shorter[..n];
    }
  }

  /** Appending a field keeps the kept prefix, or extends a prefix that was whole. */
  lemma FitOfMore(target: Screen, fields: seq<nat>, f: nat, maxBytes: nat)
    requires AreFields(fields) && f < FIELD_COUNT
    ensures var n, more := Fit(target, fields, maxBytes), Fit(target, fields + [f], maxBytes);
            if n == |fields| && Cost(target, fields[..n]) + CommandBytes(f, target[f]) <= maxBytes
            then more == n + 1
            else more == n && (fields + [f])[..n] == fields[..n]
  {
    assert (fields + [f])[..|fields|] == fields;
    assert fields[..|fields|] == fields;
    FitCuts(target, fields, maxBytes);
  }

  lemma CommandsOfMore(view: Screen, target: Screen, fields: seq<nat>, f: nat)
    requires AreFields(fields) && f < FIELD_COUNT
    ensures Commands(target, fields + [f]) == Commands(target, fields) + [Command(f, target[f])]
    ensures Cost(target, fields + [f]) == Cost(target, fields) + CommandBytes(f, target[f])
    ensures Applied(view, target, fields + [f]) == Applied(view, target, fields)[f := target[f]]
  {
    assert (fields + [f])[..|fields|] == fields;
  }

  ghost predicate SendsLongestPrefix(view: Screen, target: Screen, fields: seq<nat>, maxBytes: nat, e: Emission,
                                    after: Screen)
    requires AreFields(fields)
  {
    var n := Fit(target, fields, maxBytes);
    && e == Emission(Commands(target, fields[..n]), Cost(target, fields[..n]), n < |fields|)
    && after == Applied(view, target, fields[..n])
  }

  lemma VisitExtends(view: Screen, target: Screen, fields: seq<nat>, f: nat, force: bool, maxBytes: nat, e: Emission,
                    v: Screen)
    requires AreFields(fields) && f < FIELD_COUNT && (force || v[f] != target[f])
    requires SendsLongestPrefix(view, target, fields, maxBytes, e, v)
    ensures var (e', v') := Visit(e, v, target, force, f, maxBytes);
            SendsLongestPrefix(view, target, fields + [f], maxBytes, e', v')
  {
    var n := Fit(target, fields, maxBytes);
    FitOfMore(target, fields, f, maxBytes);
    if n == |fields| && e.bytes + CommandBytes(f, target[f]) <= maxBytes {
      assert fields[..n] == fields && (fields + [f])[..n + 1] == fields + [f];
      CommandsOfMore(view, target, fields, f);
    }
  }

  /** The greedy visit of the fields in [lo, hi) sends exactly the longest prefix of the pending ones that fits. */
  lemma {:induction false} VisitsSendLongestPrefix(view: Screen, target: Screen, force: bool, maxBytes: nat, lo: nat,
                                                   hi: nat)
    requires hi <= FIELD_COUNT
    ensures var (e, after) := VisitAll(view, target, force, maxBytes, lo, hi);
            SendsLongestPrefix(view, target, Pending(view, target, force, lo, hi), maxBytes, e, after)
  {
    if hi > lo {
      var f := hi - 1;
      VisitsSendLongestPrefix(view, target, force, maxBytes, lo, f);
      var fields := Pending(view, target, force, lo, f);
      var (e, v) := VisitAll(view, target, force, maxBytes, lo, f);
      AppliedElsewhere(view, target, fields[..Fit(target, fields, maxBytes)], f);
      if force || view[f] != target[f] {
        VisitExtends(view, target, fields, f, force, maxBytes, e, v);
      } else {
        assert Pending(view, target, force, lo, hi) == fields;
      }
    }
  }

  /** `emitAndCheck`: a command that no longer fits exhausts the budget for the rest of the call. */
  method EmitAndCheck(e: Emission, f: nat, value: nat, maxBytes: nat) returns (ok: bool, e': Emission)
    ensures ok <==> !e.exhausted && e.bytes + CommandBytes(f, value) <= maxBytes
    ensures e' == if ok then Emission(e.cmds + [Command(f, value)], e.bytes + CommandBytes(f, value), false)
                  else e.(exhausted := true)
  {
    if e.exhausted {
      return false, e;
    }
    var cmd := Command(f, value);
    if e.bytes + |cmd| + END_BYTES > maxBytes {
      return false, e.(exhausted := true);
    }
    return true, Emission(e.cmds + [cmd], e.bytes + |cmd| + END_BYTES, false);
  }

  lemma TargetOfCells(comp: BmsComputed, raw: BmsPackData)
    ensures forall i :: 0 <= i < CELL_COUNT ==>
              && Target(comp, raw)[i] == raw.cellVoltageMv[i]
              && Target(comp, raw)[24 + i] == CellBarFill(raw.cellVoltageMv[i])
              && Target(comp, raw)[48 + i] == if comp.balanceFlag[i] then 1 else 0
  {
  }

  /** The screen that a view describes, field by field. */
  ghost predicate Shows(view: Screen, comp: BmsComputed, raw: BmsPackData) {
    && (forall i :: 0 <= i < 24 ==>
          && view[i] == raw.cellVoltageMv[i]
          && view[24 + i] == CellBarFill(raw.cellVoltageMv[i])
          && view[48 + i] == if comp.balanceFlag[i] then 1 else 0)
    && ShowsSummary(view, comp)
  }

  predicate ShowsSummary(view: Screen, comp: BmsComputed) {
    view[72] == comp.cellMaxMv && view[73] == comp.cellMinMv && view[74] == comp.warningLevel
  }

  lemma TargetShows(comp: BmsComputed, raw: BmsPackData)
    ensures Shows(Target(comp, raw), comp, raw)
  {
    TargetOfCells(comp, raw);
  }

  lemma {:induction false} AppliedAt(view: Screen, target: Screen, fields: seq<nat>, f: nat)
    requires AreFields(fields) && f < FIELD_COUNT
    ensures Applied(view, target, fields)[f] == if f in fields then target[f] else view[f]
  {
    if fields != [] {
      AppliedAt(view, target, fields[..|fields| - 1], f);
      assert fields == fields[..|fields| - 1] + [fields[|fields| - 1]];
    }
  }

  lemma {:induction false} PendingHolds(view: Screen, target: Screen, force: bool, lo: nat, hi: nat, f: nat)
    requires hi <= FIELD_COUNT
    ensures f in Pending(view, target, force, lo, hi) <==> lo <= f < hi && (force || view[f] != target[f])
  {
    if hi > lo {
      PendingHolds(view, target, force, lo, hi - 1, f);
    }
  }

  /** A call visits all fields when the cache is cold or the call is forced or a cell tick, and else the last
      three; a call that sent all it had to leaves every visited field at its target, and the others alone. */
  lemma CompleteCall(view: Screen, target: Screen, warm: bool, force: bool, updateCells: bool, maxBytes: nat, f: nat)
    requires f < 75 && AllSent(view, target, warm, force, updateCells, maxBytes)
    ensures Applied(view, target, Sent(view, target, warm, force, updateCells, maxBytes))[f]
            == if f >= 72 || !warm || force || updateCells then target[f] else view[f]
  {
    hide Applied, Pending, Fit;
    var lo := FirstField(warm, force, updateCells);
    var fields := Pending(view, target, force, lo, FIELD_COUNT);
    assert Sent(view, target, warm, force, updateCells, maxBytes) == fields;
    AppliedAt(view, target, fields, f);
    PendingHolds(view, target, force, lo, FIELD_COUNT, f);
  }

  /** Everything was sent exactly when the budget holds all that was to be sent. */
  lemma AllSentIff(view: Screen, target: Screen, warm: bool, force: bool, updateCells: bool, maxBytes: nat)
    ensures var fields := Pending(view, target, force, if updateCells || force || !warm then 0 else 72, 75);
            AllSent(view, target, warm, force, updateCells, maxBytes) <==> Cost(target, fields) <= maxBytes
  {
    FitCuts(target, Pending(view, target, force, FirstField(warm, force, updateCells), FIELD_COUNT), maxBytes);
  }

  lemma CompleteCallShows(view: Screen, comp: BmsComputed, raw: BmsPackData, warm: bool, force: bool, updateCells: bool,
                          maxBytes: nat)
    requires AllSent(view, Target(comp, raw), warm, force, updateCells, maxBytes)
    ensures var target := Target(comp, raw);
            var after := Applied(view, target, Sent(view, target, warm, force, updateCells, maxBytes));
            && ShowsSummary(after, comp)
            && (!warm || force || updateCells ==> Shows(after, comp, raw))
  {
    hide Applied, Sent, Target, AllSent;
    var target := Target(comp, raw);
    TargetShows(comp, raw);
    forall f | 0 <= f < 75
      ensures Applied(view, target, Sent(view, target, warm, force, updateCells, maxBytes))[f]
              == if f >= 72 || !warm || force || updateCells then target[f] else view[f]
    {
      CompleteCall(view, target, warm, force, updateCells, maxBytes, f);
    }
  }

  class Cache {
    const cellVoltageMv: array<uint16>
    const cellBarFill: array<byte>
    const balanceFlag: array<byte>
    var cellMaxMv: uint16
    var cellMinMv: uint16
    var warningLevel: byte
    var isWarm: bool

    ghost predicate Valid() {
      && cellVoltageMv.Length == cellBarFill.Length == balanceFlag.Length == CELL_COUNT
      && cellBarFill != balanceFlag
    }

    ghost function View(): Screen
      requires Valid()
      reads this, cellVoltageMv, cellBarFill, balanceFlag
    {
      var view := cellVoltageMv[..] + cellBarFill[..] + balanceFlag[..] + [cellMaxMv, cellMinMv, warningLevel];
      assert forall i :: 0 <= i < CELL_COUNT ==> 0 <= cellBarFill[i] < 0x1_0000 && 0 <= balanceFlag[i] < 0x1_0000;
      view
    }

    constructor ()
      ensures Valid() && !isWarm
      ensures forall f :: 0 <= f < FIELD_COUNT ==>
                View()[f] == if f < 24 then 0 else if f < 72 then 255 else if f < 74 then 0 else 255
      ensures fresh(cellVoltageMv) && fresh(cellBarFill) && fresh(balanceFlag)
    {
      cellVoltageMv := new uint16[CELL_COUNT](_ => 0);
      cellBarFill := new byte[CELL_COUNT](_ => 255);
      balanceFlag := new byte[CELL_COUNT](_ => 255);
      cellMaxMv, cellMinMv, warningLevel, isWarm := 0, 0, 255, false;
    }

    /** The body of the first loop. */
    method SyncVoltage(e: Emission, i: nat, value: uint16, force: bool, maxBytes: nat, ghost target: Screen)
      returns (e': Emission)
      requires Valid() && i < CELL_COUNT && target[i] == value
      modifies cellVoltageMv
      ensures (e', View()) == Visit(e, old(View()), target, force, i, maxBytes)
    {
      e' := e;
      if force || value != cellVoltageMv[i] {
        var ok;
        ok, e' := EmitAndCheck(e, i, value, maxBytes);
        if ok {
          cellVoltageMv[i] := value;
          assert View() == old(View())[i := value];
        }
      }
    }

    /** The body of the second loop. */
    method SyncFill(e: Emission, i: nat, fill: byte, force: bool, maxBytes: nat, ghost target: Screen)
      returns (e': Emission)
      requires Valid() && i < CELL_COUNT && target[24 + i] == fill
      modifies cellBarFill
      ensures (e', View()) == Visit(e, old(View()), target, force, 24 + i, maxBytes)
    {
      e' := e;
      if force || fill != cellBarFill[i] {
        var ok;
        ok, e' := EmitAndCheck(e, 24 + i, fill, maxBytes);
        if ok {
          cellBarFill[i] := fill;
          assert View() == old(View())[24 + i := fill];
        }
      }
    }

    /** The body of the third loop. */
    method SyncBalance(e: Emission, i: nat, bal: byte, force: bool, maxBytes: nat, ghost target: Screen)
      returns (e': Emission)
      requires Valid() && i < CELL_COUNT && target[48 + i] == bal
      modifies balanceFlag
      ensures (e', View()) == Visit(e, old(View()), target, force, 48 + i, maxBytes)
    {
      e' := e;
      if force || bal != balanceFlag[i] {
        var ok;
        ok, e' := EmitAndCheck(e, 48 + i, bal, maxBytes);
        if ok {
          balanceFlag[i] := bal;
          assert View() == old(View())[48 + i := bal];
        }
      }
    }

    method SyncMax(e: Emission, value: uint16, force: bool, maxBytes: nat, ghost target: Screen) returns (e': Emission)
      requires Valid() && target[72] == value
      modifies this`cellMaxMv
      ensures (e', View()) == Visit(e, old(View()), target, force, 72, maxBytes)
    {
      e' := e;
      if force || value != cellMaxMv {
        var ok;
        ok, e' := EmitAndCheck(e, 72, value, maxBytes);
        if ok {
          cellMaxMv := value;
          assert View() == old(View())[72 := value];
        }
      }
    }

    method SyncMin(e: Emission, value: uint16, force: bool, maxBytes: nat, ghost target: Screen) returns (e': Emission)
      requires Valid() && target[73] == value
      modifies this`cellMinMv
      ensures (e', View()) == Visit(e, old(View()), target, force, 73, maxBytes)
    {
      e' := e;
      if force || value != cellMinMv {
        var ok;
        ok, e' := EmitAndCheck(e, 73, value, maxBytes);
        if ok {
          cellMinMv := value;
          assert View() == old(View())[73 := value];
        }
      }
    }

    method SyncWarning(e: Emission, value: byte, force: bool, maxBytes: nat, ghost target: Screen)
      returns (e': Emission)
      requires Valid() && target[74] == value
      modifies this`warningLevel
      ensures (e', View()) == Visit(e, old(View()), target, force, 74, maxBytes)
    {
      e' := e;
      if force || value != warningLevel {
        var ok;
        ok, e' := EmitAndCheck(e, 74, value, maxBytes);
        if ok {
          warningLevel := value;
          assert View() == old(View())[74 := value];
        }
      }
    }

    /** The three loops over the cells. */
    method SyncCells(comp: BmsComputed, raw: BmsPackData, force: bool, maxBytes: nat) returns (e: Emission)
      requires Valid()
      modifies cellVoltageMv, cellBarFill, balanceFlag
      ensures (e, View()) == VisitAll(old(View()), Target(comp, raw), force, maxBytes, 0, CELL_FIELDS)
    {
      hide Target, Visit, View;
      ghost var view0, target := View(), Target(comp, raw);
      TargetOfCells(comp, raw);
      e := Emission([], 0, false);
      for i := 0 to CELL_COUNT
        invariant (e, View()) == VisitAll(view0, target, force, maxBytes, 0, i)
      {
        e := SyncVoltage(e, i, raw.cellVoltageMv[i], force, maxBytes, target);
      }
      for i := 0 to CELL_COUNT
        invariant (e, View()) == VisitAll(view0, target, force, maxBytes, 0, 24 + i)
      {
        e := SyncFill(e, i, CellBarFill(raw.cellVoltageMv[i]), force, maxBytes, target);
      }
      for i := 0 to CELL_COUNT
        invariant (e, View()) == VisitAll(view0, target, force, maxBytes, 0, 48 + i)
      {
        e := SyncBalance(e, i, if comp.balanceFlag[i] then 1 else 0, force, maxBytes, target);
      }
    }

    /** The three summary fields. */
    method SyncSummary(e0: Emission, comp: BmsComputed, raw: BmsPackData, force: bool, maxBytes: nat,
                       ghost view0: Screen, ghost lo: nat)
      returns (e: Emission)
      requires Valid() && lo <= CELL_FIELDS
      requires (e0, View()) == VisitAll(view0, Target(comp, raw), force, maxBytes, lo, CELL_FIELDS)
      modifies this`cellMaxMv, this`cellMinMv, this`warningLevel
      ensures (e, View()) == VisitAll(view0, Target(comp, raw), force, maxBytes, lo, FIELD_COUNT)
    {
      ghost var target := Target(comp, raw);
      ghost var max, min, warn := CELL_FIELDS, CELL_FIELDS + 1, CELL_FIELDS + 2;
      e := SyncMax(e0, comp.cellMaxMv, force, maxBytes, target);
      assert (e, View()) == VisitAll(view0, target, force, maxBytes, lo, max + 1);
      e := SyncMin(e, comp.cellMinMv, force, maxBytes, target);
      assert (e, View()) == VisitAll(view0, target, force, maxBytes, lo, min + 1);
      e := SyncWarning(e, comp.warningLevel, force, maxBytes, target);
      assert (e, View()) == VisitAll(view0, target, force, maxBytes, lo, warn + 1);
    }

    /** `buildBmsNextionCommands`: the emitted commands and the new cache are those of `Sent`. */
    method BuildCommands(comp: BmsComputed, raw: BmsPackData, force: bool, updateCells: bool, maxBytes: nat)
      returns (cmds: seq<string>)
      requires Valid()
      modifies this, cellVoltageMv, cellBarFill, balanceFlag
      ensures Valid()
      ensures var view0, target := old(View()), Target(comp, raw);
              var fields := Sent(view0, target, old(isWarm), force, updateCells, maxBytes);
              && cmds == Commands(target, fields)
              && View() == Applied(view0, target, fields)
              && isWarm == (old(isWarm) || AllSent(view0, target, old(isWarm), force, updateCells, maxBytes))
              && (AllSent(view0, target, old(isWarm), force, updateCells, maxBytes) ==>
                   && ShowsSummary(View(), comp)
                   && (!old(isWarm) || force || updateCells ==> Shows(View(), comp, raw)))
    {
      ghost var view0, lo := View(), FirstField(isWarm, force, updateCells);
      var e := Emission([], 0, false);
      if updateCells || force || !isWarm {
        e := SyncCells(comp, raw, force, maxBytes);
      }
      e := SyncSummary(e, comp, raw, force, maxBytes, view0, lo);
      VisitsSendLongestPrefix(view0, Target(comp, raw), force, maxBytes, lo, FIELD_COUNT);
      if AllSent(view0, Target(comp, raw), isWarm, force, updateCells, maxBytes) {
        CompleteCallShows(view0, comp, raw, isWarm, force, updateCells, maxBytes);
      }
      // A command was refused exactly when the budget was exhausted, so this is the source's allProcessed.
      if !e.exhausted {
        isWarm := true;
      }
      cmds := e.cmds;
    }
  }
}
