/** Pack interpretation: extremes, balancing, state of charge and warning level of 24 cells. */
module BmsAlgo {
  import opened Words
  import opened VehicleData

  const BALANCE_THRESHOLD_MV := 50
  const BALANCE_TOP_MARGIN_MV := 5
  const SOC_EMPTY_MV := 2500
  const SOC_FULL_MV := 3650
  const CELL_UNDERVOLT_CRIT_MV := 2500
  const CELL_OVERVOLT_CRIT_MV := 3650
  const TEMP_OVERTEMP_CRIT_C := 70
  const CELL_UNDERVOLT_WARN_MV := 2800
  const CELL_OVERVOLT_WARN_MV := 3550
  const TEMP_OVERTEMP_WARN_C := 55

  const WARN_OK: byte := 0
  const WARN_WARNING: byte := 1
  const WARN_CRITICAL: byte := 2
  const WARN_NO_DATA: byte := 3

  type Temps = s: seq<int16> | |s| == CELL_COUNT witness ZERO_CELLS
  type Flags = s: seq<bool> | |s| == CELL_COUNT witness NO_FLAGS

  const NO_FLAGS: seq<bool> := [
    false, false, false, false, false, false, false, false, false, false, false, false,
    false, false, false, false, false, false, false, false, false, false, false, false]

  datatype BmsPackData = BmsPackData(
    cellVoltageMv: Cells,
    cellTempC: Temps,
    packCurrentMa: int32,
    isValid: bool,
    cellDataValid: bool)

  datatype BmsComputed = BmsComputed(
    packVoltageMv: uint32,
    cellMaxMv: uint16,
    cellMinMv: uint16,
    cellMaxIndex: byte,
    cellMinIndex: byte,
    cellDeltaMv: uint16,
    socPercent: byte,
    balanceFlag: Flags,
    warningLevel: byte,
    tempMaxC: int16,
    tempMinC: int16)

  const ZERO_COMPUTED: BmsComputed := BmsComputed(0, 0, 0, 0, 0, 0, 0, NO_FLAGS, 0, 0, 0)

  function SocFromAvgMv(avg: uint32): (soc: byte)
    ensures soc <= 100
    ensures soc == 0 <== avg <= SOC_EMPTY_MV
    ensures soc == 100 <==> avg >= SOC_FULL_MV
    ensures IsPercentage(soc, avg)
  {
    if avg <= SOC_EMPTY_MV then 0
    else if avg >= SOC_FULL_MV then 100
    else (avg - SOC_EMPTY_MV) * 100 / (SOC_FULL_MV - SOC_EMPTY_MV)
  }

  /** The whole percentage of the way from 2500 to 3650 mV, rounded down and clamped outside. */
  predicate IsPercentage(percent: int, mv: int) {
    if mv <= 2500 then percent == 0
    else if mv >= 3650 then percent == 100
    else percent * 1150 <= (mv - 2500) * 100 < (percent + 1) * 1150
  }

  function Sum(s: seq<uint16>): (n: nat)
    ensures n <= |s| * 0xFFFF
  {
    if s == [] then 0 else Sum(s[..|s| - 1]) + s[|s| - 1]
  }

  ghost predicate IsMax(s: seq<int>, m: int) {
    m in s && forall i :: 0 <= i < |s| ==> s[i] <= m
  }

  ghost predicate IsMin(s: seq<int>, m: int) {
    m in s && forall i :: 0 <= i < |s| ==> m <= s[i]
  }

  /** The first position that holds `v`. */
  ghost predicate IsFirst(s: seq<int>, i: nat, v: int) {
    i < |s| && s[i] == v && forall k :: 0 <= k < i ==> s[k] != v
  }

  predicate CellCritical(minMv: int, maxMv: int, tempMax: int) {
    minMv < CELL_UNDERVOLT_CRIT_MV || maxMv > CELL_OVERVOLT_CRIT_MV || tempMax >= TEMP_OVERTEMP_CRIT_C
  }

  predicate CellWarning(minMv: int, maxMv: int, tempMax: int) {
    minMv < CELL_UNDERVOLT_WARN_MV || maxMv > CELL_OVERVOLT_WARN_MV || tempMax >= TEMP_OVERTEMP_WARN_C
  }

  /** The balancing rule: with a spread above the threshold, the cells within the margin of the highest one. */
  ghost predicate BalancesTop(cells: Cells, flags: Flags, minMv: int, maxMv: int) {
    forall i :: 0 <= i < CELL_COUNT ==>
      (flags[i] <==> maxMv - minMv > BALANCE_THRESHOLD_MV && cells[i] >= maxMv - BALANCE_TOP_MARGIN_MV)
  }

  /** What `computePack` promises for valid cell data. */
  ghost predicate Interprets(pack: BmsPackData, c: BmsComputed) {
    var cells, temps := pack.cellVoltageMv, pack.cellTempC;
    && IsMax(cells, c.cellMaxMv) && IsMin(cells, c.cellMinMv)
    && IsFirst(cells, c.cellMaxIndex, c.cellMaxMv) && IsFirst(cells, c.cellMinIndex, c.cellMinMv)
    && c.cellDeltaMv == c.cellMaxMv - c.cellMinMv
    && IsMax(temps, c.tempMaxC) && IsMin(temps, c.tempMinC)
    && c.packVoltageMv == Sum(cells)
    && c.socPercent == SocFromAvgMv(Sum(cells) / CELL_COUNT)
    && BalancesTop(cells, c.balanceFlag, c.cellMinMv, c.cellMaxMv)
    && c.warningLevel == (if CellCritical(c.cellMinMv, c.cellMaxMv, c.tempMaxC) then WARN_CRITICAL
                          else if CellWarning(c.cellMinMv, c.cellMaxMv, c.tempMaxC) then WARN_WARNING
                          else WARN_OK)
  }

  lemma SumOfPrefix(cells: Cells, i: nat)
    requires i < CELL_COUNT
    ensures Sum(cells[..0]) == 0 && Sum(cells[..i + 1]) == Sum(cells[..i]) + cells[i]
  {
    assert cells[..i + 1][..i] == cells[..i];
  }

  /** The single scan over the cells. */
  method Scan(cells: Cells, temps: Temps)
    returns (sum: uint32, maxMv: uint16, minMv: uint16, maxIdx: byte, minIdx: byte, tMax: int16, tMin: int16)
    ensures sum == Sum(cells)
    ensures IsMax(cells, maxMv) && IsMin(cells, minMv)
    ensures IsFirst(cells, maxIdx, maxMv) && IsFirst(cells, minIdx, minMv)
    ensures IsMax(temps, tMax) && IsMin(temps, tMin)
  {
    hide Sum;
    SumOfPrefix(cells, 0);
    sum, maxMv, minMv, maxIdx, minIdx := 0, cells[0], cells[0], 0, 0;
    tMax, tMin := temps[0], temps[0];
    for i := 0 to CELL_COUNT
      invariant sum == Sum(cells[..i])
      invariant maxIdx < CELL_COUNT && minIdx < CELL_COUNT
      invariant maxIdx <= i && minIdx <= i
      invariant cells[maxIdx] == maxMv && cells[minIdx] == minMv
      invariant forall k :: 0 <= k < i ==> minMv <= cells[k] <= maxMv
      invariant forall k :: 0 <= k < maxIdx ==> cells[k] < maxMv
      invariant forall k :: 0 <= k < minIdx ==> cells[k] > minMv
      invariant tMax in temps && tMin in temps
      invariant forall k :: 0 <= k < i ==> tMin <= temps[k] <= tMax
    {
      var v := cells[i];
      SumOfPrefix(cells, i);
      sum := sum + v;
      if v > maxMv {
        maxMv, maxIdx := v, i;
      }
      if v < minMv {
        minMv, minIdx := v, i;
      }
      var t := temps[i];
      if t > tMax {
        tMax := t;
      }
      if t < tMin {
        tMin := t;
      }
    }
    assert cells[..CELL_COUNT] == cells;
  }

  method MarkBalance(cells: Cells, minMv: uint16, maxMv: uint16) returns (flags: Flags)
    requires IsMax(cells, maxMv) && IsMin(cells, minMv)
    ensures BalancesTop(cells, flags, minMv, maxMv)
  {
    flags := NO_FLAGS;
    if maxMv - minMv > BALANCE_THRESHOLD_MV {
      var lowBound := if maxMv > BALANCE_TOP_MARGIN_MV then maxMv - BALANCE_TOP_MARGIN_MV else 0;
      for i := 0 to CELL_COUNT
        invariant forall k :: 0 <= k < CELL_COUNT ==> (flags[k] <==> k < i && cells[k] >= lowBound)
      {
        if cells[i] >= lowBound {
          flags := flags[i := true];
        }
      }
    }
  }

  method ComputePack(pack: BmsPackData) returns (c: BmsComputed)
    ensures !pack.isValid ==> c == ZERO_COMPUTED.(warningLevel := WARN_CRITICAL)
    ensures pack.isValid && !pack.cellDataValid ==> c == ZERO_COMPUTED.(warningLevel := WARN_NO_DATA)
    ensures pack.isValid && pack.cellDataValid ==>
              Interprets(pack, c) && IsPercentage(c.socPercent, Sum(pack.cellVoltageMv) / 24)
  {
    if !pack.isValid {
      return ZERO_COMPUTED.(warningLevel := WARN_CRITICAL);
    }
    if !pack.cellDataValid {
      return ZERO_COMPUTED.(warningLevel := WARN_NO_DATA);
    }
    var sum, maxMv, minMv, maxIdx, minIdx, tMax, tMin := Scan(pack.cellVoltageMv, pack.cellTempC);
    var flags := MarkBalance(pack.cellVoltageMv, minMv, maxMv);
    var level := WARN_OK;
    if minMv < CELL_UNDERVOLT_CRIT_MV || maxMv > CELL_OVERVOLT_CRIT_MV || tMax >= TEMP_OVERTEMP_CRIT_C {
      level := WARN_CRITICAL;
    } else if minMv < CELL_UNDERVOLT_WARN_MV || maxMv > CELL_OVERVOLT_WARN_MV || tMax >= TEMP_OVERTEMP_WARN_C {
      level := WARN_WARNING;
    }
    c := BmsComputed(sum, maxMv, minMv, maxIdx, minIdx, maxMv - minMv, SocFromAvgMv(sum / CELL_COUNT),
                     flags, level, tMax, tMin);
  }

  /** Some cell is balanced exactly when the spread exceeds the threshold, and a lowest cell never is. */
  lemma BalancingSparesTheLowest(pack: BmsPackData, c: BmsComputed)
    requires Interprets(pack, c)
    ensures (exists i :: 0 <= i < CELL_COUNT && c.balanceFlag[i]) <==> c.cellDeltaMv > BALANCE_THRESHOLD_MV
    ensures forall i :: 0 <= i < CELL_COUNT && pack.cellVoltageMv[i] == c.cellMinMv ==> !c.balanceFlag[i]
  {
    if c.cellDeltaMv > BALANCE_THRESHOLD_MV {
      assert c.balanceFlag[c.cellMaxIndex];
    }
  }

  /** The sum is additive over cells. */
  lemma {:induction false} SumAdds(a: seq<uint16>, b: seq<uint16>)
    ensures Sum(a + b) == Sum(a) + Sum(b)
    ensures a == [] ==> Sum(a) == 0
    ensures |a| == 1 ==> Sum(a) == a[0]
  {
    if |a| == 1 {
      assert a[..0] == [];
    }
    if b == [] {
      assert a + b == a;
    } else {
      SumAdds(a, b[..|b| - 1]);
      assert (a + b)[..|a + b| - 1] == a + b[..|b| - 1];
    }
  }

  ghost predicate SomeCell(cells: Cells, below: int, above: int) {
    exists i :: 0 <= i < 24 && (cells[i] < below || cells[i] > above)
  }

  ghost predicate SomeTemp(temps: Temps, least: int) {
    exists i :: 0 <= i < 24 && temps[i] >= least
  }

  /** The warning level, from the cells and temperatures themselves. */
  lemma ReportedLevel(pack: BmsPackData, c: BmsComputed)
    requires Interprets(pack, c)
    ensures c.warningLevel ==
            if SomeCell(pack.cellVoltageMv, 2500, 3650) || SomeTemp(pack.cellTempC, 70) then 2
            else if SomeCell(pack.cellVoltageMv, 2800, 3550) || SomeTemp(pack.cellTempC, 55) then 1
            else 0
  {
    hide SocFromAvgMv, Sum, BalancesTop;
    var cells, temps := pack.cellVoltageMv, pack.cellTempC;
    CellOutside(cells, c.cellMinMv, c.cellMaxMv, 2500, 3650);
    CellOutside(cells, c.cellMinMv, c.cellMaxMv, 2800, 3550);
    TempReached(temps, c.tempMaxC, 70);
    TempReached(temps, c.tempMaxC, 55);
  }

  lemma CellOutside(cells: Cells, minMv: int, maxMv: int, below: int, above: int)
    requires IsMin(cells, minMv) && IsMax(cells, maxMv)
    ensures SomeCell(cells, below, above) <==> minMv < below || maxMv > above
  {
    var i :| 0 <= i < |cells| && cells[i] == minMv;
    var j :| 0 <= j < |cells| && cells[j] == maxMv;
    assert |cells| == 24;
  }

  lemma TempReached(temps: Temps, tempMax: int, least: int)
    requires IsMax(temps, tempMax)
    ensures SomeTemp(temps, least) <==> tempMax >= least
  {
    var i :| 0 <= i < |temps| && temps[i] == tempMax;
    assert |temps| == 24;
  }

  /** The balancing flags, from the cells themselves: a cell is discharged when some two cells differ by more than
      50 mV and no cell is more than 5 mV above it. */
  lemma ReportedBalance(pack: BmsPackData, c: BmsComputed, i: nat)
    requires Interprets(pack, c) && i < 24
    ensures var cells := pack.cellVoltageMv;
            c.balanceFlag[i] <==>
            && (exists j, k :: 0 <= j < 24 && 0 <= k < 24 && cells[j] as int > cells[k] as int + 50)
            && (forall j :: 0 <= j < 24 ==> cells[j] as int <= cells[i] as int + 5)
  {
    hide SocFromAvgMv, Sum;
    var cells := pack.cellVoltageMv;
    assert cells[c.cellMaxIndex] == c.cellMaxMv && cells[c.cellMinIndex] == c.cellMinMv;
    assert |cells| == 24;
  }

  /** Without cell data nothing is shown or discharged. */
  lemma NoDataShowsNothing()
    ensures var c := ZERO_COMPUTED;
            && c.packVoltageMv == 0 && c.cellMaxMv == c.cellMinMv == 0 && c.cellMaxIndex == c.cellMinIndex == 0
            && c.cellDeltaMv == 0 && c.socPercent == 0 && c.tempMaxC == c.tempMinC == 0
            && forall i :: 0 <= i < 24 ==> !c.balanceFlag[i]
    ensures WARN_CRITICAL == 2 && WARN_NO_DATA == 3
  {
  }

  lemma {:induction false} SumMonotone(a: seq<uint16>, b: seq<uint16>)
    requires |a| == |b| && forall i :: 0 <= i < |a| ==> a[i] <= b[i]
    ensures Sum(a) <= Sum(b)
  {
    if a != [] {
      SumMonotone(a[..|a| - 1], b[..|b| - 1]);
    }
  }

  lemma SocFromAvgMonotone(a: uint32, b: uint32)
    requires a <= b
    ensures SocFromAvgMv(a) <= SocFromAvgMv(b)
  {
    if SOC_EMPTY_MV < a && b < SOC_FULL_MV {
      assert (a - SOC_EMPTY_MV) * 100 <= (b - SOC_EMPTY_MV) * 100;
    }
  }

  /** Raising any cells never lowers the reported state of charge. */
  lemma SocNeverFallsWhenCellsRise(p: BmsPackData, cp: BmsComputed, q: BmsPackData, cq: BmsComputed)
    requires Interprets(p, cp) && Interprets(q, cq)
    requires forall i :: 0 <= i < CELL_COUNT ==> p.cellVoltageMv[i] <= q.cellVoltageMv[i]
    ensures cp.socPercent <= cq.socPercent <= 100
  {
    SumMonotone(p.cellVoltageMv, q.cellVoltageMv);
    SocFromAvgMonotone(Sum(p.cellVoltageMv) / CELL_COUNT, Sum(q.cellVoltageMv) / CELL_COUNT);
  }

  /** The promises of `computePack` leave no freedom. */
  lemma InterpretationIsUnique(pack: BmsPackData, c: BmsComputed, d: BmsComputed)
    requires Interprets(pack, c) && Interprets(pack, d)
    ensures c == d
  {
    assert c.cellMaxIndex == d.cellMaxIndex && c.cellMinIndex == d.cellMinIndex by {
      assert c.cellMaxMv == d.cellMaxMv && c.cellMinMv == d.cellMinMv;
      var cells := pack.cellVoltageMv;
      assert cells[c.cellMaxIndex] == c.cellMaxMv && cells[d.cellMaxIndex] == c.cellMaxMv;
      assert cells[c.cellMinIndex] == c.cellMinMv && cells[d.cellMinIndex] == c.cellMinMv;
    }
    assert c.balanceFlag == d.balanceFlag;
  }
}
