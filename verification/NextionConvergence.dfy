/** What the screen synchronisation achieves over several calls, and what the commands mean to the screen. */
module NextionConvergence {
  import opened Words
  import opened Decimal
  import opened BmsNextionPacket
  import BmsAlgo

  const MAX_COMMAND_BYTES := 20

  /** The cache after one call. */
  function After(view: Screen, target: Screen, warm: bool, force: bool, updateCells: bool, maxBytes: nat): Screen {
    Applied(view, target, Sent(view, target, warm, force, updateCells, maxBytes))
  }

  /** The fields whose cached value differs from the target. */
  function Stale(view: Screen, target: Screen): (fields: seq<nat>)
    ensures AreFields(fields)
  {
    Pending(view, target, false, 0, FIELD_COUNT)
  }

  /** The bar shows the state-of-charge map of the cell's voltage, except that the no-data value empties it. */
  lemma BarFollowsSocMap(mv: uint16)
    ensures CellBarFill(mv) == if mv == NO_DATA_MV then 0 else BmsAlgo.SocFromAvgMv(mv)
  {
  }

  // ---------------------------------------------------------------- the prefix is the longest one

  lemma {:induction false} CostOfPrefix(target: Screen, fields: seq<nat>, k: nat)
    requires AreFields(fields) && k <= |fields|
    ensures Cost(target, fields[..k]) + (|fields| - k) <= Cost(target, fields)
  {
    if k == |fields| {
      assert fields[..k] == fields;
    } else {
      var shorter := fields[..|fields| - 1];
      CostOfPrefix(target, shorter, k);
      assert shorter[..k] == fields[..k];
    }
  }

  /** A prefix is affordable exactly when it is no longer than the one that is sent. */
  lemma {:induction false} SentIsLongestAffordable(target: Screen, fields: seq<nat>, maxBytes: nat, k: nat)
    requires AreFields(fields) && k <= |fields|
    ensures Cost(target, fields[..k]) <= maxBytes <==> k <= Fit(target, fields, maxBytes)
  {
    if Cost(target, fields) <= maxBytes {
      CostOfPrefix(target, fields, k);
    } else if k == |fields| {
      assert fields[..k] == fields;
    } else {
      var shorter := fields[..|fields| - 1];
      SentIsLongestAffordable(target, shorter, maxBytes, k);
      assert shorter[..k] == fields[..k];
    }
  }

  /** The bytes that commands take on the wire: each text and its three end bytes. */
  function WireBytes(cmds: seq<string>): nat {
    if cmds == [] then 0 else WireBytes(cmds[..|cmds| - 1]) + |cmds[|cmds| - 1]| + 3
  }

  lemma {:induction false} CostIsWireBytes(target: Screen, fields: seq<nat>)
    requires AreFields(fields)
    ensures Cost(target, fields) == WireBytes(Commands(target, fields))
  {
    if fields != [] {
      var last, earlier := fields[|fields| - 1], Commands(target, fields[..|fields| - 1]);
      CostIsWireBytes(target, fields[..|fields| - 1]);
      assert (earlier + [Command(last, target[last])])[..|earlier|] == earlier;
    }
  }

  /** No call puts more bytes on the wire than its budget, whatever its inputs. */
  lemma CallsStayInBudget(view: Screen, target: Screen, warm: bool, force: bool, updateCells: bool, maxBytes: nat)
    ensures WireBytes(Commands(target, Sent(view, target, warm, force, updateCells, maxBytes))) <= maxBytes
  {
    CostIsWireBytes(target, Sent(view, target, warm, force, updateCells, maxBytes));
    FitCuts(target, Pending(view, target, force, FirstField(warm, force, updateCells), FIELD_COUNT), maxBytes);
  }

  // ---------------------------------------------------------------- each call removes what it sent

  lemma {:induction false} PendingGrows(view: Screen, target: Screen, force: bool, lo: nat, mid: nat, hi: nat)
    requires mid <= hi <= FIELD_COUNT
    ensures Pending(view, target, force, lo, mid) <= Pending(view, target, force, lo, hi)
  {
    if mid < hi {
      PendingGrows(view, target, force, lo, mid, hi - 1);
    }
  }

  /** Among increasing fields, a prefix holds exactly those at its positions. */
  lemma PrefixHolds(view: Screen, target: Screen, n: nat, f: nat)
    requires f < FIELD_COUNT && view[f] != target[f] && n <= |Stale(view, target)|
    ensures f in Stale(view, target)[..n] <==> |Pending(view, target, false, 0, f)| < n
  {
    var all, before := Stale(view, target), Pending(view, target, false, 0, f);
    PendingGrows(view, target, false, 0, f + 1, FIELD_COUNT);
    assert Pending(view, target, false, 0, f + 1) == before + [f];
    assert all[|before|] == f;
    if |before| < n {
      assert all[..n][|before|] == f;
    } else {
      assert forall i :: 0 <= i < n ==> all[i] == before[i];
    }
  }

  lemma StaleStep(view: Screen, after: Screen, target: Screen, n: nat, hi: nat)
    requires 0 < hi <= FIELD_COUNT
    requires var was := Pending(view, target, false, 0, hi - 1);
             && Pending(after, target, false, 0, hi - 1) == (if |was| <= n then [] else was[n..])
             && (view[hi - 1] == target[hi - 1] ==> after[hi - 1] == target[hi - 1])
             && (view[hi - 1] != target[hi - 1] ==> after[hi - 1] == if |was| < n then target[hi - 1] else view[hi - 1])
    ensures var was := Pending(view, target, false, 0, hi);
            Pending(after, target, false, 0, hi) == if |was| <= n then [] else was[n..]
  {
  }

  /** Bringing the first n stale fields to their target leaves the others stale, in order. */
  lemma {:induction false} StaleAfterPrefix(view: Screen, target: Screen, n: nat, hi: nat)
    requires hi <= FIELD_COUNT && n <= |Stale(view, target)|
    ensures var after := Applied(view, target, Stale(view, target)[..n]);
            var was := Pending(view, target, false, 0, hi);
            Pending(after, target, false, 0, hi) == if |was| <= n then [] else was[n..]
  {
    hide Applied, Stale;
    if hi > 0 {
      hide Pending;
      StaleAfterPrefix(view, target, n, hi - 1);
      AppliedAt(view, target, Stale(view, target)[..n], hi - 1);
      if view[hi - 1] != target[hi - 1] {
        PrefixHolds(view, target, n, hi - 1);
      }
      StaleStep(view, Applied(view, target, Stale(view, target)[..n]), target, n, hi);
    }
  }

  /** One cell call with force off leaves stale exactly the fields that it could not afford. */
  lemma CallRemovesSentFields(view: Screen, target: Screen, warm: bool, maxBytes: nat)
    ensures Stale(After(view, target, warm, false, true, maxBytes), target)
            == Stale(view, target)[|Sent(view, target, warm, false, true, maxBytes)|..]
  {
    var all := Stale(view, target);
    StaleAfterPrefix(view, target, Fit(target, all, maxBytes), FIELD_COUNT);
  }

  // ---------------------------------------------------------------- progress and convergence

  lemma FieldNameLength(f: nat)
    requires f < FIELD_COUNT
    ensures |FieldName(f)| <= 7 && (f < 72 ==> |FieldName(f)| <= 6)
  {
    var i := if f < 24 then f else if f < 48 then f - 24 else f - 48;
    if f < 72 {
      assert i < Pow10(2);
      DecLength(i, 2);
    }
  }

  /** Every command fits the 40-byte buffer with room to spare, and costs at most 20 bytes. */
  lemma CommandsAreShort(f: nat, value: uint16)
    requires f < FIELD_COUNT
    ensures CommandBytes(f, value) <= MAX_COMMAND_BYTES
  {
    FieldNameLength(f);
    assert value < Pow10(5);
    DecLength(value, 5);
  }

  lemma {:induction false} CostIsSmall(target: Screen, fields: seq<nat>)
    requires AreFields(fields)
    ensures Cost(target, fields) <= MAX_COMMAND_BYTES * |fields|
  {
    if fields != [] {
      var last := fields[|fields| - 1];
      CostIsSmall(target, fields[..|fields| - 1]);
      CommandsAreShort(last, target[last]);
    }
  }

  /** A budget of 20k bytes sends at least k of the pending fields. */
  lemma BudgetSendsMany(target: Screen, fields: seq<nat>, maxBytes: nat, k: nat)
    requires AreFields(fields) && MAX_COMMAND_BYTES * k <= maxBytes
    ensures Fit(target, fields, maxBytes) >= if k <= |fields| then k else |fields|
  {
    var m := if k <= |fields| then k else |fields|;
    CostIsSmall(target, fields[..m]);
    SentIsLongestAffordable(target, fields, maxBytes, m);
  }

  /** With a budget of at least 20 bytes the number of stale fields strictly falls until it is zero. */
  lemma StaleCountFalls(view: Screen, target: Screen, warm: bool, maxBytes: nat)
    requires maxBytes >= MAX_COMMAND_BYTES && Stale(view, target) != []
    ensures |Stale(After(view, target, warm, false, true, maxBytes), target)| < |Stale(view, target)|
  {
    CallRemovesSentFields(view, target, warm, maxBytes);
    BudgetSendsMany(target, Stale(view, target), maxBytes, 1);
  }

  /** For any budget at all, a call makes progress exactly when the first stale field's command is affordable. */
  lemma ProgressIffFirstFits(view: Screen, target: Screen, warm: bool, maxBytes: nat)
    requires Stale(view, target) != []
    ensures Sent(view, target, warm, false, true, maxBytes) != [] <==>
            CommandBytes(Stale(view, target)[0], target[Stale(view, target)[0]]) <= maxBytes
  {
    var fields := Stale(view, target);
    SentIsLongestAffordable(target, fields, maxBytes, 1);
    assert fields[..1] == [fields[0]] && [fields[0]][..0] == [];
  }

  /** The cache after k cell calls with the default budget; the warm flag of each call is arbitrary. */
  function AfterCalls(view: Screen, target: Screen, warm: seq<bool>): Screen {
    if warm == [] then view
    else
      After(AfterCalls(view, target, warm[..|warm| - 1]), target, warm[|warm| - 1], false, true, DEFAULT_BUDGET)
  }

  lemma {:induction false} EachCallFixesFour(view: Screen, target: Screen, warm: seq<bool>)
    ensures |Stale(AfterCalls(view, target, warm), target)| <=
            if |Stale(view, target)| <= 4 * |warm| then 0 else |Stale(view, target)| - 4 * |warm|
  {
    if warm != [] {
      var before := AfterCalls(view, target, warm[..|warm| - 1]);
      EachCallFixesFour(view, target, warm[..|warm| - 1]);
      CallRemovesSentFields(before, target, warm[|warm| - 1], DEFAULT_BUDGET);
      BudgetSendsMany(target, Stale(before, target), DEFAULT_BUDGET, 4);
    }
  }

  lemma {:induction false} NothingStaleMeansEqual(view: Screen, target: Screen, hi: nat)
    requires hi <= FIELD_COUNT && Pending(view, target, false, 0, hi) == []
    ensures view[..hi] == target[..hi]
  {
    if hi > 0 {
      NothingStaleMeansEqual(view, target, hi - 1);
      assert view[..hi] == view[..hi - 1] + [view[hi - 1]];
    }
  }

  /** With fixed inputs, 19 cell calls of 90 bytes synchronise all 75 fields, and from then on nothing is sent. */
  lemma NineteenCallsSynchronise(view: Screen, target: Screen, warm: seq<bool>)
    requires |warm| >= 19
    ensures AfterCalls(view, target, warm) == target
    ensures forall w, cells, maxBytes :: Sent(AfterCalls(view, target, warm), target, w, false, cells, maxBytes) == []
  {
    var after := AfterCalls(view, target, warm);
    EachCallFixesFour(view, target, warm);
    NothingStaleMeansEqual(after, target, FIELD_COUNT);
    assert after[..FIELD_COUNT] == after && target[..FIELD_COUNT] == target;
    forall w, cells, maxBytes: nat
      ensures Sent(after, target, w, false, cells, maxBytes) == []
    {
      NothingPending(target, FirstField(w, false, cells), FIELD_COUNT);
    }
  }

  lemma {:induction false} NothingPending(view: Screen, lo: nat, hi: nat)
    requires hi <= FIELD_COUNT
    ensures Pending(view, view, false, lo, hi) == []
  {
    if hi > lo {
      NothingPending(view, lo, hi - 1);
    }
  }

  // ---------------------------------------------------------------- when forcing every call converges

  function FirstFields(n: nat): (fields: seq<nat>)
    requires n <= FIELD_COUNT
    ensures |fields| == n && forall i :: 0 <= i < n ==> fields[i] == i
  {
    if n == 0 then [] else FirstFields(n - 1) + [n - 1]
  }

  lemma {:induction false} ForcedPendingIsAll(view: Screen, target: Screen, hi: nat)
    requires hi <= FIELD_COUNT
    ensures Pending(view, target, true, 0, hi) == FirstFields(hi)
  {
    if hi > 0 {
      ForcedPendingIsAll(view, target, hi - 1);
    }
  }

  function ForcedCalls(view: Screen, target: Screen, k: nat, maxBytes: nat): Screen {
    if k == 0 then view else After(ForcedCalls(view, target, k - 1, maxBytes), target, true, true, true, maxBytes)
  }

  /** Forced calls resend the same prefix for ever: a field beyond it keeps its value however many calls are made. */
  lemma {:induction false} ForcedCallsStarve(view: Screen, target: Screen, k: nat, maxBytes: nat, f: nat)
    requires Fit(target, FirstFields(FIELD_COUNT), maxBytes) <= f < FIELD_COUNT
    ensures ForcedCalls(view, target, k, maxBytes)[f] == view[f]
  {
    hide Pending, Applied, Fit;
    if k > 0 {
      ForcedCallsStarve(view, target, k - 1, maxBytes, f);
      var before, n := ForcedCalls(view, target, k - 1, maxBytes), Fit(target, FirstFields(FIELD_COUNT), maxBytes);
      ForcedPendingIsAll(before, target, FIELD_COUNT);
      AppliedAt(before, target, FirstFields(FIELD_COUNT)[..n], f);
    }
  }

  /** Forced calls bring the screen up to date exactly when every field beyond the resent prefix already was. */
  lemma ForcedCallsConvergeIff(view: Screen, target: Screen, k: nat, maxBytes: nat)
    requires k > 0
    ensures ForcedCalls(view, target, k, maxBytes) == target <==>
            forall f :: Fit(target, FirstFields(FIELD_COUNT), maxBytes) <= f < FIELD_COUNT ==> view[f] == target[f]
  {
    var before, n := ForcedCalls(view, target, k - 1, maxBytes), Fit(target, FirstFields(FIELD_COUNT), maxBytes);
    forall f | 0 <= f < FIELD_COUNT
      ensures ForcedCalls(view, target, k, maxBytes)[f] == if f < n then target[f] else view[f]
    {
      hide ForcedCalls, Fit;
      if f < n {
        ForcedPendingIsAll(before, target, FIELD_COUNT);
        AppliedAt(before, target, FirstFields(FIELD_COUNT)[..n], f);
        assert FirstFields(FIELD_COUNT)[..n][f] == f;
      } else {
        ForcedCallsStarve(view, target, k, maxBytes, f);
      }
    }
  }

  /** With the default budget the prefix is at most eight fields, so one stale warning is never repaired by
      forcing. */
  lemma ForcedCallsNeverConverge(view: Screen, target: Screen, k: nat)
    requires view[74] != target[74]
    ensures ForcedCalls(view, target, k, DEFAULT_BUDGET) != target
  {
    var fields := FirstFields(FIELD_COUNT);
    if Fit(target, fields, DEFAULT_BUDGET) >= 9 {
      SentIsLongestAffordable(target, fields, DEFAULT_BUDGET, 9);
      CostIsLarge(target, fields[..9]);
    }
    ForcedCallsStarve(view, target, k, DEFAULT_BUDGET, 74);
  }

  lemma {:induction false} CostIsLarge(target: Screen, fields: seq<nat>)
    requires AreFields(fields)
    ensures Cost(target, fields) >= 11 * |fields|
  {
    if fields != [] {
      CostIsLarge(target, fields[..|fields| - 1]);
    }
  }

  // ---------------------------------------------------------------- what the commands mean to the screen

  /** The component that a command names: everything before the first dot. */
  function NamePart(cmd: string): string {
    if cmd == "" || cmd[0] == '.' then "" else [cmd[0]] + NamePart(cmd[1..])
  }

  lemma {:induction false} NamePartOf(name: string, rest: string)
    requires '.' !in name
    ensures NamePart(name + "." + rest) == name
  {
    if name == "" {
      assert (name + "." + rest)[0] == '.';
    } else {
      var whole := name + "." + rest;
      assert whole[0] == name[0] && whole[1..] == name[1..] + "." + rest;
      NamePartOf(name[1..], rest);
      assert [name[0]] + name[1..] == name;
    }
  }

  lemma DecIsInjective(a: nat, b: nat)
    requires Dec(a) == Dec(b)
    ensures a == b
  {
    ValueOfDec(a);
    ValueOfDec(b);
  }

  lemma FieldNameHasNoDot(f: nat)
    requires f < FIELD_COUNT
    ensures '.' !in FieldName(f)
  {
  }

  lemma FieldNameShape(f: nat)
    requires f < FIELD_COUNT
    ensures var name := FieldName(f);
            if f < 24 then name[0] == 'c' && |name| > 4 && IsDigit(name[4]) && name[4..] == Dec(f)
            else if f < 48 then name[0] == 'j' && name[1..] == Dec(f - 24)
            else if f < 72 then name[0] == 'b' && |name| > 3 && name[3..] == Dec(f - 48)
            else if f < 74 then name[0] == 'c' && |name| > 5 && !IsDigit(name[4]) && (name[5] == 'a' <==> f == 72)
            else name[0] == 'w'
  {
  }

  lemma FieldNamesDiffer(f: nat, g: nat)
    requires f < FIELD_COUNT && g < FIELD_COUNT && FieldName(f) == FieldName(g)
    ensures f == g
  {
    FieldNameShape(f);
    FieldNameShape(g);
    if f < 24 {
      DecIsInjective(f, g);
    } else if f < 48 {
      DecIsInjective(f - 24, g - 24);
    } else if f < 72 {
      DecIsInjective(f - 48, g - 48);
    }
  }

  /** A command's text determines its field and its value. */
  lemma CommandsAreUnambiguous(f: nat, v: nat, g: nat, w: nat)
    requires f < FIELD_COUNT && g < FIELD_COUNT && Command(f, v) == Command(g, w)
    ensures f == g && v == w
  {
    hide FieldName;
    FieldNameHasNoDot(f);
    FieldNameHasNoDot(g);
    NamePartOf(FieldName(f), "val=" + Dec(v));
    NamePartOf(FieldName(g), "val=" + Dec(w));
    assert Command(f, v) == FieldName(f) + "." + ("val=" + Dec(v));
    assert Command(g, w) == FieldName(g) + "." + ("val=" + Dec(w));
    FieldNamesDiffer(f, g);
    var n := |FieldName(f)| + 5;
    assert Command(f, v)[n..] == Dec(v) && Command(g, w)[n..] == Dec(w);
    DecIsInjective(v, w);
  }

  ghost predicate Means(cmd: string, f: nat, v: uint16) {
    f < FIELD_COUNT && cmd == Command(f, v)
  }

  ghost predicate IsCommand(cmd: string) {
    exists f: nat, v: uint16 :: Means(cmd, f, v)
  }

  ghost function Meaning(cmd: string): (m: (nat, uint16))
    requires IsCommand(cmd)
    ensures Means(cmd, m.0, m.1)
  {
    var f: nat, v: uint16 :| Means(cmd, f, v);
    (f, v)
  }

  /** The screen after executing the text of one command; a text that means nothing changes nothing. */
  ghost function Execute(screen: Screen, cmd: string): Screen {
    if IsCommand(cmd) then screen[Meaning(cmd).0 := Meaning(cmd).1] else screen
  }

  ghost function ExecuteAll(screen: Screen, cmds: seq<string>): Screen {
    if cmds == [] then screen else Execute(ExecuteAll(screen, cmds[..|cmds| - 1]), cmds[|cmds| - 1])
  }

  lemma ExecuteCommand(screen: Screen, f: nat, v: uint16)
    requires f < FIELD_COUNT
    ensures Execute(screen, Command(f, v)) == screen[f := v]
  {
    var cmd := Command(f, v);
    assert Means(cmd, f, v);
    CommandsAreUnambiguous(f, v, Meaning(cmd).0, Meaning(cmd).1);
  }

  /** A screen that agreed with the cache still agrees with it after executing the emitted texts. */
  lemma {:induction false} ScreenFollowsCache(view: Screen, target: Screen, fields: seq<nat>)
    requires AreFields(fields)
    ensures ExecuteAll(view, Commands(target, fields)) == Applied(view, target, fields)
  {
    if fields != [] {
      var last := fields[|fields| - 1];
      var earlier := Commands(target, fields[..|fields| - 1]);
      ScreenFollowsCache(view, target, fields[..|fields| - 1]);
      assert (earlier + [Command(last, target[last])])[..|earlier|] == earlier;
      ExecuteCommand(ExecuteAll(view, earlier), last, target[last]);
    }
  }
}
