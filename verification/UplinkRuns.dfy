/** What the uplink scheduler keeps over whole runs: conservation, link memory, outage coverage. */
module UplinkRuns {
  import opened Words
  import opened VehicleData
  import opened OfflineBuffer
  import opened LinkMonitor
  import opened UplinkScheduler

  datatype Op =
    | RxByte(rxByte: byte, now: uint64)
    | Link(now: uint64)
    | Sample(now: uint64, pkt: TelemetryData)
    | Tx(haveLive: bool, live: TelemetryData, answers: seq<bool>)

  /** How a pushed packet left the ring. */
  datatype Fate = REPLAYED | OVERWRITTEN

  /** A run with its observable history. `fates[i]` is the fate of `pushes[i]`; later pushes are still buffered. */
  datatype Trace = Trace(
    final: Sched,
    pushes: seq<TelemetryData>,
    fates: seq<Fate>,
    replays: seq<TelemetryData>,
    transitions: seq<LinkTransition>)

  /** The packets that the sender accepted as replays. */
  function AcceptedReplays(attempts: seq<Attempt>): seq<TelemetryData> {
    if attempts == [] then []
    else
      var last := attempts[|attempts| - 1];
      AcceptedReplays(attempts[..|attempts| - 1])
      + if last.isReplay && last.accepted then [last.pkt] else []
  }

  function AllReplayed(r: nat): (fates: seq<Fate>)
    ensures |fates| == r && forall k :: 0 <= k < r ==> fates[k] == REPLAYED
  {
    if r == 0 then [] else AllReplayed(r - 1) + [REPLAYED]
  }

  function Extend(c: Config, boot: uint64, t: Trace, op: Op): Trace {
    match op
    case RxByte(b, now) => t.(final := AfterRxByte(c, t.final, b, now).0)
    case Link(now) =>
      var (s, tr) := AfterUpdateLink(c, t.final, now, boot);
      t.(final := s, transitions := if tr.changed then t.transitions + [tr] else t.transitions)
    case Sample(now, pkt) =>
      var (s, wrote) := AfterOfflineSample(c, t.final, now, pkt);
      if !wrote then t
      else t.(final := s,
              pushes := t.pushes + [pkt],
              fates := if |t.final.buffer| == OB_CAPACITY then t.fates + [OVERWRITTEN] else t.fates)
    case Tx(haveLive, live, answers) =>
      var r := ReplayCount(|t.final.buffer|, c.replayBurst, answers, 0);
      t.(final := AfterTxTick(c, t.final, answers),
         fates := t.fates + AllReplayed(r),
         replays := t.replays + AcceptedReplays(TickAttempts(c, t.final, haveLive, live, answers)))
  }

  function Execute(c: Config, boot: uint64, ops: seq<Op>): Trace {
    if ops == [] then Trace(INITIAL, [], [], [], [])
    else Extend(c, boot, Execute(c, boot, ops[..|ops| - 1]), ops[|ops| - 1])
  }

  // ---------------------------------------------------------------- conservation and order

  /** The pushes whose fate was to be replayed, in push order. */
  function ReplayedPushes(pushes: seq<TelemetryData>, fates: seq<Fate>): seq<TelemetryData>
    requires |fates| <= |pushes|
  {
    if fates == [] then []
    else
      var i := |fates| - 1;
      ReplayedPushes(pushes, fates[..i]) + if fates[i] == REPLAYED then [pushes[i]] else []
  }

  ghost predicate Conserved(t: Trace) {
    && |t.fates| <= |t.pushes|
    && t.final.buffer == t.pushes[|t.fates|..]
    && |t.final.buffer| <= 75
    && t.replays == ReplayedPushes(t.pushes, t.fates)
    && forall i :: 0 <= i < |t.fates| && t.fates[i] == OVERWRITTEN ==> i + 75 < |t.pushes|
  }

  lemma AcceptedReplaysMore(attempts: seq<Attempt>, pkt: TelemetryData)
    ensures AcceptedReplays(attempts + [Attempt(pkt, true, true)]) == AcceptedReplays(attempts) + [pkt]
  {
    assert (attempts + [Attempt(pkt, true, true)])[..|attempts|] == attempts;
  }

  lemma NothingAccepted()
    ensures AcceptedReplays([]) == []
  {
  }

  lemma {:induction false} AcceptedReplaysOfPrefix(buffer: seq<TelemetryData>, k: nat)
    requires k <= |buffer|
    ensures AcceptedReplays(Replayed(buffer, k)) == buffer[..k]
  {
    hide AcceptedReplays;
    if k == 0 {
      NothingAccepted();
    } else {
      AcceptedReplaysOfPrefix(buffer, k - 1);
      AcceptedReplaysMore(Replayed(buffer, k - 1), buffer[k - 1]);
      assert buffer[..k] == buffer[..k - 1] + [buffer[k - 1]];
    }
  }

  lemma AcceptedReplaysDropLast(attempts: seq<Attempt>, last: Attempt)
    requires !last.isReplay || !last.accepted
    ensures AcceptedReplays(attempts + [last]) == AcceptedReplays(attempts)
  {
    assert (attempts + [last])[..|attempts|] == attempts;
  }

  /** A tick's accepted replays are the packets that left the ring, oldest first. */
  lemma TickReplaysFront(c: Config, s: Sched, haveLive: bool, live: TelemetryData, answers: seq<bool>)
    ensures var r := ReplayCount(|s.buffer|, c.replayBurst, answers, 0);
            && AcceptedReplays(TickAttempts(c, s, haveLive, live, answers)) == s.buffer[..r]
            && AfterTxTick(c, s, answers).buffer == s.buffer[r..]
  {
    var r := ReplayCount(|s.buffer|, c.replayBurst, answers, 0);
    var accepted := Replayed(s.buffer, r);
    AcceptedReplaysOfPrefix(s.buffer, r);
    var replays := ReplayAttempts(s.buffer, c.replayBurst, answers);
    if r < |s.buffer| && r < c.replayBurst {
      AcceptedReplaysDropLast(accepted, Attempt(s.buffer[r], true, false));
    } else {
      assert replays == accepted;
    }
    if haveLive {
      AcceptedReplaysDropLast(replays, Attempt(live, false, Accepts(answers, |replays|)));
    } else {
      assert TickAttempts(c, s, haveLive, live, answers) == replays;
    }
  }

  lemma {:induction false} ReplayedPushesExtend(pushes: seq<TelemetryData>, fates: seq<Fate>, r: nat)
    requires |fates| + r <= |pushes|
    ensures ReplayedPushes(pushes, fates + AllReplayed(r))
            == ReplayedPushes(pushes, fates) + pushes[|fates|..|fates| + r]
  {
    var longer := fates + AllReplayed(r);
    if r == 0 {
      assert longer == fates;
    } else {
      ReplayedPushesExtend(pushes, fates, r - 1);
      assert longer[..|longer| - 1] == fates + AllReplayed(r - 1);
    }
  }

  lemma {:induction false} ReplayedPushesOfMore(pushes: seq<TelemetryData>, fates: seq<Fate>, x: TelemetryData)
    requires |fates| <= |pushes|
    ensures ReplayedPushes(pushes + [x], fates) == ReplayedPushes(pushes, fates)
  {
    if fates != [] {
      ReplayedPushesOfMore(pushes, fates[..|fates| - 1], x);
    }
  }

  lemma SampleConserves(c: Config, boot: uint64, t: Trace, now: uint64, pkt: TelemetryData)
    requires Conserved(t)
    ensures Conserved(Extend(c, boot, t, Sample(now, pkt)))
  {
    if AfterOfflineSample(c, t.final, now, pkt).1 {
      ReplayedPushesOfMore(t.pushes, t.fates, pkt);
      if |t.final.buffer| == OB_CAPACITY {
        assert (t.fates + [OVERWRITTEN])[..|t.fates|] == t.fates;
      }
    }
  }

  lemma TxKeepsOrder(t: Trace, r: nat, replays: seq<TelemetryData>)
    requires Conserved(t) && r <= |t.final.buffer| && replays == t.final.buffer[..r]
    ensures t.final.buffer[r..] == t.pushes[|t.fates| + r..]
    ensures t.replays + replays == ReplayedPushes(t.pushes, t.fates + AllReplayed(r))
  {
    var f := |t.fates|;
    ReplayedPushesExtend(t.pushes, t.fates, r);
    assert t.pushes[f..][r..] == t.pushes[f + r..] && t.pushes[f..][..r] == t.pushes[f..f + r];
  }

  lemma TxConserves(c: Config, boot: uint64, t: Trace, haveLive: bool, live: TelemetryData, answers: seq<bool>)
    requires Conserved(t)
    ensures Conserved(Extend(c, boot, t, Tx(haveLive, live, answers)))
  {
    hide TickAttempts, ReplayedPushes, AcceptedReplays;
    var r := ReplayCount(|t.final.buffer|, c.replayBurst, answers, 0);
    TickReplaysFront(c, t.final, haveLive, live, answers);
    TxKeepsOrder(t, r, AcceptedReplays(TickAttempts(c, t.final, haveLive, live, answers)));
    OldOverwritesOnly(t.fates, r);
  }

  lemma OldOverwritesOnly(fates: seq<Fate>, r: nat)
    ensures forall i :: 0 <= i < |fates + AllReplayed(r)| && (fates + AllReplayed(r))[i] == OVERWRITTEN ==>
              i < |fates| && fates[i] == OVERWRITTEN
  {
  }

  lemma ExtendConserves(c: Config, boot: uint64, t: Trace, op: Op)
    requires Conserved(t)
    ensures Conserved(Extend(c, boot, t, op))
  {
    match op
    case RxByte(b, now) =>
    case Link(now) =>
    case Sample(now, pkt) => SampleConserves(c, boot, t, now, pkt);
    case Tx(haveLive, live, answers) => TxConserves(c, boot, t, haveLive, live, answers);
  }

  /** Every pushed packet is exactly one of replayed, overwritten and buffered, by position: the accepted replays are
      the pushes with that fate, each once and in push order, the buffer is the rest in push order, and a packet is
      overwritten only after 75 younger ones were pushed. */
  lemma {:induction false} NothingIsLostOrDuplicated(c: Config, boot: uint64, ops: seq<Op>)
    ensures Conserved(Execute(c, boot, ops))
  {
    if ops != [] {
      NothingIsLostOrDuplicated(c, boot, ops[..|ops| - 1]);
      ExtendConserves(c, boot, Execute(c, boot, ops[..|ops| - 1]), ops[|ops| - 1]);
    }
  }

  // ---------------------------------------------------------------- draining

  /** The answers of a sender that accepts n attempts: burst + 1 of them last a whole tick. */
  function Willing(n: nat): (answers: seq<bool>)
    ensures |answers| == n && forall k :: 0 <= k < n ==> answers[k]
  {
    if n == 0 then [] else Willing(n - 1) + [true]
  }

  function AfterWillingTicks(c: Config, s: Sched, k: nat): Sched {
    if k == 0 then s else AfterTxTick(c, AfterWillingTicks(c, s, k - 1), Willing(c.replayBurst + 1))
  }

  lemma {:induction false} WillingTicksDropFront(c: Config, s: Sched, k: nat)
    ensures AfterWillingTicks(c, s, k).buffer == s.buffer[Min(|s.buffer|, k * c.replayBurst)..]
  {
    if k > 0 {
      WillingTicksDropFront(c, s, k - 1);
      var n, sent := |s.buffer|, (k - 1) * c.replayBurst;
      assert sent >= 0 && k * c.replayBurst == sent + c.replayBurst by { Distribute(k - 1, c.replayBurst); }
      WillingTickDropsFront(c, AfterWillingTicks(c, s, k - 1), s.buffer, Min(n, sent));
    }
  }

  lemma Distribute(k: nat, b: nat)
    ensures k * b >= 0 && (k + 1) * b == k * b + b
  {
  }

  lemma WillingTickDropsFront(c: Config, s: Sched, all: seq<TelemetryData>, before: nat)
    requires before <= |all| && s.buffer == all[before..]
    ensures AfterTxTick(c, s, Willing(c.replayBurst + 1)).buffer == all[Min(|all|, before + c.replayBurst)..]
  {
    var r := ReplayCount(|s.buffer|, c.replayBurst, Willing(c.replayBurst + 1), 0);
    assert r == Min(|s.buffer|, c.replayBurst);
    assert all[before..][r..] == all[before + r..];
  }

  /** With a willing sender, n packets need exactly the ceiling of n / burst ticks; with a burst of zero, never. */
  lemma DrainTakesCeilingTicks(c: Config, s: Sched, k: nat)
    ensures c.replayBurst > 0 ==>
              (AfterWillingTicks(c, s, k).buffer == [] <==>
               k >= (|s.buffer| + c.replayBurst - 1) / c.replayBurst)
    ensures c.replayBurst == 0 ==> AfterWillingTicks(c, s, k).buffer == s.buffer
  {
    WillingTicksDropFront(c, s, k);
    if c.replayBurst > 0 {
      CeilingDivision(|s.buffer|, c.replayBurst, k);
    }
  }

  lemma DivisionBounds(m: nat, d: nat)
    requires d > 0
    ensures m / d * d <= m < m / d * d + d
  {
    assert m == m / d * d + m % d;
  }

  lemma ProductsAreOrdered(a: int, b: int, d: nat)
    requires a <= b
    ensures a * d <= b * d
  {
    assert (b - a) * d >= 0;
    assert b * d == a * d + (b - a) * d;
  }

  lemma CeilingDivision(n: nat, d: nat, k: nat)
    requires d > 0
    ensures k * d >= n <==> k >= (n + d - 1) / d
  {
    var q := (n + d - 1) / d;
    DivisionBounds(n + d - 1, d);
    if k >= q {
      ProductsAreOrdered(q, k, d);
    } else {
      ProductsAreOrdered(k + 1, q, d);
      Distribute(k, d);
    }
  }

  /** Ticks with a willing sender, with any radio bytes and link updates between them. */
  predicate OnlyDrains(c: Config, ops: seq<Op>) {
    forall i :: 0 <= i < |ops| ==>
      && !ops[i].Sample?
      && (ops[i].Tx? ==> forall k :: 0 <= k < c.replayBurst ==> Accepts(ops[i].answers, k))
  }

  function CountTicks(ops: seq<Op>): nat {
    if ops == [] then 0 else CountTicks(ops[..|ops| - 1]) + if ops[|ops| - 1].Tx? then 1 else 0
  }

  lemma DrainStep(c: Config, boot: uint64, t: Trace, op: Op, all: seq<TelemetryData>, before: nat)
    requires OnlyDrains(c, [op]) && before <= |all| && t.final.buffer == all[before..]
    ensures var after := if op.Tx? then Min(|all|, before + c.replayBurst) else before;
            Extend(c, boot, t, op).final.buffer == all[after..]
  {
    assert [op][0] == op;
    if op.Tx? {
      var r := ReplayCount(|t.final.buffer|, c.replayBurst, op.answers, 0);
      assert r == Min(|t.final.buffer|, c.replayBurst);
      assert all[before..][r..] == all[before + r..];
    }
  }

  lemma {:induction false} DrainOverRun(c: Config, boot: uint64, ops: seq<Op>, more: seq<Op>)
    requires OnlyDrains(c, more)
    ensures var all := Execute(c, boot, ops).final.buffer;
            Execute(c, boot, ops + more).final.buffer == all[Min(|all|, CountTicks(more) * c.replayBurst)..]
  {
    hide Extend;
    var all := Execute(c, boot, ops).final.buffer;
    if more == [] {
      assert ops + more == ops;
    } else {
      var earlier, last := more[..|more| - 1], more[|more| - 1];
      var k := CountTicks(earlier);
      assert (ops + more)[..|ops + more| - 1] == ops + earlier;
      assert OnlyDrains(c, [last]);
      DrainOverRun(c, boot, ops, earlier);
      Distribute(k, c.replayBurst);
      DrainStep(c, boot, Execute(c, boot, ops + earlier), last, all, Min(|all|, k * c.replayBurst));
    }
  }

  /** After any run, with radio bytes and link updates between the ticks: as long as nothing is sampled and the sender
      accepts what a tick may replay, the buffer is empty exactly after the ceiling of n / burst ticks. */
  lemma DrainsInCeilingTicksOfAnyRun(c: Config, boot: uint64, ops: seq<Op>, more: seq<Op>)
    requires OnlyDrains(c, more)
    ensures var n := |Execute(c, boot, ops).final.buffer|;
            && (c.replayBurst > 0 ==>
                 (Execute(c, boot, ops + more).final.buffer == [] <==>
                  CountTicks(more) >= (n + c.replayBurst - 1) / c.replayBurst))
            && (c.replayBurst == 0 ==>
                 Execute(c, boot, ops + more).final.buffer == Execute(c, boot, ops).final.buffer)
  {
    hide Execute, CountTicks;
    DrainOverRun(c, boot, ops, more);
    Distribute(CountTicks(more), c.replayBurst);
    if c.replayBurst > 0 {
      CeilingDivision(|Execute(c, boot, ops).final.buffer|, c.replayBurst, CountTicks(more));
    }
  }

  /** Whatever the sender answers, every tick ends by attempting the live packet. */
  lemma LiveIsAlwaysAttempted(c: Config, s: Sched, live: TelemetryData, answers: seq<bool>)
    ensures var attempts := TickAttempts(c, s, true, live, answers);
            && attempts != []
            && attempts[|attempts| - 1].pkt == live
            && !attempts[|attempts| - 1].isReplay
            && forall i :: 0 <= i < |attempts| - 1 ==> attempts[i].isReplay
  {
    ReplayAttemptsAreReplays(s.buffer, c.replayBurst, answers);
  }

  lemma {:induction false} ReplayedAreReplays(buffer: seq<TelemetryData>, k: nat)
    requires k <= |buffer|
    ensures forall i :: 0 <= i < k ==> Replayed(buffer, k)[i].isReplay
  {
    if k > 0 {
      ReplayedAreReplays(buffer, k - 1);
    }
  }

  lemma ReplayAttemptsAreReplays(buffer: seq<TelemetryData>, burst: nat, answers: seq<bool>)
    ensures forall a :: a in ReplayAttempts(buffer, burst, answers) ==> a.isReplay
  {
    ReplayedAreReplays(buffer, ReplayCount(|buffer|, burst, answers, 0));
  }

  lemma {:induction false} ReplayedAreAccepted(buffer: seq<TelemetryData>, k: nat)
    requires k <= |buffer|
    ensures forall i :: 0 <= i < k ==> Replayed(buffer, k)[i].accepted
  {
    if k > 0 {
      ReplayedAreAccepted(buffer, k - 1);
    }
  }

  /** The sender's i-th answer of a tick is the answer to the i-th attempt: replays and the live packet alike. */
  lemma AnswersGoInOrder(c: Config, s: Sched, haveLive: bool, live: TelemetryData, answers: seq<bool>, i: nat)
    requires i < |TickAttempts(c, s, haveLive, live, answers)|
    ensures TickAttempts(c, s, haveLive, live, answers)[i].accepted <==> i < |answers| && answers[i]
  {
    ReplayedAreAccepted(s.buffer, ReplayCount(|s.buffer|, c.replayBurst, answers, 0));
    assert Accepts(answers, i) <==> i < |answers| && answers[i];
  }

  // ---------------------------------------------------------------- the link has no memory

  /** The clock reading of an operation that has one. */
  function TimeOf(op: Op, default: uint64): uint64 {
    match op
    case RxByte(_, now) => now
    case Link(now) => now
    case Sample(now, _) => now
    case Tx(_, _, _) => default
  }

  /** The latest clock reading of a run; the boot time before any. */
  function LastTime(boot: uint64, ops: seq<Op>): uint64 {
    if ops == [] then boot else TimeOf(ops[|ops| - 1], LastTime(boot, ops[..|ops| - 1]))
  }

  predicate Monotone(boot: uint64, ops: seq<Op>) {
    ops == [] ||
    (Monotone(boot, ops[..|ops| - 1]) && LastTime(boot, ops[..|ops| - 1]) <= LastTime(boot, ops))
  }

  /** An operation moves the heartbeat only forward to its own time, and brings the link down only on a time-out. */
  lemma ExtendLink(c: Config, boot: uint64, t: Trace, op: Op)
    ensures var s := Extend(c, boot, t, op).final;
            && s.lastHeartbeatMs == (if op.RxByte? && op.rxByte == HEARTBEAT_BYTE then op.now
                                     else t.final.lastHeartbeatMs)
            && (s.linkDown && !t.final.linkDown ==> op.Link? && TimedOut(c, s, op.now, boot))
  {
  }

  lemma {:induction false} LinkInvariant(c: Config, boot: uint64, ops: seq<Op>)
    requires Monotone(boot, ops)
    ensures var s := Execute(c, boot, ops).final;
            && boot <= LastTime(boot, ops)
            && s.lastHeartbeatMs <= LastTime(boot, ops)
            && (s.linkDown && s.lastHeartbeatMs == 0 ==> LastTime(boot, ops) - boot > c.bootGraceMs)
  {
    if ops != [] {
      hide Extend;
      LinkInvariant(c, boot, ops[..|ops| - 1]);
      ExtendLink(c, boot, Execute(c, boot, ops[..|ops| - 1]), ops[|ops| - 1]);
    }
  }

  /** On a clock that never goes back, the link is down after an update exactly when the time-out predicate holds of
      the clock and the last heartbeat: the flag that the scheduler keeps adds no memory. */
  lemma LinkIsMemoryless(c: Config, boot: uint64, ops: seq<Op>, now: uint64)
    requires Monotone(boot, ops + [Link(now)])
    ensures var s := Execute(c, boot, ops + [Link(now)]).final;
            s.linkDown <==> CheckTimeoutWithBootGrace(now, s.lastHeartbeatMs, c.linkTimeoutMs, boot, c.bootGraceMs)
  {
    assert (ops + [Link(now)])[..|ops|] == ops;
    LinkInvariant(c, boot, ops);
  }

  /** The same in plain arithmetic: before any heartbeat the link is down once more than the grace has passed since
      boot, and afterwards once more than the time-out has passed since the last heartbeat. */
  lemma LinkIsTimedOut(c: Config, boot: uint64, ops: seq<Op>, now: uint64)
    requires Monotone(boot, ops + [Link(now)])
    ensures var h := Execute(c, boot, ops).final.lastHeartbeatMs;
            Execute(c, boot, ops + [Link(now)]).final.linkDown <==>
            if h == 0 then now - boot > c.bootGraceMs else now - h > c.linkTimeoutMs
  {
    assert (ops + [Link(now)])[..|ops|] == ops;
    LinkIsMemoryless(c, boot, ops, now);
    LinkInvariant(c, boot, ops);
  }

  /** The time of the latest heartbeat byte of a run, and 0 before any. */
  function LatestHeartbeat(ops: seq<Op>): uint64 {
    if ops == [] then 0
    else
      var last := ops[|ops| - 1];
      if last.RxByte? && last.rxByte == 0xB0 then last.now else LatestHeartbeat(ops[..|ops| - 1])
  }

  function CountUnknown(ops: seq<Op>): nat {
    if ops == [] then 0
    else
      var last := ops[|ops| - 1];
      CountUnknown(ops[..|ops| - 1]) + if last.RxByte? && last.rxByte != 0xB0 then 1 else 0
  }

  lemma OtherOpKeepsBytes(c: Config, boot: uint64, t: Trace, op: Op)
    requires !op.RxByte?
    ensures var s := Extend(c, boot, t, op).final;
            && s.lastHeartbeatMs == t.final.lastHeartbeatMs && s.unknownByteCount == t.final.unknownByteCount
            && s.lastUnknownWarnMs == t.final.lastUnknownWarnMs
  {
  }

  lemma CountsOn(n: nat, count: uint32)
    requires count == n % 0x1_0000_0000
    ensures Add32(count, 1) == (n + 1) % 0x1_0000_0000
  {
    var q := n / 0x1_0000_0000;
    assert n == q * 0x1_0000_0000 + count;
    WrapAround(count, 1, 0, 0);
  }

  /** The heartbeat that the link check uses is the latest byte 0xB0, and every other byte is counted, modulo 2^32. */
  lemma {:induction false} BytesAreClassified(c: Config, boot: uint64, ops: seq<Op>)
    ensures var s := Execute(c, boot, ops).final;
            && s.lastHeartbeatMs == LatestHeartbeat(ops)
            && s.unknownByteCount == CountUnknown(ops) % 0x1_0000_0000
  {
    hide Extend;
    if ops != [] {
      var earlier, last := ops[..|ops| - 1], ops[|ops| - 1];
      BytesAreClassified(c, boot, earlier);
      if last.RxByte? {
        CountsOn(CountUnknown(earlier), Execute(c, boot, earlier).final.unknownByteCount);
        ByteStep(c, boot, Execute(c, boot, earlier), last);
      } else {
        OtherOpKeepsBytes(c, boot, Execute(c, boot, earlier), last);
      }
    }
  }

  /** A byte's effect: a heartbeat is remembered; any other is counted, and warned about when the last warning is
      at least an interval back, counting on the wrapping clock. */
  lemma ByteStep(c: Config, boot: uint64, t: Trace, op: Op)
    requires op.RxByte?
    ensures var (s, r) := AfterRxByte(c, t.final, op.rxByte, op.now);
            && Extend(c, boot, t, op).final == s
            && s.lastHeartbeatMs == (if op.rxByte == 0xB0 then op.now else t.final.lastHeartbeatMs)
            && s.unknownByteCount == (if op.rxByte == 0xB0 then t.final.unknownByteCount
                                      else Add32(t.final.unknownByteCount, 1))
            && (r == HEARTBEAT <==> op.rxByte == 0xB0)
            && (r == UNKNOWN_WARN <==>
                 op.rxByte != 0xB0 && Sub64(op.now, t.final.lastUnknownWarnMs) >= c.warnIntervalMs)
            && s.lastUnknownWarnMs == (if r == UNKNOWN_WARN then op.now else t.final.lastUnknownWarnMs)
  {
  }

  /** What a link update leaves alone: everything but the flag, save that going DOWN starts a new outage without
      samples. It reports a change exactly when the flag changes. */
  lemma LinkStep(c: Config, s: Sched, now: uint64, boot: uint64)
    ensures var (after, report) := AfterUpdateLink(c, s, now, boot);
            && report.linkDown == after.linkDown && (report.changed <==> after.linkDown != s.linkDown)
            && (report.becameDown <==> !s.linkDown && after.linkDown)
            && (report.becameUp <==> s.linkDown && !after.linkDown)
            && after == (if report.becameDown then s.(linkDown := true, hasSamples := false, lastSampleMs := 0)
                         else s.(linkDown := after.linkDown))
  {
  }

  /** On any clock: after an update the flag is the time-out predicate exactly unless the link was already down,
      no heartbeat is remembered (none came, or the last one came at clock reading 0) and the clock is inside the boot
      grace. */
  lemma LinkMatchesIff(c: Config, boot: uint64, ops: seq<Op>, now: uint64)
    ensures var before, after := Execute(c, boot, ops).final, Execute(c, boot, ops + [Link(now)]).final;
            (after.linkDown <==> TimedOut(c, after, now, boot)) <==>
            !(before.linkDown && before.lastHeartbeatMs == 0 && Sub64(now, boot) <= c.bootGraceMs)
  {
    assert (ops + [Link(now)])[..|ops|] == ops;
  }

  /** A clock that goes back to the boot time is such a case: the link stays down with the predicate false. */
  lemma LinkRemembersWhenClockGoesBack(c: Config)
    ensures var s := Execute(c, 0, [Link(c.bootGraceMs + 1), Link(0)]).final;
            s.linkDown && !TimedOut(c, s, 0, 0)
  {
    assert [Link(c.bootGraceMs + 1), Link(0)][..1] == [Link(c.bootGraceMs + 1)];
    assert [Link(c.bootGraceMs + 1)][..0] == [];
    assert Execute(c, 0, []) == Trace(INITIAL, [], [], [], []);
    assert Execute(c, 0, [Link(c.bootGraceMs + 1)]).final.linkDown;
  }

  /** Transitions alternate, start with DOWN, and their number's parity is the link flag. */
  lemma {:induction false} TransitionsAlternate(c: Config, boot: uint64, ops: seq<Op>)
    ensures var t := Execute(c, boot, ops);
            && (forall i :: 0 <= i < |t.transitions| ==>
                  && t.transitions[i].becameDown == (i % 2 == 0)
                  && t.transitions[i].becameUp == (i % 2 == 1))
            && t.final.linkDown == (|t.transitions| % 2 == 1)
  {
    if ops != [] {
      TransitionsAlternate(c, boot, ops[..|ops| - 1]);
    }
  }

  // ---------------------------------------------------------------- outage coverage

  /** One call of `offlineSample` in an outage. */
  datatype Call = Call(now: uint64, pkt: TelemetryData)

  /** The state after the first k calls and the positions of those that wrote a sample. */
  function SampleFirst(c: Config, s: Sched, calls: seq<Call>, k: nat): (Sched, seq<nat>)
    requires k <= |calls|
  {
    if k == 0 then (s, [])
    else
      var (before, taken) := SampleFirst(c, s, calls, k - 1);
      var (after, wrote) := AfterOfflineSample(c, before, calls[k - 1].now, calls[k - 1].pkt);
      (after, if wrote then taken + [k - 1] else taken)
  }

  ghost predicate Ordered(calls: seq<Call>) {
    forall i, j :: 0 <= i < j < |calls| ==> calls[i].now <= calls[j].now
  }

  ghost predicate AtMostApart(calls: seq<Call>, d: nat) {
    forall i :: 0 < i < |calls| ==> calls[i].now - calls[i - 1].now <= d
  }

  /** The times of consecutive samples differ by at least the period and by less than period + d. */
  ghost predicate Spaced(c: Config, calls: seq<Call>, taken: seq<nat>, d: nat) {
    && (forall i :: 0 <= i < |taken| ==> taken[i] < |calls|)
    && forall i, j :: 0 <= i < |taken| && j == i + 1 < |taken| ==>
         && taken[i] < taken[j]
         && c.samplePeriodMs <= calls[taken[j]].now - calls[taken[i]].now
         && (c.samplePeriodMs > 0 ==> calls[taken[j]].now - calls[taken[i]].now < c.samplePeriodMs + d)
  }

  lemma SampleStep(c: Config, s: Sched, call: Call)
    requires s.hasSamples && s.lastSampleMs <= call.now
    ensures var (after, wrote) := AfterOfflineSample(c, s, call.now, call.pkt);
            && (wrote <==> call.now - s.lastSampleMs >= c.samplePeriodMs)
            && after.hasSamples
            && after.lastSampleMs == (if wrote then call.now else s.lastSampleMs)
            && (wrote && |s.buffer| < OB_CAPACITY ==> after.buffer == s.buffer + [call.pkt])
            && (!wrote ==> after == s)
  {
  }

  lemma SpacedExtends(c: Config, calls: seq<Call>, taken: seq<nat>, d: nat, k: nat)
    requires Spaced(c, calls, taken, d) && k < |calls|
    requires taken != [] && taken[|taken| - 1] < k
    requires c.samplePeriodMs <= calls[k].now - calls[taken[|taken| - 1]].now
    requires c.samplePeriodMs > 0 ==> calls[k].now - calls[taken[|taken| - 1]].now < c.samplePeriodMs + d
    ensures Spaced(c, calls, taken + [k], d)
  {
  }

  lemma CallTimes(calls: seq<Call>, d: nat, last: nat, k: nat)
    requires Ordered(calls) && AtMostApart(calls, d) && last < k < |calls|
    ensures calls[last].now <= calls[k].now <= calls[k - 1].now + d
  {
  }

  lemma FirstCallSamples(c: Config, s: Sched, calls: seq<Call>, d: nat)
    requires !s.hasSamples && calls != []
    ensures var (after, taken) := SampleFirst(c, s, calls, 1);
            taken == [0] && after.hasSamples && after.lastSampleMs == calls[0].now
    ensures Spaced(c, calls, [0], d)
  {
    assert SampleFirst(c, s, calls, 0) == (s, []);
  }

  /** From the state that a DOWN transition leaves, the first call samples, samples are at least one period apart and,
      when calls are at most d ms apart, closer than period + d; no call is a period or more after the last sample. */
  lemma {:induction false} SamplesAreSpaced(c: Config, s: Sched, calls: seq<Call>, d: nat, k: nat)
    requires !s.hasSamples && Ordered(calls) && AtMostApart(calls, d) && 0 < k <= |calls|
    ensures var (after, taken) := SampleFirst(c, s, calls, k);
            && Spaced(c, calls, taken, d)
            && taken != [] && taken[0] == 0 && taken[|taken| - 1] < k
            && after.hasSamples && after.lastSampleMs == calls[taken[|taken| - 1]].now
            && (c.samplePeriodMs > 0 ==> calls[k - 1].now - calls[taken[|taken| - 1]].now < c.samplePeriodMs)
  {
    hide AfterOfflineSample, SampleFirst, Spaced, Ordered, AtMostApart;
    if k == 1 {
      FirstCallSamples(c, s, calls, d);
    } else {
      SampleFirstStep(c, s, calls, k);
      SamplesAreSpaced(c, s, calls, d, k - 1);
      var (before, taken) := SampleFirst(c, s, calls, k - 1);
      var last := taken[|taken| - 1];
      CallTimes(calls, d, last, k - 1);
      SampleStep(c, before, calls[k - 1]);
      if calls[k - 1].now - calls[last].now >= c.samplePeriodMs {
        SpacedExtends(c, calls, taken, d, k - 1);
      }
    }
  }

  /** The packets at the given positions of the calls. */
  function PacketsAt(calls: seq<Call>, taken: seq<nat>): (pkts: seq<TelemetryData>)
    requires forall i :: 0 <= i < |taken| ==> taken[i] < |calls|
    ensures |pkts| == |taken|
  {
    if taken == [] then []
    else PacketsAt(calls, taken[..|taken| - 1]) + [calls[taken[|taken| - 1]].pkt]
  }

  /** Samples that are a period apart number at most one more than the periods in the calls' span. */
  lemma {:induction false} SpacedSamplesAreFew(c: Config, calls: seq<Call>, taken: seq<nat>, d: nat, i: nat)
    requires Spaced(c, calls, taken, d) && i < |taken|
    ensures calls[taken[i]].now - calls[taken[0]].now >= i * c.samplePeriodMs
  {
    if i > 0 {
      SpacedSamplesAreFew(c, calls, taken, d, i - 1);
      assert i * c.samplePeriodMs == (i - 1) * c.samplePeriodMs + c.samplePeriodMs;
    }
  }

  lemma SampleFirstStep(c: Config, s: Sched, calls: seq<Call>, k: nat)
    requires 0 < k <= |calls|
    ensures var (before, taken) := SampleFirst(c, s, calls, k - 1);
            var (after, wrote) := AfterOfflineSample(c, before, calls[k - 1].now, calls[k - 1].pkt);
            SampleFirst(c, s, calls, k) == (after, if wrote then taken + [k - 1] else taken)
  {
  }

  lemma FewerThanCapacity(c: Config, s: Sched, calls: seq<Call>, k: nat)
    requires !s.hasSamples && Ordered(calls) && 0 < k <= |calls|
    requires calls[|calls| - 1].now - calls[0].now < OB_CAPACITY * c.samplePeriodMs
    ensures |SampleFirst(c, s, calls, k).1| <= OB_CAPACITY
  {
    hide AfterOfflineSample, SampleFirst;
    var d, taken := calls[|calls| - 1].now - calls[0].now, SampleFirst(c, s, calls, k).1;
    SamplesAreSpaced(c, s, calls, d, k);
    SpacedSamplesAreFew(c, calls, taken, d, |taken| - 1);
    assert calls[taken[|taken| - 1]].now <= calls[|calls| - 1].now;
    BelowFactor(|taken| - 1, OB_CAPACITY, c.samplePeriodMs);
  }

  lemma SpanBounds(calls: seq<Call>)
    requires Ordered(calls) && calls != []
    ensures calls[0].now <= calls[|calls| - 1].now && AtMostApart(calls, calls[|calls| - 1].now - calls[0].now)
  {
    assert |calls| > 1 ==> calls[0].now <= calls[|calls| - 1].now;
  }

  lemma FirstSampleOnly(c: Config, s: Sched, calls: seq<Call>, k: nat)
    requires !s.hasSamples && s.buffer == [] && k <= 1 && k <= |calls|
    ensures var (after, taken) := SampleFirst(c, s, calls, k);
            taken == (if k == 0 then [] else [0]) && after.buffer == PacketsAt(calls, taken)
  {
    assert SampleFirst(c, s, calls, 0) == (s, []) && PacketsAt(calls, []) == [];
    if k == 1 {
      assert [0][..0] == [];
    }
  }

  /** Calls that span less than 75 periods, from an empty buffer, lose nothing: the buffer is exactly the samples. */
  lemma {:induction false} ShortOutageLosesNothing(c: Config, s: Sched, calls: seq<Call>, k: nat)
    requires !s.hasSamples && Ordered(calls) && s.buffer == [] && k <= |calls|
    requires calls != [] ==> calls[|calls| - 1].now - calls[0].now < 75 * c.samplePeriodMs
    ensures var (after, taken) := SampleFirst(c, s, calls, k);
            && (forall i :: 0 <= i < |taken| ==> taken[i] < |calls|)
            && after.buffer == PacketsAt(calls, taken)
  {
    hide AfterOfflineSample, PacketsAt, SampleFirst, Spaced, Ordered, AtMostApart;
    if k <= 1 {
      FirstSampleOnly(c, s, calls, k);
    } else {
      SampleFirstStep(c, s, calls, k);
      ShortOutageLosesNothing(c, s, calls, k - 1);
      var (before, earlier) := SampleFirst(c, s, calls, k - 1);
      SpanBounds(calls);
      var d := calls[|calls| - 1].now - calls[0].now;
      SamplesAreSpaced(c, s, calls, d, k - 1);
      CallTimes(calls, d, earlier[|earlier| - 1], k - 1);
      SampleStep(c, before, calls[k - 1]);
      FewerThanCapacity(c, s, calls, k);
      PacketsAtMore(calls, earlier, k - 1);
    }
  }

  lemma PacketsAtMore(calls: seq<Call>, taken: seq<nat>, k: nat)
    requires k < |calls| && forall i :: 0 <= i < |taken| ==> taken[i] < |calls|
    ensures PacketsAt(calls, taken + [k]) == PacketsAt(calls, taken) + [calls[k].pkt]
  {
    assert (taken + [k])[..|taken|] == taken;
  }

  lemma BelowFactor(a: nat, b: nat, p: nat)
    requires a * p < b * p
    ensures a < b
  {
    assert (a - b) * p < 0;
  }

  lemma {:induction false} SampledTimestamps(c: Config, s: Sched, calls: seq<Call>, k: nat)
    requires !s.hasSamples && k <= |calls|
    ensures var (after, taken) := SampleFirst(c, s, calls, k);
            && (forall i :: 0 <= i < |taken| ==> taken[i] < |calls|)
            && after.hasSamples == (taken != [])
            && (taken != [] ==>
                  && after.firstTs == calls[taken[0]].pkt.timestampMs
                  && after.lastTs == calls[taken[|taken| - 1]].pkt.timestampMs)
  {
    if k > 0 {
      SampledTimestamps(c, s, calls, k - 1);
    }
  }

  /** The sample calls among the operations of an outage. */
  function CallsOf(ops: seq<Op>): seq<Call> {
    if ops == [] then []
    else
      var last := ops[|ops| - 1];
      CallsOf(ops[..|ops| - 1]) + if last.Sample? then [Call(last.now, last.pkt)] else []
  }

  function Run(c: Config, boot: uint64, s: Sched, ops: seq<Op>): Sched {
    if ops == [] then s
    else Extend(c, boot, Trace(Run(c, boot, s, ops[..|ops| - 1]), [], [], [], []), ops[|ops| - 1]).final
  }

  /** No operation of an outage transmits, and the link stays down throughout. */
  predicate StaysDown(c: Config, boot: uint64, s: Sched, ops: seq<Op>) {
    && Run(c, boot, s, ops).linkDown
    && (ops != [] ==> !ops[|ops| - 1].Tx? && StaysDown(c, boot, s, ops[..|ops| - 1]))
  }

  predicate SameSampling(a: Sched, b: Sched) {
    && a.buffer == b.buffer && a.hasSamples == b.hasSamples && a.lastSampleMs == b.lastSampleMs
    && a.firstTs == b.firstTs && a.lastTs == b.lastTs
  }

  lemma SampleDependsOn(c: Config, a: Sched, b: Sched, now: uint64, pkt: TelemetryData)
    requires SameSampling(a, b)
    ensures SameSampling(AfterOfflineSample(c, a, now, pkt).0, AfterOfflineSample(c, b, now, pkt).0)
  {
  }

  /** Radio bytes and link updates between the samples of an outage change nothing that sampling depends on. */
  lemma {:induction false} OutageIsItsSamples(c: Config, boot: uint64, s: Sched, ops: seq<Op>)
    requires StaysDown(c, boot, s, ops)
    ensures SameSampling(Run(c, boot, s, ops), SampleFirst(c, s, CallsOf(ops), |CallsOf(ops)|).0)
  {
    if ops != [] {
      var earlier := ops[..|ops| - 1];
      OutageIsItsSamples(c, boot, s, earlier);
      if ops[|ops| - 1].Sample? {
        var n, last := |CallsOf(earlier)|, ops[|ops| - 1];
        SampleFirstOfMore(c, s, CallsOf(earlier), CallsOf(ops), n);
        assert CallsOf(ops)[n] == Call(last.now, last.pkt) && |CallsOf(ops)| == n + 1;
        assert SampleFirst(c, s, CallsOf(ops), n + 1).0
            == AfterOfflineSample(c, SampleFirst(c, s, CallsOf(ops), n).0, last.now, last.pkt).0;
        SampleDependsOn(c, Run(c, boot, s, earlier), SampleFirst(c, s, CallsOf(earlier), n).0, last.now, last.pkt);
      } else {
        assert CallsOf(ops) == CallsOf(earlier);
      }
    }
  }

  lemma {:induction false} SampleFirstOfMore(c: Config, s: Sched, calls: seq<Call>, more: seq<Call>, k: nat)
    requires k <= |calls| && calls <= more
    ensures SampleFirst(c, s, more, k) == SampleFirst(c, s, calls, k)
  {
    if k > 0 {
      SampleFirstOfMore(c, s, calls, more, k - 1);
    }
  }

  /** An outage from its DOWN transition to its UP transition: whatever bytes and updates come between the samples,
      the UP report counts the buffer and names the first and the last sample of this outage, when it has any. */
  lemma UpReportNamesThisOutage(c: Config, boot: uint64, before: Sched, down: uint64, ops: seq<Op>, up: uint64)
    requires AfterUpdateLink(c, before, down, boot).1.becameDown
    requires StaysDown(c, boot, AfterUpdateLink(c, before, down, boot).0, ops)
    requires AfterUpdateLink(c, Run(c, boot, AfterUpdateLink(c, before, down, boot).0, ops), up, boot).1.becameUp
    ensures var s, calls := AfterUpdateLink(c, before, down, boot).0, CallsOf(ops);
            var after, taken := Run(c, boot, s, ops), SampleFirst(c, s, calls, |calls|).1;
            var tr := AfterUpdateLink(c, after, up, boot).1;
            && (forall i :: 0 <= i < |taken| ==> taken[i] < |calls|)
            && tr.hadSamples == (taken != [])
            && tr.bufferedCount == |after.buffer|
            && (taken != [] ==>
                  && tr.firstTs == calls[taken[0]].pkt.timestampMs
                  && tr.lastTs == calls[taken[|taken| - 1]].pkt.timestampMs)
  {
    var s := AfterUpdateLink(c, before, down, boot).0;
    OutageIsItsSamples(c, boot, s, ops);
    SampledTimestamps(c, s, CallsOf(ops), |CallsOf(ops)|);
  }
}
