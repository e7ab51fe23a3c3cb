/** Heartbeat time-outs, as comparisons on 64-bit milliseconds. */
module LinkMonitor {
  import opened Words

  /** Zero means that no heartbeat has arrived yet. */
  predicate CheckTimeout(now: uint64, lastHeartbeat: uint64, timeout: uint32) {
    lastHeartbeat != 0 && Sub64(now, lastHeartbeat) > timeout
  }

  predicate CheckTimeoutWithBootGrace(now: uint64, lastHeartbeat: uint64, timeout: uint32,
                                      boot: uint64, bootGrace: uint32) {
    if lastHeartbeat == 0 then Sub64(now, boot) > bootGrace
    else CheckTimeout(now, lastHeartbeat, timeout)
  }
}

/** Link state machine, outage sampling and throttled replay: the values they compute, and the class that does it. */
module UplinkScheduler {
  import opened Words
  import opened VehicleData
  import opened OfflineBuffer
  import opened LinkMonitor

  const HEARTBEAT_BYTE: byte := 0xB0

  datatype Config = Config(
    linkTimeoutMs: uint32,
    bootGraceMs: uint32,
    samplePeriodMs: uint32,
    replayBurst: byte,
    warnIntervalMs: uint32)

  /** Everything the scheduler remembers, with the ring's content in place of the ring. */
  datatype Sched = Sched(
    linkDown: bool,
    lastHeartbeatMs: uint64,
    unknownByteCount: uint32,
    lastUnknownWarnMs: uint64,
    lastSampleMs: uint64,
    firstTs: uint32,
    lastTs: uint32,
    hasSamples: bool,
    buffer: seq<TelemetryData>)

  const INITIAL: Sched := Sched(false, 0, 0, 0, 0, 0, 0, false, [])

  datatype RxResult = HEARTBEAT | UNKNOWN_QUIET | UNKNOWN_WARN

  datatype LinkTransition = LinkTransition(
    changed: bool,
    linkDown: bool,
    becameDown: bool,
    becameUp: bool,
    hadSamples: bool,
    bufferedCount: nat,
    firstTs: uint32,
    lastTs: uint32)

  /** One call of the injected sender, with its answer. */
  datatype Attempt = Attempt(pkt: TelemetryData, isReplay: bool, accepted: bool)

  /** The sender's answers in one tick are a script; beyond its end the sender refuses. */
  predicate Accepts(answers: seq<bool>, k: nat) {
    k < |answers| && answers[k]
  }

  function AfterRxByte(c: Config, s: Sched, rxByte: byte, now: uint64): (Sched, RxResult) {
    if rxByte == HEARTBEAT_BYTE then (s.(lastHeartbeatMs := now), HEARTBEAT)
    else
      var s' := s.(unknownByteCount := Add32(s.unknownByteCount, 1));
      if Sub64(now, s.lastUnknownWarnMs) >= c.warnIntervalMs
      then (s'.(lastUnknownWarnMs := now), UNKNOWN_WARN)
      else (s', UNKNOWN_QUIET)
  }

  predicate TimedOut(c: Config, s: Sched, now: uint64, boot: uint64) {
    CheckTimeoutWithBootGrace(now, s.lastHeartbeatMs, c.linkTimeoutMs, boot, c.bootGraceMs)
  }

  function AfterUpdateLink(c: Config, s: Sched, now: uint64, boot: uint64): (Sched, LinkTransition) {
    var timeout := TimedOut(c, s, now, boot);
    if timeout && !s.linkDown then
      (s.(linkDown := true, lastSampleMs := 0, hasSamples := false),
       LinkTransition(true, true, true, false, false, 0, 0, 0))
    else if !timeout && s.linkDown && s.lastHeartbeatMs != 0 then
      (s.(linkDown := false),
       LinkTransition(true, false, false, true, s.hasSamples, |s.buffer|, s.firstTs, s.lastTs))
    else
      (s, LinkTransition(false, s.linkDown, false, false, false, 0, 0, 0))
  }

  predicate ShouldSample(now: uint64, lastSample: uint64, hasSample: bool, period: uint32) {
    !hasSample || Sub64(now, lastSample) >= period
  }

  function AfterOfflineSample(c: Config, s: Sched, now: uint64, live: TelemetryData): (Sched, bool) {
    if !ShouldSample(now, s.lastSampleMs, s.hasSamples, c.samplePeriodMs) then (s, false)
    else
      (s.(lastSampleMs := now,
          buffer := DequePush(OB_CAPACITY, s.buffer, live),
          firstTs := if s.hasSamples then s.firstTs else live.timestampMs,
          hasSamples := true,
          lastTs := live.timestampMs),
       true)
  }

  /** How many of `n` buffered packets this tick replays, counting from `k` already sent. */
  function ReplayCount(n: nat, burst: nat, answers: seq<bool>, k: nat): (r: nat)
    requires k <= n && k <= burst
    ensures k <= r <= n && r <= burst
    ensures forall i :: k <= i < r ==> Accepts(answers, i)
    ensures r == n || r == burst || !Accepts(answers, r)
    decreases n - k
  {
    if k < n && k < burst && Accepts(answers, k) then ReplayCount(n, burst, answers, k + 1) else k
  }

  /** Accepted replays of the first `k` buffered packets, in buffer order. */
  function Replayed(buffer: seq<TelemetryData>, k: nat): (attempts: seq<Attempt>)
    requires k <= |buffer|
    ensures |attempts| == k
  {
    if k == 0 then [] else Replayed(buffer, k - 1) + [Attempt(buffer[k - 1], true, true)]
  }

  /** The replay attempts of one tick: the accepted ones in buffer order, then at most one refusal. */
  function ReplayAttempts(buffer: seq<TelemetryData>, burst: nat, answers: seq<bool>): seq<Attempt> {
    var r := ReplayCount(|buffer|, burst, answers, 0);
    Replayed(buffer, r)
    + (if r < |buffer| && r < burst then [Attempt(buffer[r], true, false)] else [])
  }

  /** All attempts of one tick with the link up. */
  function TickAttempts(c: Config, s: Sched, haveLive: bool, live: TelemetryData, answers: seq<bool>): seq<Attempt> {
    var replays := ReplayAttempts(s.buffer, c.replayBurst, answers);
    replays + (if haveLive then [Attempt(live, false, Accepts(answers, |replays|))] else [])
  }

  function AfterTxTick(c: Config, s: Sched, answers: seq<bool>): Sched {
    s.(buffer := s.buffer[ReplayCount(|s.buffer|, c.replayBurst, answers, 0)..])
  }

  function CountAccepted(attempts: seq<Attempt>): nat {
    if attempts == [] then 0
    else CountAccepted(attempts[..|attempts| - 1]) + if attempts[|attempts| - 1].accepted then 1 else 0
  }

  class Scheduler {
    const config: Config
    const ring: Ring
    var linkDown: bool
    var lastHeartbeatMs: uint64
    var unknownRxByteCount: uint32
    var lastUnknownRxByteWarnMs: uint64
    var lastOfflineSampleMs: uint64
    var offlineFirstTs: uint32
    var offlineLastTs: uint32
    var offlineHasSamples: bool

    ghost predicate Valid()
      reads this, ring
    {
      ring.Valid()
    }

    ghost function View(): Sched
      requires Valid()
      reads this, ring, ring.buf
    {
      Sched(linkDown, lastHeartbeatMs, unknownRxByteCount, lastUnknownRxByteWarnMs,
            lastOfflineSampleMs, offlineFirstTs, offlineLastTs, offlineHasSamples, ring.Contents())
    }

    constructor (config: Config, ring: Ring)
      requires ring.Valid()
      ensures Valid() && this.config == config && this.ring == ring
      ensures View() == INITIAL.(buffer := ring.Contents())
    {
      this.config, this.ring := config, ring;
      linkDown, lastHeartbeatMs := false, 0;
      unknownRxByteCount, lastUnknownRxByteWarnMs := 0, 0;
      lastOfflineSampleMs, offlineFirstTs, offlineLastTs, offlineHasSamples := 0, 0, 0, false;
    }

    method OnRxByte(rxByte: byte, now: uint64) returns (r: RxResult)
      requires Valid()
      modifies this
      ensures Valid() && (View(), r) == AfterRxByte(config, old(View()), rxByte, now)
    {
      if rxByte == HEARTBEAT_BYTE {
        lastHeartbeatMs := now;
        return HEARTBEAT;
      }
      unknownRxByteCount := Add32(unknownRxByteCount, 1);
      if Sub64(now, lastUnknownRxByteWarnMs) >= config.warnIntervalMs {
        lastUnknownRxByteWarnMs := now;
        return UNKNOWN_WARN;
      }
      return UNKNOWN_QUIET;
    }

    method UpdateLink(now: uint64, boot: uint64) returns (tr: LinkTransition)
      requires Valid()
      modifies this
      ensures Valid() && (View(), tr) == AfterUpdateLink(config, old(View()), now, boot)
    {
      var timeout := CheckTimeoutWithBootGrace(now, lastHeartbeatMs, config.linkTimeoutMs, boot, config.bootGraceMs);
      tr := LinkTransition(false, linkDown, false, false, false, 0, 0, 0);
      if timeout && !linkDown {
        linkDown := true;
        lastOfflineSampleMs := 0;
        offlineHasSamples := false;
        tr := tr.(changed := true, becameDown := true, linkDown := true);
      } else if !timeout && linkDown && lastHeartbeatMs != 0 {
        linkDown := false;
        var buffered := ring.Count();
        tr := tr.(changed := true, becameUp := true, linkDown := false, hadSamples := offlineHasSamples,
                  bufferedCount := buffered, firstTs := offlineFirstTs, lastTs := offlineLastTs);
      }
    }

    method OfflineSample(now: uint64, live: TelemetryData) returns (wrote: bool)
      requires Valid()
      modifies this, ring, ring.buf
      ensures Valid() && (View(), wrote) == AfterOfflineSample(config, old(View()), now, live)
    {
      if !ShouldSample(now, lastOfflineSampleMs, offlineHasSamples, config.samplePeriodMs) {
        return false;
      }
      lastOfflineSampleMs := now;
      var _ := ring.Push(live);
      if !offlineHasSamples {
        offlineFirstTs := live.timestampMs;
        offlineHasSamples := true;
      }
      offlineLastTs := live.timestampMs;
      return true;
    }

    /** The throttled replay loop of `OnTxTickLinkUp`. */
    method ReplayBurst(answers: seq<bool>) returns (sent: nat, attempts: seq<Attempt>)
      requires Valid()
      modifies ring
      ensures Valid() && View() == AfterTxTick(config, old(View()), answers)
      ensures attempts == ReplayAttempts(old(View()).buffer, config.replayBurst, answers)
      ensures sent == CountAccepted(attempts)
    {
      hide Window, DequePush;
      sent, attempts := 0, [];
      ghost var buffer := ring.Contents();
      ghost var r := ReplayCount(|buffer|, config.replayBurst, answers, 0);
      var b := 0;
      while b < config.replayBurst
        invariant Valid() && 0 <= b <= config.replayBurst
        invariant b <= |buffer| && ring.Contents() == buffer[b..]
        invariant r == ReplayCount(|buffer|, config.replayBurst, answers, b)
        invariant attempts == Replayed(buffer, b)
        invariant sent == b == CountAccepted(attempts)
      {
        var ok, replay := ring.Peek();
        if !ok {
          break;
        }
        var accepted := Accepts(answers, |attempts|);
        ghost var before := attempts;
        attempts := attempts + [Attempt(replay, true, accepted)];
        assert attempts[..|attempts| - 1] == before;
        if !accepted {
          break;
        }
        var _ := ring.DropFront();
        sent := sent + 1;
        b := b + 1;
      }
    }

    /** `attempts` records the calls of the sender; `answers` is how it answers them. */
    method OnTxTickLinkUp(haveLive: bool, live: TelemetryData, answers: seq<bool>)
      returns (sent: nat, attempts: seq<Attempt>)
      requires Valid()
      modifies ring
      ensures Valid() && View() == AfterTxTick(config, old(View()), answers)
      ensures attempts == TickAttempts(config, old(View()), haveLive, live, answers)
      ensures sent == CountAccepted(attempts)
    {
      sent, attempts := ReplayBurst(answers);
      if haveLive {
        var accepted := Accepts(answers, |attempts|);
        ghost var before := attempts;
        attempts := attempts + [Attempt(live, false, accepted)];
        assert attempts[..|attempts| - 1] == before;
        if accepted {
          sent := sent + 1;
        }
      }
    }
  }
}
