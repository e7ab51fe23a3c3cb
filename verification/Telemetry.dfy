/** The clamps that keep three fields inside the receiver's ranges. */
module TelemetrySanitize {
  import opened Words
  import opened VehicleData

  const INT32_MIN: int32 := -0x8000_0000

  function SanitizeSystemState(raw: byte): byte {
    if 1 <= raw <= 4 then raw else 4
  }

  function SanitizeSoc(raw: uint16): uint16 {
    if raw > 10000 then 10000 else raw
  }

  function SanitizeCurrent(raw: int32): int32 {
    if raw == INT32_MIN then INT32_MIN + 1 else raw
  }

  function SanitizeForUplink(raw: TelemetryData): TelemetryData {
    raw.(bmsSystemState := SanitizeSystemState(raw.bmsSystemState),
         socHundredths := SanitizeSoc(raw.socHundredths),
         currentCentiA := SanitizeCurrent(raw.currentCentiA))
  }
}

/** The frame printer and its sequence counter. */
module Telemetry {
  import opened Words
  import opened VehicleData
  import opened Decimal

  const PROTOCOL_VERSION := 2
  const VALUE_COUNT := 18
  const PAYLOAD_SIZE := 192

  function Bit(b: bool): byte {
    if b then 1 else 0
  }

  /** The 18 numbers of a frame, in printing order. */
  function FrameValues(sequence: uint32, d: TelemetryData): (values: seq<int>)
    ensures |values| == VALUE_COUNT
  {
    [PROTOCOL_VERSION, sequence, d.motorRpm, d.motorVoltageDeciV, d.motorErrorFlags, Bit(d.motorDataValid),
     Bit(d.motorTimeoutActive), d.cellVoltageMaxDeciMv, d.cellVoltageMinDeciMv, d.tempHighestC, d.tempLowestC,
     d.bmsSystemState, d.packVoltageDeciV, d.currentCentiA, d.socHundredths, Bit(d.bmsDataValid),
     d.timestampMs, d.speedKmhX10]
  }

  function Texts(values: seq<int>): (texts: seq<string>)
    ensures |texts| == |values|
    ensures forall k :: 0 <= k < |values| ==> texts[k] == IntText(values[k])
  {
    if values == [] then [] else Texts(values[..|values| - 1]) + [IntText(values[|values| - 1])]
  }

  /** Tokens with a comma between neighbours. */
  function Join(tokens: seq<string>): string
    requires tokens != []
  {
    if |tokens| == 1 then tokens[0] else tokens[0] + "," + Join(tokens[1..])
  }

  /** A whole frame with the given numbers. */
  function Frame(values: seq<int>): string {
    Join(["TEL"] + Texts(values)) + "\r\n"
  }

  class Printer {
    var isInitialized: bool
    var sequenceCounter: uint32

    constructor ()
      ensures !isInitialized && sequenceCounter == 0
    {
      isInitialized, sequenceCounter := false, 0;
    }

    method Begin() returns (ok: bool)
      modifies this
      ensures ok && isInitialized && sequenceCounter == 0
    {
      isInitialized, sequenceCounter, ok := true, 0, true;
    }

    /** `written` is what the UART was handed; the write itself may fail. A frame that would not fit the buffer would
        be cut, and the number is used up only by a write that succeeded. */
    method SendStatus(data: TelemetryData, writeSucceeds: bool) returns (written: string)
      modifies this`sequenceCounter
      ensures !isInitialized ==> written == "" && sequenceCounter == old(sequenceCounter)
      ensures isInitialized ==>
                && written == Frame(FrameValues(old(sequenceCounter), data))
                && sequenceCounter == if writeSucceeds then Add32(old(sequenceCounter), 1) else old(sequenceCounter)
    {
      if !isInitialized {
        return "";
      }
      var payload := Frame(FrameValues(sequenceCounter, data));
      var txLength := if |payload| < PAYLOAD_SIZE then |payload| else PAYLOAD_SIZE - 1;
      written := payload[..txLength];
      RawFrameLength(sequenceCounter, data);
      if !writeSucceeds {
        return;
      }
      sequenceCounter := Add32(sequenceCounter, 1);
    }
  }

  // ---------------------------------------------------------------- frame length

  function TotalLength(tokens: seq<string>): nat {
    if tokens == [] then 0 else |tokens[0]| + TotalLength(tokens[1..])
  }

  lemma {:induction false} JoinLength(tokens: seq<string>)
    requires tokens != []
    ensures |Join(tokens)| == TotalLength(tokens) + |tokens| - 1
  {
    if |tokens| > 1 {
      JoinLength(tokens[1..]);
    } else {
      assert tokens[1..] == [];
    }
  }

  lemma IntTextLength(i: int, k: nat)
    requires k > 0 && (0 <= i < Pow10(k) || (k > 1 && 0 < -i < Pow10(k - 1)))
    ensures |IntText(i)| <= k
  {
    if i < 0 {
      DecLength(-i, k - 1);
    } else {
      DecLength(i, k);
    }
  }

  /** The most characters that the field at position k can take; sanitising shortens the system state. */
  function Width(k: nat, sanitized: bool): nat {
    if k == 1 || k == 16 then 10
    else if k == 2 then 6
    else if k == 4 then 3
    else if k == 13 then 11
    else if k == 11 then if sanitized then 1 else 3
    else if k == 9 || k == 10 then 4
    else if k == 0 || k == 5 || k == 6 || k == 15 then 1
    else 5
  }

  /** The widths of the first k fields together. */
  function TotalWidth(k: nat, sanitized: bool): nat {
    if k == 0 then 0 else TotalWidth(k - 1, sanitized) + Width(k - 1, sanitized)
  }

  lemma AllWidths(sanitized: bool)
    ensures TotalWidth(VALUE_COUNT, sanitized) == if sanitized then 83 else 85
  {
    assert TotalWidth(1, sanitized) == 1;
    assert TotalWidth(2, sanitized) == 11;
    assert TotalWidth(4, sanitized) == 22;
    assert TotalWidth(6, sanitized) == 26;
    assert TotalWidth(8, sanitized) == 32;
    assert TotalWidth(10, sanitized) == 41;
    assert TotalWidth(12, sanitized) == if sanitized then 46 else 48;
    assert TotalWidth(14, sanitized) == if sanitized then 62 else 64;
    assert TotalWidth(16, sanitized) == if sanitized then 68 else 70;
  }

  lemma ValueWidth(sequence: uint32, d: TelemetryData, k: nat, sanitized: bool)
    requires k < VALUE_COUNT && (sanitized ==> 1 <= d.bmsSystemState <= 4)
    ensures |IntText(FrameValues(sequence, d)[k])| <= Width(k, sanitized)
  {
    assert Pow10(1) == 10 && Pow10(3) == 1000 && Pow10(5) == 100000 && Pow10(10) == 10000000000;
    var v := FrameValues(sequence, d)[k];
    if k < 9 {
      assert 0 <= v < Pow10(Width(k, sanitized)) || (k == 2 && 0 < -v < 100000);
    } else {
      assert 0 <= v < Pow10(Width(k, sanitized)) || (k == 13 && 0 < -v < 10000000000) || (k <= 10 && 0 < -v < 1000);
    }
    IntTextLength(v, Width(k, sanitized));
  }

  lemma {:induction false} WidthsAddUp(sequence: uint32, d: TelemetryData, k: nat, sanitized: bool)
    requires k <= VALUE_COUNT && (sanitized ==> 1 <= d.bmsSystemState <= 4)
    ensures TotalLength(Texts(FrameValues(sequence, d))[k..]) + TotalWidth(k, sanitized)
            <= TotalWidth(VALUE_COUNT, sanitized)
    decreases VALUE_COUNT - k
  {
    var texts := Texts(FrameValues(sequence, d));
    if k < VALUE_COUNT {
      WidthsAddUp(sequence, d, k + 1, sanitized);
      ValueWidth(sequence, d, k, sanitized);
      assert texts[k..][0] == texts[k] && texts[k..][1..] == texts[k + 1..];
    }
  }

  lemma FrameLengthIsTotal(values: seq<int>)
    ensures |Frame(values)| == TotalLength(Texts(values)) + |values| + 5
  {
    var tokens := ["TEL"] + Texts(values);
    JoinLength(tokens);
    assert tokens[1..] == Texts(values);
  }

  /** No record makes the printer's frame longer than 108 characters, so the 192-byte buffer never cuts it. */
  lemma RawFrameLength(sequence: uint32, d: TelemetryData)
    ensures |Frame(FrameValues(sequence, d))| <= 108
  {
    FrameLengthIsTotal(FrameValues(sequence, d));
    WidthsAddUp(sequence, d, 0, false);
    assert Texts(FrameValues(sequence, d))[0..] == Texts(FrameValues(sequence, d));
    AllWidths(false);
  }

  /** A frame whose system state was sanitised has at most 106 characters. */
  lemma SanitizedFrameLength(sequence: uint32, d: TelemetryData)
    requires 1 <= d.bmsSystemState <= 4
    ensures |Frame(FrameValues(sequence, d))| <= 106
  {
    FrameLengthIsTotal(FrameValues(sequence, d));
    WidthsAddUp(sequence, d, 0, true);
    assert Texts(FrameValues(sequence, d))[0..] == Texts(FrameValues(sequence, d));
    AllWidths(true);
  }
}
