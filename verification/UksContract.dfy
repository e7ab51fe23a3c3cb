/** The receiver's strict frame parser, and how it undoes the printer. */
module UksContract {
  import opened Words
  import opened VehicleData
  import opened Decimal
  import opened TelemetrySanitize
  import opened Telemetry

  const TOKEN_COUNT := 19
  const TEL_RPM_MAX := 20000
  const U32_MAX := 4294967295

  /** The receiver's names for the fields. */
  datatype Field =
    | VER | SEQ | RPM | TORQUE | MOTOR_ERR | MOTOR_VALID | MOTOR_TIMEOUT | CELL_VMAX | CELL_VMIN | TEMP_H | TEMP_L
    | SYS_STATE | PACK_V | CURRENT | SOC | BMS_VALID | TS_MS | SPD_X10

  /** The order in which the receiver assigns the tokens after the tag to names. */
  function Position(name: Field): (k: nat)
    ensures k < VALUE_COUNT
  {
    match name
    case VER => 0
    case SEQ => 1
    case RPM => 2
    case TORQUE => 3
    case MOTOR_ERR => 4
    case MOTOR_VALID => 5
    case MOTOR_TIMEOUT => 6
    case CELL_VMAX => 7
    case CELL_VMIN => 8
    case TEMP_H => 9
    case TEMP_L => 10
    case SYS_STATE => 11
    case PACK_V => 12
    case CURRENT => 13
    case SOC => 14
    case BMS_VALID => 15
    case TS_MS => 16
    case SPD_X10 => 17
  }

  /** The receiver's dictionary holds `v` under `name`. */
  predicate Holds(values: seq<int>, name: Field, v: int) {
    |values| == VALUE_COUNT && values[Position(name)] == v
  }

  /** The inclusive range of each field, in frame order. */
  function Lo(k: nat): int {
    if k == 3 then -32768
    else if k == 9 || k == 10 then -128
    else if k == 11 then 1
    else if k == 13 then -2147483647
    else 0
  }

  function Hi(k: nat): int {
    if k == 1 || k == 16 then U32_MAX
    else if k == 2 || k == 7 || k == 8 || k == 12 then 65535
    else if k == 3 then 32767
    else if k == 0 || k == 4 then 255
    else if k == 5 || k == 6 || k == 15 then 1
    else if k == 9 || k == 10 then 127
    else if k == 11 then 4
    else if k == 13 then 2147483647
    else if k == 14 then 10000
    else 3000
  }

  datatype ParseResult = Accepted(values: seq<int>) | Rejected(reason: string)

  /** The line without its trailing carriage returns and line feeds. */
  function RightStrip(line: string): string {
    if line != "" && (line[|line| - 1] == '\r' || line[|line| - 1] == '\n')
    then RightStrip(line[..|line| - 1])
    else line
  }

  /** The tokens between commas. */
  function Split(s: string): (tokens: seq<string>)
    ensures tokens != []
  {
    if s == "" then [""]
    else
      var rest := Split(s[1..]);
      if s[0] == ',' then [""] + rest else [[s[0]] + rest[0]] + rest[1..]
  }

  /** Digits, after at most one sign where a sign is allowed. */
  predicate IsStrictIntToken(tok: string, allowSign: bool) {
    && tok != ""
    && var body := if allowSign && (tok[0] == '-' || tok[0] == '+') then tok[1..] else tok;
       body != "" && AllDigits(body)
  }

  function IntOf(tok: string): int
    requires IsStrictIntToken(tok, true)
  {
    if tok[0] == '-' then
      var n: int := Value(tok[1..]);
      -n
    else if tok[0] == '+' then Value(tok[1..])
    else Value(tok)
  }

  predicate TokenAccepted(k: nat, tok: string) {
    IsStrictIntToken(tok, Lo(k) < 0) && Lo(k) <= IntOf(tok) <= Hi(k)
  }

  /** The values of the tokens after the tag. */
  function TokenValues(tokens: seq<string>): (values: seq<int>)
    requires forall k :: 0 <= k < |tokens| ==> IsStrictIntToken(tokens[k], true)
    ensures |values| == |tokens|
    ensures forall k :: 0 <= k < |tokens| ==> values[k] == IntOf(tokens[k])
  {
    if tokens == [] then []
    else TokenValues(tokens[..|tokens| - 1]) + [IntOf(tokens[|tokens| - 1])]
  }

  /** The verdict on a line: the tokens are judged together, not one after the other. */
  function Verdict(line: string): ParseResult {
    var tokens := Split(RightStrip(line));
    if |tokens| != TOKEN_COUNT then Rejected("parse_fail")
    else if tokens[0] != "TEL" then Rejected("bad_tag")
    else if exists k :: 0 <= k < VALUE_COUNT && !TokenAccepted(k, tokens[1..][k]) then Rejected("parse_fail")
    else
      var values := TokenValues(tokens[1..]);
      if values[0] != PROTOCOL_VERSION then Rejected("bad_version")
      else if values[2] > TEL_RPM_MAX then Rejected("range_fail")
      else Accepted(values)
  }

  method ParseUksFrame(line: string) returns (r: ParseResult)
    ensures r == Verdict(line)
  {
    var tokens := Split(RightStrip(line));
    if |tokens| != TOKEN_COUNT {
      return Rejected("parse_fail");
    }
    if tokens[0] != "TEL" {
      return Rejected("bad_tag");
    }
    var ok, values := ParseFields(tokens[1..]);
    if !ok {
      return Rejected("parse_fail");
    }
    if values[0] != PROTOCOL_VERSION {
      return Rejected("bad_version");
    }
    if values[2] > TEL_RPM_MAX {
      return Rejected("range_fail");
    }
    return Accepted(values);
  }

  /** The loop that fills the dictionary and stops at the first bad token. */
  method ParseFields(fields: seq<string>) returns (ok: bool, values: seq<int>)
    requires |fields| == VALUE_COUNT
    ensures ok <==> forall k :: 0 <= k < VALUE_COUNT ==> TokenAccepted(k, fields[k])
    ensures ok ==> values == TokenValues(fields)
  {
    values := [];
    for k := 0 to VALUE_COUNT
      invariant |values| == k
      invariant forall i :: 0 <= i < k ==> TokenAccepted(i, fields[i]) && values[i] == IntOf(fields[i])
    {
      if !IsStrictIntToken(fields[k], Lo(k) < 0) {
        return false, [];
      }
      var v := IntOf(fields[k]);
      if v < Lo(k) || v > Hi(k) {
        return false, [];
      }
      values := values + [v];
    }
    return true, values;
  }

  // ---------------------------------------------------------------- tokens

  lemma TokenOfIntText(i: int, allowSign: bool)
    ensures IsStrictIntToken(IntText(i), allowSign) <==> allowSign || i >= 0
    ensures IntOf(IntText(i)) == i
  {
    if i < 0 {
      assert IntText(i)[1..] == Dec(-i);
      ValueOfDec(-i);
    } else {
      assert IsDigit(Dec(i)[0]);
      ValueOfDec(i);
    }
  }

  /** A printed number is accepted exactly when it lies in its field's range. */
  lemma PrintedTokenAccepted(k: nat, v: int)
    ensures TokenAccepted(k, IntText(v)) <==> Lo(k) <= v <= Hi(k)
  {
    TokenOfIntText(v, Lo(k) < 0);
    TokenOfIntText(v, true);
  }

  lemma {:induction false} SplitAfterToken(tok: string, rest: string)
    requires ',' !in tok
    ensures Split(tok) == [tok]
    ensures Split(tok + "," + rest) == [tok] + Split(rest)
  {
    if tok == "" {
      assert (tok + "," + rest)[1..] == rest;
    } else {
      var line := tok + "," + rest;
      assert line[0] == tok[0] && line[1..] == tok[1..] + "," + rest;
      SplitAfterToken(tok[1..], rest);
      assert [tok[0]] + tok[1..] == tok;
    }
  }

  lemma {:induction false} SplitOfJoin(tokens: seq<string>)
    requires tokens != [] && forall k :: 0 <= k < |tokens| ==> ',' !in tokens[k]
    ensures Split(Join(tokens)) == tokens
  {
    if |tokens| == 1 {
      SplitAfterToken(tokens[0], "");
    } else {
      SplitOfJoin(tokens[1..]);
      SplitAfterToken(tokens[0], Join(tokens[1..]));
    }
  }

  lemma {:induction false} LastOfJoin(tokens: seq<string>)
    requires tokens != [] && tokens[|tokens| - 1] != ""
    ensures Join(tokens) != ""
    ensures var last := tokens[|tokens| - 1]; Join(tokens)[|Join(tokens)| - 1] == last[|last| - 1]
  {
    if |tokens| > 1 {
      LastOfJoin(tokens[1..]);
    }
  }

  lemma StripLineEnd(body: string)
    requires body != "" && body[|body| - 1] != '\r' && body[|body| - 1] != '\n'
    ensures RightStrip(body + "\r\n") == body
  {
    assert (body + "\r\n")[..|body| + 1] == body + "\r";
    assert (body + "\r")[..|body|] == body;
    assert RightStrip(body) == body;
    assert RightStrip(body + "\r") == body;
  }

  /** Splitting a frame gives back the tag and the printed numbers. */
  lemma FrameTokens(values: seq<int>)
    requires values != []
    ensures Split(RightStrip(Frame(values))) == ["TEL"] + Texts(values)
  {
    var tokens := ["TEL"] + Texts(values);
    var last := IntText(values[|values| - 1]);
    assert tokens[|tokens| - 1] == last;
    LastOfJoin(tokens);
    assert IsDigit(last[|last| - 1]);
    StripLineEnd(Join(tokens));
    forall k | 0 <= k < |tokens|
      ensures ',' !in tokens[k]
    {
      assert k > 0 ==> tokens[k] == IntText(values[k - 1]);
    }
    SplitOfJoin(tokens);
  }

  // ---------------------------------------------------------------- printer and parser

  predicate InRanges(values: seq<int>) {
    |values| == VALUE_COUNT && forall k :: 0 <= k < VALUE_COUNT ==> Lo(k) <= values[k] <= Hi(k)
  }

  predicate InContract(values: seq<int>) {
    InRanges(values) && values[0] == PROTOCOL_VERSION && values[2] <= TEL_RPM_MAX
  }

  /** The parser's verdict on any 18 printed numbers, with the reason of every rejection. */
  lemma VerdictOnFrame(values: seq<int>)
    requires |values| == VALUE_COUNT
    ensures Verdict(Frame(values)) ==
            if !InRanges(values) then Rejected("parse_fail")
            else if values[0] != PROTOCOL_VERSION then Rejected("bad_version")
            else if values[2] > TEL_RPM_MAX then Rejected("range_fail")
            else Accepted(values)
  {
    hide Frame, Split, RightStrip, Lo, Hi, IntOf, TokenAccepted, IntText;
    FrameTokens(values);
    var fields := (["TEL"] + Texts(values))[1..];
    assert fields == Texts(values);
    forall k | 0 <= k < VALUE_COUNT
      ensures TokenAccepted(k, fields[k]) <==> Lo(k) <= values[k] <= Hi(k)
      ensures IsStrictIntToken(fields[k], true) && IntOf(fields[k]) == values[k]
    {
      PrintedTokenAccepted(k, values[k]);
      TokenOfIntText(values[k], true);
    }
    assert TokenValues(fields) == values;
  }

  lemma AcceptedInContract(line: string)
    requires Verdict(line).Accepted?
    ensures InContract(Verdict(line).values)
  {
    var fields := Split(RightStrip(line))[1..];
    forall k | 0 <= k < VALUE_COUNT
      ensures Lo(k) <= Verdict(line).values[k] <= Hi(k)
    {
      assert TokenAccepted(k, fields[k]);
    }
  }

  /** Whatever line is accepted, printing its values gives a frame that is accepted with the same values. */
  lemma AcceptedValuesAreCanonical(line: string)
    requires Verdict(line).Accepted?
    ensures InContract(Verdict(line).values)
    ensures Verdict(Frame(Verdict(line).values)) == Verdict(line)
  {
    AcceptedInContract(line);
    VerdictOnFrame(Verdict(line).values);
  }

  lemma SanitizedInRanges(sequence: uint32, raw: TelemetryData)
    ensures InRanges(FrameValues(sequence, SanitizeForUplink(raw))) <==>
            0 <= raw.motorRpm && raw.motorVoltageDeciV <= 32767 && raw.speedKmhX10 <= 3000
  {
    var values := FrameValues(sequence, SanitizeForUplink(raw));
    assert values[2] == raw.motorRpm && values[3] == raw.motorVoltageDeciV && values[17] == raw.speedKmhX10;
    forall k | 0 <= k < VALUE_COUNT && k != 2 && k != 3 && k != 17
      ensures Lo(k) <= values[k] <= Hi(k)
    {
    }
  }

  predicate CarriesMotor(values: seq<int>, sequence: uint32, d: TelemetryData) {
    && Holds(values, VER, 2) && Holds(values, SEQ, sequence)
    && Holds(values, RPM, d.motorRpm) && Holds(values, TORQUE, d.motorVoltageDeciV)
    && Holds(values, MOTOR_ERR, d.motorErrorFlags) && Holds(values, MOTOR_VALID, if d.motorDataValid then 1 else 0)
    && Holds(values, MOTOR_TIMEOUT, if d.motorTimeoutActive then 1 else 0)
  }

  predicate CarriesCells(values: seq<int>, d: TelemetryData) {
    && Holds(values, CELL_VMAX, d.cellVoltageMaxDeciMv) && Holds(values, CELL_VMIN, d.cellVoltageMinDeciMv)
    && Holds(values, TEMP_H, d.tempHighestC) && Holds(values, TEMP_L, d.tempLowestC)
    && Holds(values, SYS_STATE, d.bmsSystemState)
  }

  predicate CarriesPack(values: seq<int>, d: TelemetryData) {
    && Holds(values, PACK_V, d.packVoltageDeciV) && Holds(values, CURRENT, d.currentCentiA)
    && Holds(values, SOC, d.socHundredths) && Holds(values, BMS_VALID, if d.bmsDataValid then 1 else 0)
    && Holds(values, TS_MS, d.timestampMs) && Holds(values, SPD_X10, d.speedKmhX10)
  }

  /** Every field of the record is under the receiver's name for it; the motor voltage travels as torque. */
  predicate CarriesRecord(values: seq<int>, sequence: uint32, d: TelemetryData) {
    CarriesMotor(values, sequence, d) && CarriesCells(values, d) && CarriesPack(values, d)
  }

  lemma PrinterAgreesOnMotor(sequence: uint32, d: TelemetryData)
    ensures CarriesMotor(FrameValues(sequence, d), sequence, d)
  {
  }

  lemma PrinterAgreesOnCells(sequence: uint32, d: TelemetryData)
    ensures CarriesCells(FrameValues(sequence, d), d)
  {
  }

  lemma PrinterAgreesOnPack(sequence: uint32, d: TelemetryData)
    ensures CarriesPack(FrameValues(sequence, d), d)
  {
  }

  /** The printer's order is the receiver's order. */
  lemma PrinterAgreesWithReceiver(sequence: uint32, d: TelemetryData)
    ensures CarriesRecord(FrameValues(sequence, d), sequence, d)
  {
    hide FrameValues, CarriesMotor, CarriesCells, CarriesPack;
    PrinterAgreesOnMotor(sequence, d);
    PrinterAgreesOnCells(sequence, d);
    PrinterAgreesOnPack(sequence, d);
  }

  /** The receiver accepts a sanitised record exactly when its speed, rpm and motor voltage fit the contract, and then
      reads back every printed number; the frame has at most 106 characters. */
  lemma FrameRoundTrip(sequence: uint32, raw: TelemetryData)
    ensures var d := SanitizeForUplink(raw);
            var values := FrameValues(sequence, d);
            && |Frame(values)| <= 106
            && (Verdict(Frame(values)).Accepted? <==>
                 0 <= raw.motorRpm <= TEL_RPM_MAX && raw.motorVoltageDeciV <= 32767 && raw.speedKmhX10 <= 3000)
            && (Verdict(Frame(values)).Accepted? ==>
                 Verdict(Frame(values)).values == values && CarriesRecord(values, sequence, d))
            && (!Verdict(Frame(values)).Accepted? ==>
                 Verdict(Frame(values)) ==
                 Rejected(if raw.motorRpm > TEL_RPM_MAX && raw.motorVoltageDeciV <= 32767 && raw.speedKmhX10 <= 3000
                          then "range_fail" else "parse_fail"))
  {
    hide Verdict, Frame, CarriesRecord, InRanges, FrameValues, SanitizeForUplink;
    var d := SanitizeForUplink(raw);
    var values := FrameValues(sequence, d);
    VersionAndRpm(sequence, raw);
    SanitizedFrameLength(sequence, d);
    VerdictOnFrame(values);
    SanitizedInRanges(sequence, raw);
    PrinterAgreesWithReceiver(sequence, d);
  }

  lemma VersionAndRpm(sequence: uint32, raw: TelemetryData)
    ensures var values := FrameValues(sequence, SanitizeForUplink(raw));
            values[0] == PROTOCOL_VERSION && values[2] == raw.motorRpm
    ensures 1 <= SanitizeForUplink(raw).bmsSystemState <= 4
  {
  }

  lemma IntTextExactLength(i: int, k: nat)
    requires k > 0
    requires if i < 0 then k > 1 && Pow10(k - 2) <= -i < Pow10(k - 1)
             else i < Pow10(k) && (k > 1 ==> Pow10(k - 1) <= i)
    ensures |IntText(i)| == k
  {
    if i < 0 {
      DecLength(-i, k - 1);
      if k > 2 {
        DecLengthAtLeast(-i, k - 2);
      }
    } else {
      DecLength(i, k);
      if k > 1 {
        DecLengthAtLeast(i, k - 1);
      }
    }
  }

  /** A record whose every field is as wide as its type and the clamps allow. */
  const WIDEST: TelemetryData :=
    TelemetryData(-32768, 65535, 255, true, true, ZERO_CELLS, 65535, 65535, 0, 1, false, false,
                  65535, -2147483647, 10000, 0, -128, -128, true, false, U32_MAX, 65535)

  lemma WidestWidth(k: nat)
    requires k < VALUE_COUNT
    ensures |IntText(FrameValues(U32_MAX, WIDEST)[k])| == Width(k, true)
  {
    assert Pow10(1) == 10 && Pow10(2) == 100 && Pow10(3) == 1000 && Pow10(4) == 10000 && Pow10(5) == 100000;
    assert Pow10(9) == 1000000000 && Pow10(10) == 10000000000;
    IntTextExactLength(FrameValues(U32_MAX, WIDEST)[k], Width(k, true));
  }

  lemma {:induction false} WidestTokens(k: nat)
    requires k <= VALUE_COUNT
    ensures TotalLength(Texts(FrameValues(U32_MAX, WIDEST))[k..]) + TotalWidth(k, true) == TotalWidth(VALUE_COUNT, true)
    decreases VALUE_COUNT - k
  {
    var texts := Texts(FrameValues(U32_MAX, WIDEST));
    if k < VALUE_COUNT {
      WidestTokens(k + 1);
      WidestWidth(k);
      assert texts[k..][0] == texts[k] && texts[k..][1..] == texts[k + 1..];
    }
  }

  /** The bound of 106 is reached. */
  lemma FrameLengthBoundIsTight()
    ensures SanitizeForUplink(WIDEST) == WIDEST
    ensures |Frame(FrameValues(U32_MAX, WIDEST))| == 106
  {
    FrameLengthIsTotal(FrameValues(U32_MAX, WIDEST));
    WidestTokens(0);
    assert Texts(FrameValues(U32_MAX, WIDEST))[0..] == Texts(FrameValues(U32_MAX, WIDEST));
    AllWidths(true);
  }

  /** Sanitising changes nothing that was already inside the receiver's ranges, so it never needs to be undone. */
  lemma SanitizingIsMinimal(raw: TelemetryData)
    ensures var d := SanitizeForUplink(raw);
            && SanitizeForUplink(d) == d
            && (d == raw <==> (&& Lo(11) <= raw.bmsSystemState <= Hi(11)
                               && Lo(14) <= raw.socHundredths <= Hi(14)
                               && Lo(13) <= raw.currentCentiA <= Hi(13)))
  {
  }

  /** What sanitising does to each of its three fields; it touches no other. */
  lemma SanitizedFields(raw: TelemetryData)
    ensures var d := SanitizeForUplink(raw);
            && (1 <= raw.bmsSystemState <= 4 ==> d.bmsSystemState == raw.bmsSystemState)
            && (raw.bmsSystemState == 0 || raw.bmsSystemState > 4 ==> d.bmsSystemState == 4)
            && d.socHundredths == Min(raw.socHundredths, 10000)
            && (raw.currentCentiA == -2147483648 ==> d.currentCentiA == -2147483647)
            && (raw.currentCentiA != -2147483648 ==> d.currentCentiA == raw.currentCentiA)
            && raw == d.(bmsSystemState := raw.bmsSystemState, socHundredths := raw.socHundredths,
                         currentCentiA := raw.currentCentiA)
  {
  }

  // ---------------------------------------------------------------- the frame, character by character

  lemma JoinStep(token: string, rest: seq<string>)
    requires rest != []
    ensures Join([token] + rest) == token + "," + Join(rest)
  {
    assert ([token] + rest)[1..] == rest;
  }

  function Flag(b: bool): string {
    if b then "1" else "0"
  }

  function FirstNine(sequence: uint32, d: TelemetryData): seq<string> {
    ["TEL", "2", IntText(sequence), IntText(d.motorRpm), IntText(d.motorVoltageDeciV), IntText(d.motorErrorFlags),
     Flag(d.motorDataValid), Flag(d.motorTimeoutActive), IntText(d.cellVoltageMaxDeciMv)]
  }

  function LastTen(d: TelemetryData): seq<string> {
    [IntText(d.cellVoltageMinDeciMv), IntText(d.tempHighestC), IntText(d.tempLowestC), IntText(d.bmsSystemState),
     IntText(d.packVoltageDeciV), IntText(d.currentCentiA), IntText(d.socHundredths), Flag(d.bmsDataValid),
     IntText(d.timestampMs), IntText(d.speedKmhX10)]
  }

  lemma SmallTexts()
    ensures IntText(0) == "0" && IntText(1) == "1" && IntText(2) == "2"
  {
  }

  /** A frame is these 19 texts with commas between them and a line end: the printer's format, field by field. */
  lemma FrameText(sequence: uint32, d: TelemetryData)
    ensures Frame(FrameValues(sequence, d)) == Join(FirstNine(sequence, d) + LastTen(d)) + "\r\n"
  {
    hide IntText, Join;
    SmallTexts();
    var tokens := ["TEL"] + Texts(FrameValues(sequence, d));
    var expected := FirstNine(sequence, d) + LastTen(d);
    assert |tokens| == |expected| == 19;
    forall k | 0 <= k < 19
      ensures tokens[k] == expected[k]
    {
      assert k > 0 ==> tokens[k] == IntText(FrameValues(sequence, d)[k - 1]);
    }
    assert tokens == expected;
  }

  // ---------------------------------------------------------------- what the receiver accepts, for any line

  lemma {:induction false} JoinOfSplit(s: string)
    ensures Join(Split(s)) == s
    ensures forall k :: 0 <= k < |Split(s)| ==> ',' !in Split(s)[k]
  {
    if s != "" {
      var rest := Split(s[1..]);
      JoinOfSplit(s[1..]);
      assert s == [s[0]] + s[1..];
      if s[0] == ',' {
        JoinStep("", rest);
        assert "" + "," + Join(rest) == s;
      } else {
        var first := [[s[0]] + rest[0]];
        if |rest| > 1 {
          JoinStep([s[0]] + rest[0], rest[1..]);
          JoinStep(rest[0], rest[1..]);
          assert [rest[0]] + rest[1..] == rest;
          assert [s[0]] + rest[0] + "," + Join(rest[1..]) == [s[0]] + (rest[0] + "," + Join(rest[1..]));
        } else {
          assert rest == [rest[0]] && Split(s) == first;
        }
      }
    }
  }

  predicate IsLineEnd(s: string) {
    forall k :: 0 <= k < |s| ==> s[k] == '\r' || s[k] == '\n'
  }

  lemma {:induction false} StrippedLine(line: string)
    ensures RightStrip(line) <= line && IsLineEnd(line[|RightStrip(line)|..])
    ensures var s := RightStrip(line); s == "" || (s[|s| - 1] != '\r' && s[|s| - 1] != '\n')
  {
    if line != "" && (line[|line| - 1] == '\r' || line[|line| - 1] == '\n') {
      StrippedLine(line[..|line| - 1]);
    }
  }

  /** For any line, without naming how it is taken apart: what the receiver answers. The line is a body and a line
      end; the body is tokens without commas, joined by commas. */
  lemma VerdictOnAnyLine(line: string)
    ensures var body := RightStrip(line);
            var tokens := Split(body);
            && body <= line && IsLineEnd(line[|body|..])
            && body == Join(tokens) && (forall k :: 0 <= k < |tokens| ==> ',' !in tokens[k])
            && (|tokens| != 19 ==> Verdict(line) == Rejected("parse_fail"))
            && (|tokens| == 19 && tokens[0] != "TEL" ==> Verdict(line) == Rejected("bad_tag"))
            && (Verdict(line).Accepted? ==> |tokens| == 19 && tokens[0] == "TEL")
  {
    hide Join, Split, RightStrip, TokenAccepted;
    StrippedLine(line);
    JoinOfSplit(RightStrip(line));
  }

  /** The tokens of an accepted line, by position, under the receiver's names. */
  lemma ReceiverOrder(line: string)
    requires Verdict(line).Accepted?
    ensures var tokens, v := Split(RightStrip(line)), Verdict(line).values;
            && |tokens| == 19 && |v| == 18
            && (forall k :: 1 <= k < 19 ==> IsStrictIntToken(tokens[k], true))
            && Holds(v, VER, IntOf(tokens[1])) && Holds(v, SEQ, IntOf(tokens[2])) && Holds(v, RPM, IntOf(tokens[3]))
            && Holds(v, TORQUE, IntOf(tokens[4])) && Holds(v, MOTOR_ERR, IntOf(tokens[5]))
            && Holds(v, MOTOR_VALID, IntOf(tokens[6])) && Holds(v, MOTOR_TIMEOUT, IntOf(tokens[7]))
            && Holds(v, CELL_VMAX, IntOf(tokens[8])) && Holds(v, CELL_VMIN, IntOf(tokens[9]))
            && Holds(v, TEMP_H, IntOf(tokens[10])) && Holds(v, TEMP_L, IntOf(tokens[11]))
            && Holds(v, SYS_STATE, IntOf(tokens[12])) && Holds(v, PACK_V, IntOf(tokens[13]))
            && Holds(v, CURRENT, IntOf(tokens[14])) && Holds(v, SOC, IntOf(tokens[15]))
            && Holds(v, BMS_VALID, IntOf(tokens[16])) && Holds(v, TS_MS, IntOf(tokens[17]))
            && Holds(v, SPD_X10, IntOf(tokens[18]))
  {
    hide Split, RightStrip, Lo, Hi, IntOf, IsStrictIntToken;
    AcceptedTokens(line);
  }

  lemma AcceptedTokens(line: string)
    requires Verdict(line).Accepted?
    ensures var tokens, v := Split(RightStrip(line)), Verdict(line).values;
            && |tokens| == 19 && |v| == 18
            && (forall k :: 1 <= k < 19 ==> IsStrictIntToken(tokens[k], true))
            && forall k :: 0 <= k < 18 ==> v[k] == IntOf(tokens[k + 1])
  {
    hide Split, RightStrip, Lo, Hi, IntOf, IsStrictIntToken;
    var fields := Split(RightStrip(line))[1..];
    assert forall k :: 0 <= k < 18 ==> TokenAccepted(k, fields[k]);
    forall k | 1 <= k < 19
      ensures IsStrictIntToken(Split(RightStrip(line))[k], true)
    {
      SignedIsStrict(k - 1, fields[k - 1]);
    }
  }

  lemma SignedIsStrict(k: nat, tok: string)
    requires TokenAccepted(k, tok)
    ensures IsStrictIntToken(tok, true)
  {
  }

  /** Which tokens are numbers, and which number: digits, with a sign in front only where one is allowed. */
  lemma StrictTokens(digits: string, allowSign: bool)
    requires digits != "" && AllDigits(digits)
    ensures IsStrictIntToken(digits, allowSign) && IntOf(digits) == Value(digits)
    ensures IsStrictIntToken("-" + digits, allowSign) == IsStrictIntToken("+" + digits, allowSign) == allowSign
    ensures allowSign ==> IntOf("-" + digits) == 0 - Value(digits) as int && IntOf("+" + digits) == Value(digits)
    ensures !IsStrictIntToken("", allowSign) && !IsStrictIntToken("-", allowSign) && !IsStrictIntToken("+", allowSign)
  {
    assert ("-" + digits)[1..] == digits && ("+" + digits)[1..] == digits;
    assert ("-" + digits)[0] == '-' && ("+" + digits)[0] == '+';
    assert IsDigit(digits[0]) && !IsDigit('-') && !IsDigit('+');
  }

  lemma OtherCharactersRefused(tok: string, allowSign: bool, k: nat)
    requires k < |tok| && !IsDigit(tok[k]) && (k > 0 || (tok[0] != '-' && tok[0] != '+'))
    ensures !IsStrictIntToken(tok, allowSign)
  {
    if k > 0 {
      assert tok[1..][k - 1] == tok[k];
    }
  }

  predicate Between(values: seq<int>, name: Field, lo: int, hi: int)
    requires |values| == 18
  {
    lo <= values[Position(name)] <= hi
  }

  /** The contract's ranges, name by name. */
  lemma ContractRanges(values: seq<int>)
    requires |values| == 18
    ensures InContract(values) <==>
            && Between(values, VER, 2, 2) && Between(values, SEQ, 0, 4294967295) && Between(values, RPM, 0, 20000)
            && Between(values, TORQUE, -32768, 32767) && Between(values, MOTOR_ERR, 0, 255)
            && Between(values, MOTOR_VALID, 0, 1) && Between(values, MOTOR_TIMEOUT, 0, 1)
            && Between(values, CELL_VMAX, 0, 65535) && Between(values, CELL_VMIN, 0, 65535)
            && Between(values, TEMP_H, -128, 127) && Between(values, TEMP_L, -128, 127)
            && Between(values, SYS_STATE, 1, 4) && Between(values, PACK_V, 0, 65535)
            && Between(values, CURRENT, -2147483647, 2147483647) && Between(values, SOC, 0, 10000)
            && Between(values, BMS_VALID, 0, 1) && Between(values, TS_MS, 0, 4294967295)
            && Between(values, SPD_X10, 0, 3000)
  {
    if InRanges(values) {
      assert forall k :: 0 <= k < 18 ==> Lo(k) <= values[k] <= Hi(k);
    }
  }
}
