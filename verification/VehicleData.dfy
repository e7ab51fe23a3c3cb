/** The record that the CAN, VCU, HMI and uplink tasks share. */
module VehicleData {
  import opened Words

  const CELL_COUNT := 24

  /** The pack voltage limits that the CAN handlers and the state machine share. */
  const CRITICAL_MIN_PACK_DECI_V := 600
  const CRITICAL_MAX_PACK_DECI_V := 876

  type Cells = s: seq<uint16> | |s| == CELL_COUNT witness ZEROS

  const ZEROS: seq<uint16> := [0, 0, 0, 0, 0, 0, 0, 0, 0, 0, 0, 0, 0, 0, 0, 0, 0, 0, 0, 0, 0, 0, 0, 0]

  datatype TelemetryData = TelemetryData(
    motorRpm: int16,
    motorVoltageDeciV: uint16,
    motorErrorFlags: byte,
    motorDataValid: bool,
    motorTimeoutActive: bool,
    cellVoltages: Cells,
    cellVoltageMaxDeciMv: uint16,
    cellVoltageMinDeciMv: uint16,
    cellVoltageAvgDeciMv: uint16,
    bmsSystemState: byte,
    cellVoltageDataValid: bool,
    cellVoltageTimeoutActive: bool,
    packVoltageDeciV: uint16,
    currentCentiA: int32,
    socHundredths: uint16,
    soc2Hundredths: uint16,
    tempHighestC: int8,
    tempLowestC: int8,
    bmsDataValid: bool,
    bmsTimeoutActive: bool,
    timestampMs: uint32,
    speedKmhX10: uint16)

  const ZERO_CELLS: Cells := ZEROS

  /** The all-zero record that the firmware's statics start from. */
  const ZERO_DATA: TelemetryData :=
    TelemetryData(0, 0, 0, false, false, ZERO_CELLS, 0, 0, 0, 0, false, false,
                  0, 0, 0, 0, 0, 0, false, false, 0, 0)
}
