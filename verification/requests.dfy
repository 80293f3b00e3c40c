/**
  The requests the controller sends to a dispenser (the `SrvToCli` oneof),
  with the field values the controller computes. Field types follow the
  wire types: `uint32` fields are naturals below 2^32, `int32` fields and
  protocol-buffer enums are integers in the int32 range.
 */
module Requests {
  import opened Numeric

  /**
    The stepper index, which the controller parses with `strconv.ParseFloat`
    and converts with `uint32(…)`. Floating point is not modelled: the
    index is kept as the text it was parsed from, except where the
    controller uses an integer directly.
   */
  datatype StepperIndex = Index(n: nat) | FloatText(text: string)

  datatype Request =
    | RebootReq
    | EepromReadReq
    | EepromWriteReq
    | UpgradeFirmwareReq(fwType: int, url: string)
    | FactoryReq(mac: seq<byte>, id: string, deviceType: int, hwRev: nat)
    | ScaleReadReq(idx: nat)
    | ScaleTareReq(idx: nat)
    | ScaleCalibReq(idx: nat, full: bool)
    | ScaleParamsReq(idx: nat, fullCalibSamples: nat, tareSamples: nat, readingSamples: nat,
                     calibWeightG: nat, zeroCalibSamples: nat, trayWeightG: nat)
    | HopperReadReq(idx: nat)
    | HopperCalibOffsetReq(idx: nat)
    | StepperRotateReq(stepper: StepperIndex, current: nat, angle: int)
    | StepperSpinReq(stepper: StepperIndex, current: nat)
    | StepperStopReq(stepper: StepperIndex)
    /** The five speed and acceleration fields are floats scaled by 1000; their texts are kept. */
    | StepperParamsReq(stepper: StepperIndex, direction: nat, currentMax: nat, currentMin: nat,
                       retreatSpeedPct: nat, retreatAngle: int, holdCurrent: nat, scaledTexts: seq<string>)
    | VibratorRunReq(vibrator: nat, amplitudePct: nat)
    | VibratorStopReq(vibrator: nat)
    | DcMotorSpinReq(idx: nat)
    | DcMotorStopReq(idx: nat)
    | DcMotorParamsReq(idx: nat, direction: nat, speedPct: nat, retreatSpeedPct: nat, retreatTimeMs: nat)
    | DispenseReq(idx: nat, massMg: nat, correctionMg: int, simulationTimeMs: nat, pidDbg: nat)
    | MassParamsReq(idx: nat, runMax: nat, timeoutMs: int)
    | FryerProcessReq(idx: nat, massMg: nat, correctionMg: int, simulationTimeMs: nat, cookingTimeMs: nat,
                      orderRateMs: nat, mode: int, dripTimeMs: nat, shakes: nat, shakeTimeMs: nat, preemptive: bool)
    | FreezerReq(idx: nat, enabled: bool)
    | FreezerUnlockReq(idx: nat)
    | HotHoldReq(idx: nat, enabled: bool)
    | OperatingStateReq(state: int)
    | TransportPositionsReq(idx: nat, positions: seq<int>, tolerance: int)
    /** The three gains are floats scaled by 1000; their texts are kept. */
    | PidParamsReq(idx: nat, gainTexts: seq<string>, saturMax: int, saturMin: int, deltaT: nat, offset: int, samplingTimeMs: nat)
    | StateReq
    | TemperatureParamsReq(idx: nat, setPointC: int, toleranceC: nat, mode: int)
    | TemperatureControlReq(idx: nat, enabled: bool)
    | AgitationReq(idx: nat, enabled: bool)
    | IngredientReq(idx: nat, name: string)
    | TransportMoveReq(idx: nat, to: int, from: int)
}
