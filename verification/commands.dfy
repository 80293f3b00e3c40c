/**
  The callbacks the controller registers for the page's buttons, each as
  what it does to the browser state. Most are guarded by `wsConn` and log
  "Not Connected to Broker!" instead of sending when it is clear; some are
  not guarded and send whatever the flag says. Three ask for confirmation
  first; the user's answer is the `confirmed` argument.
 */
module Commands {
  import opened Wrappers
  import opened Numeric
  import opened Dom
  import opened Requests
  import opened Controller
  import Mac
  import Eeprom

  /** The parameter sets a `…SetParams` callback sends; four of the eight callbacks are guarded. */
  datatype ParamGroup = ScaleGroup | MassGroup | PidGroup | StepperGroup | DcMotorGroup
                      | TemperatureGroup | IngredientGroup | TransportGroup

  predicate GroupGuarded(g: ParamGroup) {
    g.MassGroup? || g.StepperGroup? || g.DcMotorGroup? || g.TransportGroup?
  }

  /** One per registered callback; the eight parameter callbacks share `SetParams`. */
  datatype Command =
    | Connect | Disconnect
    | DispenserReboot | FactoryChange | EepromWrite | EepromRead | UpgradeFirmware
    | ScaleRead | ScaleTare | ScaleCalibFull | ScaleCalibZero
    | HopperRead | HopperCalibrationOffset
    | StepperRotate | StepperSpin | StepperStop
    | VibratorRun | VibratorStop
    | DcMotorSpin | DcMotorStop
    | DispenseMass | CookToRate
    | FreezerActivate | FreezerDeactivate | HotHoldActivate | HotHoldDeactivate | FreezerUnlock
    | ChangeOpMode | ClearLog | ClearPidLog
    | GetState | DrawerLock | DrawerUnlock
    | TemperatureControlEnable | TemperatureControlDisable
    | AgitatorRun | AgitatorStop
    | TransportMove | StopAllSteppers
    | SetParams(group: ParamGroup)

  /** Callbacks whose first step is the `wsConn` check. */
  predicate IsGuarded(cmd: Command) {
    match cmd
    case Connect => false
    case Disconnect => false
    case ClearLog => false
    case ClearPidLog => false
    case ScaleTare => false
    case TemperatureControlEnable => false
    case TemperatureControlDisable => false
    case AgitatorRun => false
    case AgitatorStop => false
    case SetParams(g) => GroupGuarded(g)
    case _ => true
  }

  /** `uint32(massG) * 1000`, a 32-bit unsigned product. */
  function MassMg(g: nat): (mg: nat)
    ensures mg <= MaxUint32
    ensures (mg - g * 1000) % Two32 == 0
    ensures mg == g * 1000 <==> g <= 4294967
  {
    var w := ToUint32(g);
    CongruentScale(w, g, 1000);
    CongruentTrans(ToUint32(w * 1000), w * 1000, g * 1000);
    ToUint32(w * 1000)
  }

  /** `int32(correctionG) * 1000`, a 32-bit signed product. */
  function CorrectionMg(g: nat): (mg: int)
    ensures -(Two31 as int) <= mg < Two31
    ensures (mg - g * 1000) % Two32 == 0
    ensures mg == g * 1000 <==> g <= 2147483
  {
    var w := ToInt32(g);
    CongruentScale(w, g, 1000);
    CongruentTrans(ToInt32(w * 1000), w * 1000, g * 1000);
    ToInt32(w * 1000)
  }

  /** The request of a `…SetParams` callback, from the page. */
  function ParamsRequest(d: Dom, g: ParamGroup): Request {
    match g
    case ScaleGroup => ScaleParams(d)
    case MassGroup => MassParams(d)
    case PidGroup => PidParams(d)
    case StepperGroup => StepperParams(d)
    case DcMotorGroup => DcMotorParams(d)
    case TemperatureGroup => TemperatureParams(d)
    case IngredientGroup => IngredientReq(0, Read(d, "txtIngredientName"))
    case TransportGroup => TransportParams(d)
  }

  function ScaleParams(d: Dom): Request {
    ScaleParamsReq(ReadUint32(d, "txtScaleIdx"), ReadUint32(d, "txtScaleCalibrWSampl"), ReadUint32(d, "txtScaleTareSampl"),
                   ReadUint32(d, "txtScaleReadingSamples"), ReadUint32(d, "txtScaleCalibrWeight"),
                   ReadUint32(d, "txtScaleCalibrZeroSampl"), ReadUint32(d, "txtScaleTrayWeight"))
  }

  function MassParams(d: Dom): Request {
    MassParamsReq(ReadUint32(d, "txtDispenseMassIdx"), ReadUint32(d, "txtMassRunsMax"), ReadInt32(d, "txtMassDispenseTimeout"))
  }

  /** The gains are sent scaled from their texts; `DeltaT` is always 1; the saturation limits and offset are unsigned texts sent as `int32`. */
  function PidParams(d: Dom): Request {
    PidParamsReq(ReadUint32(d, "txtPidIdx"),
                 [Read(d, "txtDispenseKp"), Read(d, "txtDispenseKi"), Read(d, "txtDispenseKd")],
                 ToInt32(ReadUint32(d, "txtDispenseSaturMax")), ToInt32(ReadUint32(d, "txtDispenseSaturMin")), 1,
                 ToInt32(ReadUint32(d, "txtDispensePidOffset")), ReadUint32(d, "txtDispenseSamplingT"))
  }

  function StepperParams(d: Dom): Request {
    StepperParamsReq(FloatText(Read(d, "txtStepperIdx")), ReadUint32(d, "txtStepperDir"),
                     ReadUint32(d, "txtStepperMaxCurrent"), ReadUint32(d, "txtStepperMinCurrent"),
                     ReadUint32(d, "txtStepperRetreatSpeed"), ReadInt32(d, "txtStepperRetreatAngle"),
                     ReadUint32(d, "txtStepperHoldCurrent"),
                     [Read(d, "txtStepperSpeedRps"), Read(d, "txtStepperAccelRps"), Read(d, "txtStepperDecelRps"),
                      Read(d, "txtStepperHomeSpeedRps"), Read(d, "txtStepperHomeAccelRps")])
  }

  function DcMotorParams(d: Dom): Request {
    DcMotorParamsReq(ReadUint32(d, "txtDcMotorIdx"), ReadUint32(d, "txtDcMotorDir"), ReadUint32(d, "txtDcMotorSpeedPerc"),
                     ReadUint32(d, "txtDcMotorRetreatSpeed"), ReadUint32(d, "txtDcMotorRetreatTime"))
  }

  function TemperatureParams(d: Dom): Request {
    TemperatureParamsReq(ReadUint32(d, "txtTemperatureControlIdx"), ToInt32(ReadUint32(d, "txtTemperatureControlSetPoint")),
                         ReadUint32(d, "txtTemperatureControlTolerance"), ToInt32(ReadUint32(d, "cmbTemperatureControlMode")))
  }

  /** The ten handover positions and the tolerance, each through `ParseInt(…, 10, 32)`. */
  function TransportParams(d: Dom): Request {
    TransportPositionsReq(ReadUint32(d, "txtTransportIdx"), ReadPositions(d, 0), ReadInt32(d, "txtToleranceMicro"))
  }

  /** Positions `k..9` as typed on the page. */
  function ReadPositions(d: Dom, k: nat): (ps: seq<int>)
    requires k <= Eeprom.NbHandoverPos
    ensures |ps| == Eeprom.NbHandoverPos - k
    ensures forall i :: 0 <= i < |ps| ==> ps[i] == ReadInt32(d, Eeprom.PositionElement(k + i))
    decreases Eeprom.NbHandoverPos - k
  {
    if k == Eeprom.NbHandoverPos then [] else [ReadInt32(d, Eeprom.PositionElement(k))] + ReadPositions(d, k + 1)
  }

  /** The requests of the parameter callbacks `gs`, in order. */
  function ParamsRequests(d: Dom, gs: seq<ParamGroup>): (reqs: seq<Request>)
    ensures |reqs| == |gs| && forall i :: 0 <= i < |gs| ==> reqs[i] == ParamsRequest(d, gs[i])
  {
    seq(|gs|, i requires 0 <= i < |gs| => ParamsRequest(d, gs[i]))
  }

  /** The request of a callback that sends exactly one request built from the page, if it is one. */
  function SimpleRequest(cmd: Command, d: Dom): Option<Request> {
    match cmd
    case EepromRead => Some(EepromReadReq)
    case ScaleRead => Some(ScaleReadReq(ReadUint32(d, "txtScaleIdx")))
    case ScaleCalibFull => Some(ScaleCalibReq(ReadUint32(d, "txtScaleIdx"), true))
    case ScaleCalibZero => Some(ScaleCalibReq(ReadUint32(d, "txtScaleIdx"), false))
    case HopperRead => Some(HopperReadReq(ReadUint32(d, "txtHopperIdx")))
    case HopperCalibrationOffset => Some(HopperCalibOffsetReq(ReadUint32(d, "txtHopperIdx")))
    case StepperRotate =>
      Some(StepperRotateReq(FloatText(Read(d, "txtStepperIdx")), ReadUint32(d, "txtStepperCurrent"), ReadInt32(d, "txtStepperAngle")))
    case StepperSpin => Some(StepperSpinReq(FloatText(Read(d, "txtStepperIdx")), ReadUint32(d, "txtStepperCurrent")))
    case StepperStop => Some(StepperStopReq(FloatText(Read(d, "txtStepperIdx"))))
    case VibratorRun => Some(VibratorRunReq(0, ReadUint32(d, "txtVibratorAmplitube")))
    case VibratorStop => Some(VibratorStopReq(0))
    case DcMotorSpin => Some(DcMotorSpinReq(ReadUint32(d, "txtDcMotorIdx")))
    case DcMotorStop => Some(DcMotorStopReq(ReadUint32(d, "txtDcMotorIdx")))
    case FreezerActivate => Some(FreezerReq(ReadUint32(d, "txtFreezerIdx"), true))
    case FreezerDeactivate => Some(FreezerReq(ReadUint32(d, "txtFreezerIdx"), false))
    case FreezerUnlock => Some(FreezerUnlockReq(ReadUint32(d, "txtFreezerIdx")))
    case HotHoldActivate => Some(HotHoldReq(ReadUint32(d, "txtHotHoldIdx"), true))
    case HotHoldDeactivate => Some(HotHoldReq(ReadUint32(d, "txtHotHoldIdx"), false))
    case ChangeOpMode => Some(OperatingStateReq(ToInt32(ReadUint32(d, "cmbOpMode"))))
    case GetState => Some(StateReq)
    case TransportMove =>
      Some(TransportMoveReq(ReadUint32(d, "txtTransportIdx"), ToInt32(ReadUint32(d, "txtTransportMoveToPos")),
                            ToInt32(ReadUint32(d, "txtTransportMoveFromPos"))))
    case TemperatureControlEnable => Some(TemperatureControlReq(ReadUint32(d, "txtTemperatureControlIdx"), true))
    case TemperatureControlDisable => Some(TemperatureControlReq(ReadUint32(d, "txtTemperatureControlIdx"), false))
    case AgitatorRun => Some(AgitationReq(ReadUint32(d, "txtAgitatorIdx"), true))
    case AgitatorStop => Some(AgitationReq(ReadUint32(d, "txtAgitatorIdx"), false))
    case SetParams(g) => Some(ParamsRequest(d, g))
    case _ => None
  }

  /** The factory data `FactoryChange` sends, read from the page before the confirmation. */
  function FactoryRequest(d: Dom): Request {
    FactoryReq(Mac.ScanMac(Read(d, "txtFactoryMac")), Read(d, "txtFactoryDispenserId"),
               ToInt32(ReadUint32(d, "cmbFactoryType")), ReadUint32(d, "txtFactoryHwRev"))
  }

  function DispenseRequest(d: Dom): Request {
    DispenseReq(ReadUint32(d, "txtDispenseMassIdx"), MassMg(ReadUint32(d, "txtDispenseMass")),
                CorrectionMg(ReadUint32(d, "txtDispenseMassCorrection")), ReadUint32(d, "txtDispenseMassSimT"),
                ReadUint32(d, "txtDispensePidDbg"))
  }

  function CookRequest(d: Dom): Request {
    FryerProcessReq(ReadUint32(d, "txtDispenseMassIdx"), MassMg(ReadUint32(d, "txtDispenseMass")),
                    CorrectionMg(ReadUint32(d, "txtDispenseMassCorrection")), ReadUint32(d, "txtDispenseMassSimT"),
                    ReadUint32(d, "txtProcessCookTime"), ReadUint32(d, "txtRateTime"), ToInt32(ReadUint32(d, "cmbProcMode")),
                    ReadUint32(d, "txtDripTime"), ReadUint32(d, "txtNbShakes"), ReadUint32(d, "txtShakeTime"),
                    ReadUint32(d, "cmbPreemptive") == 1)
  }

  /** The order in which `EepromWrite` sends the parameter sets, before the write request itself. */
  const EepromWriteOrder: seq<ParamGroup> :=
    [ScaleGroup, MassGroup, PidGroup, StepperGroup, DcMotorGroup, TemperatureGroup, IngredientGroup, TransportGroup]

  /** The requests `StopAllSteppers` sends: a stop for steppers 0 to 5. */
  function StopRequests(): (reqs: seq<Request>)
    ensures |reqs| == 6 && forall i :: 0 <= i < 6 ==> reqs[i] == StepperStopReq(Index(i))
  {
    [StepperStopReq(Index(0)), StepperStopReq(Index(1)), StepperStopReq(Index(2)),
     StepperStopReq(Index(3)), StepperStopReq(Index(4)), StepperStopReq(Index(5))]
  }

  /** The `if !ctx.wsConn` check that opens a guarded callback; `next` is the rest of its body. */
  function Guard(b: Browser, next: Browser): (b': Browser)
    ensures b.halted ==> b' == b
    ensures !b.halted && !b.wsConn ==> b' == b.(log := b.log + [Note(NotConnected)])
    ensures !b.halted && b.wsConn ==> b' == next
    ensures b.sent <= next.sent ==> b.sent <= b'.sent
  {
    if b.halted then b
    else if !b.wsConn then LogNote(b, NotConnected)
    else next
  }

  /** `ClearPidLog`: the PID log emptied under its column titles. */
  function ResetPidLog(b: Browser): (b': Browser)
    ensures Read(b'.dom, "txtPidArea") == "" && Read(b'.dom, "txtPidAreaTitle") == PidAreaTitle
    ensures forall id :: id != "txtPidArea" && id != "txtPidAreaTitle" ==> Read(b'.dom, id) == Read(b.dom, id)
    ensures b' == b.(dom := b'.dom)
  {
    b.(dom := Write(Write(b.dom, "txtPidAreaTitle", PidAreaTitle), "txtPidArea", ""))
  }

  /** Sends in turn. */
  function SendAll(b: Browser, reqs: seq<Request>): (b': Browser)
    ensures b'.wsConn == b.wsConn && b'.sockets == b.sockets && b'.dom == b.dom
    ensures b.sent <= b'.sent
    decreases |reqs|
  {
    if |reqs| == 0 then b else SendAll(SendToWs(b, reqs[0]), reqs[1..])
  }

  /** A `…SetParams` callback. */
  function SendParams(b: Browser, g: ParamGroup): (b': Browser)
    ensures b'.wsConn == b.wsConn && b'.sockets == b.sockets && b'.dom == b.dom
    ensures b.sent <= b'.sent
  {
    var sent := SendToWs(b, ParamsRequest(b.dom, g));
    if GroupGuarded(g) then Guard(b, sent) else sent
  }

  /** The parameter callbacks in turn, as `EepromWrite` calls them. */
  function SendAllParams(b: Browser, gs: seq<ParamGroup>): (b': Browser)
    ensures b'.wsConn == b.wsConn && b'.sockets == b.sockets && b'.dom == b.dom
    ensures b.sent <= b'.sent
    decreases |gs|
  {
    if |gs| == 0 then b else SendAllParams(SendParams(b, gs[0]), gs[1..])
  }

  /** The confirmed body of `EepromWrite`: every parameter callback, then the write request. */
  function WriteEeprom(b: Browser): (b': Browser)
    ensures b.sent <= b'.sent
  {
    SendToWs(SendAllParams(b, EepromWriteOrder), EepromWriteReq)
  }

  /** The body of `DispenseMass` after its guard: a zero cook time is refused. */
  function DispenseBody(b: Browser): (b': Browser)
    ensures b.sent <= b'.sent
  {
    if ReadUint32(b.dom, "txtProcessCookTime") == 0 then LogNote(b, "Cook time cannot be 0!")
    else SendToWs(ResetPidLog(b), DispenseRequest(b.dom))
  }

  /** The `…SetParams` callback, or the single-request callback, `cmd` is, with its guard if it has one. */
  function SendSimple(b: Browser, cmd: Command, req: Request): (b': Browser)
    ensures b.sent <= b'.sent
  {
    if IsGuarded(cmd) then Guard(b, SendToWs(b, req)) else SendToWs(b, req)
  }

  /** The callbacks that do more than send one request built from the page. */
  predicate IsCompound(cmd: Command) {
    || cmd.Connect? || cmd.Disconnect? || cmd.ClearLog? || cmd.ClearPidLog?
    || cmd.DispenserReboot? || cmd.FactoryChange? || cmd.EepromWrite? || cmd.UpgradeFirmware?
    || cmd.ScaleTare? || cmd.DispenseMass? || cmd.CookToRate?
    || cmd.DrawerLock? || cmd.DrawerUnlock? || cmd.StopAllSteppers?
  }

  /** A compound callback on a running program. */
  function ExecuteCompound(b: Browser, cmd: Command, confirmed: bool, urlOk: string -> bool): (b': Browser)
    requires !b.halted && IsCompound(cmd)
    ensures b.sent <= b'.sent
  {
    match cmd
    case Connect => Controller.Connect(b, urlOk)
    case Disconnect => Controller.Disconnect(b)
    case ClearLog => b.(log := [])
    case ClearPidLog => ResetPidLog(b)
    case DispenserReboot => Guard(b, if confirmed then SendToWs(b, RebootReq) else b)
    case FactoryChange => Guard(b, if confirmed then SendToWs(b, FactoryRequest(b.dom)) else b)
    case EepromWrite => Guard(b, if confirmed then WriteEeprom(b) else b)
    case UpgradeFirmware =>
      var url := Read(b.dom, "txtFirmwareUrl");
      Guard(b, SendToWs(LogNote(b, url), UpgradeFirmwareReq(ToInt32(ReadUint32(b.dom, "cmbFirmwareType")), url)))
    case ScaleTare =>
      var b1 := SendParams(b, ScaleGroup);
      Guard(b1, SendToWs(b1, ScaleTareReq(ReadUint32(b1.dom, "txtScaleIdx"))))
    case DispenseMass => Guard(b, DispenseBody(b))
    case CookToRate => Guard(b, SendToWs(ResetPidLog(b), CookRequest(b.dom)))
    case DrawerLock => Guard(b, b)
    case DrawerUnlock => Guard(b, b)
    case StopAllSteppers => Guard(b, SendAll(b, StopRequests()))
  }

  /**
    A button press. Once the program has halted nothing runs; `Connect`,
    `Disconnect`, `ClearLog` and `ClearPidLog` touch no socket; every other
    callback either sends or leaves a note.
   */
  function Execute(b: Browser, cmd: Command, confirmed: bool, urlOk: string -> bool): (b': Browser)
    ensures b.halted ==> b' == b
    ensures b.sent <= b'.sent
  {
    if b.halted then b
    else if IsCompound(cmd) then ExecuteCompound(b, cmd, confirmed, urlOk)
    else match SimpleRequest(cmd, b.dom)
      case Some(req) => SendSimple(b, cmd, req)
      case None => b
  }

  /*
    How `Execute` dispatches the callbacks with several steps; the lemmas
    below reason from these equations rather than from `Execute`'s whole match.
   */

  lemma ExecuteEepromWrite(b: Browser, confirmed: bool, urlOk: string -> bool)
    ensures Execute(b, EepromWrite, confirmed, urlOk) == Guard(b, if confirmed then WriteEeprom(b) else b)
  {
    if !b.halted {
      assert Execute(b, EepromWrite, confirmed, urlOk) == ExecuteCompound(b, EepromWrite, confirmed, urlOk);
    }
  }

  lemma ExecuteStopAll(b: Browser, confirmed: bool, urlOk: string -> bool)
    ensures Execute(b, StopAllSteppers, confirmed, urlOk) == Guard(b, SendAll(b, StopRequests()))
  {
    if !b.halted {
      assert Execute(b, StopAllSteppers, confirmed, urlOk) == ExecuteCompound(b, StopAllSteppers, confirmed, urlOk);
    }
  }

  lemma ExecuteCookToRate(b: Browser, confirmed: bool, urlOk: string -> bool)
    ensures Execute(b, CookToRate, confirmed, urlOk) == Guard(b, SendToWs(ResetPidLog(b), CookRequest(b.dom)))
  {
    if !b.halted {
      assert Execute(b, CookToRate, confirmed, urlOk) == ExecuteCompound(b, CookToRate, confirmed, urlOk);
    }
  }

  lemma ExecuteDispenseMass(b: Browser, confirmed: bool, urlOk: string -> bool)
    ensures Execute(b, DispenseMass, confirmed, urlOk) == Guard(b, DispenseBody(b))
  {
    if !b.halted {
      assert Execute(b, DispenseMass, confirmed, urlOk) == ExecuteCompound(b, DispenseMass, confirmed, urlOk);
    }
  }

  lemma ExecuteScaleTare(b: Browser, confirmed: bool, urlOk: string -> bool)
    requires !b.halted
    ensures var b1 := SendParams(b, ScaleGroup);
            Execute(b, ScaleTare, confirmed, urlOk) == Guard(b1, SendToWs(b1, ScaleTareReq(ReadUint32(b1.dom, "txtScaleIdx"))))
  {
  }

  /** The `Sent` records of `reqs` going out on the current socket to the page's dispenser. */
  function Stamp(b: Browser, reqs: seq<Request>): (s: seq<Sent>)
    requires HasSocket(b)
    ensures |s| == |reqs|
  {
    seq(|reqs|, i requires 0 <= i < |reqs| => Sent(|b.sockets| - 1, DispenserId(b.dom), reqs[i]))
  }

  /** Sends on a usable socket all go out, in order, on that socket, to the page's dispenser. */
  lemma {:induction false} SendAllSends(b: Browser, reqs: seq<Request>)
    requires CanSend(b)
    ensures CanSend(SendAll(b, reqs))
    ensures SendAll(b, reqs).sent == b.sent + Stamp(b, reqs)
    decreases |reqs|
  {
    if |reqs| > 0 {
      var b1 := SendToWs(b, reqs[0]);
      SendAllSends(b1, reqs[1..]);
      assert Stamp(b, reqs) == [Sent(|b.sockets| - 1, DispenserId(b.dom), reqs[0])] + Stamp(b1, reqs[1..]);
    } else {
      assert b.sent + [] == b.sent;
    }
  }

  /** With `wsConn` set, each parameter callback in turn amounts to sending its request. */
  lemma {:induction false} SendAllParamsSends(b: Browser, gs: seq<ParamGroup>)
    requires b.wsConn
    ensures SendAllParams(b, gs) == SendAll(b, ParamsRequests(b.dom, gs))
    decreases |gs|
  {
    var reqs := ParamsRequests(b.dom, gs);
    if |gs| > 0 {
      var b1 := SendParams(b, gs[0]);
      assert b1 == SendToWs(b, reqs[0]);
      SendAllParamsSends(b1, gs[1..]);
      assert reqs[1..] == ParamsRequests(b1.dom, gs[1..]);
    }
  }

  /** A guarded callback with `wsConn` clear sends nothing and only logs the refusal. */
  lemma GuardedRefused(b: Browser, cmd: Command, confirmed: bool, urlOk: string -> bool)
    requires !b.halted && !b.wsConn && IsGuarded(cmd)
    ensures Execute(b, cmd, confirmed, urlOk) == b.(log := b.log + [Note(NotConnected)])
  {
  }

  /**
    An unguarded single-request callback sends with `wsConn` clear, for
    instance after a stale close event while the current socket is open.
   */
  lemma UnguardedSends(b: Browser, cmd: Command, confirmed: bool, urlOk: string -> bool)
    requires CanSend(b) && !b.wsConn && !IsGuarded(cmd) && SimpleRequest(cmd, b.dom).Some?
    ensures Execute(b, cmd, confirmed, urlOk).sent == b.sent + [Sent(|b.sockets| - 1, DispenserId(b.dom), SimpleRequest(cmd, b.dom).value)]
  {
  }

  /** Before the first `Connect` there is no socket: an unguarded send ends the program. */
  lemma UnguardedBeforeConnect(d: Dom, cmd: Command, confirmed: bool, urlOk: string -> bool)
    requires !IsGuarded(cmd) && SimpleRequest(cmd, d).Some?
    ensures Execute(Init(d), cmd, confirmed, urlOk).halted
  {
  }

  /**
    A guarded callback right after `Connect`, while the socket is still
    connecting, passes the guard and then ends the program on the send;
    when the browser rejected the address, `Connect` itself ended it.
   */
  lemma GuardedWhileConnecting(b: Browser, urlOk: string -> bool)
    requires !b.halted && !b.wsConn
    ensures Execute(Execute(b, Connect, false, urlOk), Command.EepromRead, false, urlOk).halted
  {
  }

  /** `ScaleTare` sends the scale parameters before its guard: they go out even when `wsConn` is clear. */
  lemma ScaleTareSendsParamsFirst(b: Browser, urlOk: string -> bool)
    requires CanSend(b)
    ensures var b' := Execute(b, ScaleTare, false, urlOk);
            var stamp := Sent(|b.sockets| - 1, DispenserId(b.dom), ParamsRequest(b.dom, ScaleGroup));
            && (!b.wsConn ==> b'.sent == b.sent + [stamp] && b'.log[|b'.log| - 1] == Note(NotConnected))
            && (b.wsConn ==> b'.sent == b.sent + [stamp, Sent(|b.sockets| - 1, DispenserId(b.dom), ScaleTareReq(ReadUint32(b.dom, "txtScaleIdx")))])
  {
    ExecuteScaleTare(b, false, urlOk);
  }

  /** A cook time of 0 stops `DispenseMass` before anything is sent or cleared. */
  lemma DispenseMassNeedsCookTime(b: Browser, urlOk: string -> bool)
    requires !b.halted && b.wsConn && ReadUint32(b.dom, "txtProcessCookTime") == 0
    ensures Execute(b, DispenseMass, false, urlOk) == b.(log := b.log + [Note("Cook time cannot be 0!")])
  {
    ExecuteDispenseMass(b, false, urlOk);
  }

  /** Otherwise it clears the PID log and sends the dispense request. */
  lemma DispenseMassSends(b: Browser, urlOk: string -> bool)
    requires CanSend(b) && b.wsConn && ReadUint32(b.dom, "txtProcessCookTime") != 0
    ensures var b' := Execute(b, DispenseMass, false, urlOk);
            && b'.sent == b.sent + [Sent(|b.sockets| - 1, DispenserId(b.dom), DispenseRequest(b.dom))]
            && Read(b'.dom, "txtPidArea") == ""
  {
    ExecuteDispenseMass(b, false, urlOk);
    var b1 := ResetPidLog(b);
    assert DispenserId(b1.dom) == DispenserId(b.dom);
  }

  /** `CookToRate` reads the same cook time but has no such check: a 0 goes out. */
  lemma CookToRateSendsZero(b: Browser, urlOk: string -> bool)
    requires CanSend(b) && b.wsConn && ReadUint32(b.dom, "txtProcessCookTime") == 0
    ensures var b' := Execute(b, CookToRate, false, urlOk);
            && b'.sent == b.sent + [Sent(|b.sockets| - 1, DispenserId(b.dom), CookRequest(b.dom))]
            && CookRequest(b.dom).cookingTimeMs == 0
  {
    ExecuteCookToRate(b, false, urlOk);
    assert DispenserId(ResetPidLog(b).dom) == DispenserId(b.dom);
  }

  /** The mass in milligrams wraps past 4294967 g: 4294968 g goes out as 704 mg. */
  lemma MassWraps()
    ensures MassMg(4294968) == 704 && CorrectionMg(2147484) == -2147483296
  {
  }

  /**
    `EepromWrite`, confirmed and connected, sends the eight parameter sets
    in `EepromWriteOrder` and then the write request, all from the same page.
   */
  lemma EepromWriteOrderLemma(b: Browser, urlOk: string -> bool)
    requires CanSend(b) && b.wsConn
    ensures Execute(b, EepromWrite, true, urlOk).sent ==
            b.sent + Stamp(b, ParamsRequests(b.dom, EepromWriteOrder) + [EepromWriteReq])
  {
    ExecuteEepromWrite(b, true, urlOk);
    ParamsThenWrite(b, EepromWriteOrder);
  }

  /** Parameter callbacks `gs` and then the write request go out in that order. */
  lemma {:induction false} ParamsThenWrite(b: Browser, gs: seq<ParamGroup>)
    requires CanSend(b) && b.wsConn
    ensures SendToWs(SendAllParams(b, gs), EepromWriteReq).sent == b.sent + Stamp(b, ParamsRequests(b.dom, gs) + [EepromWriteReq])
  {
    var reqs := ParamsRequests(b.dom, gs);
    SendAllParamsSends(b, gs);
    var b1 := SendAll(b, reqs);
    SendAllSends(b, reqs);
    assert b1.sockets == b.sockets && b1.dom == b.dom;
    var last := Sent(|b.sockets| - 1, DispenserId(b.dom), EepromWriteReq);
    assert SendToWs(b1, EepromWriteReq).sent == b1.sent + [last];
    StampSnoc(b, reqs, EepromWriteReq);
  }

  /** Stamping one more request adds its record at the end. */
  lemma StampSnoc(b: Browser, reqs: seq<Request>, req: Request)
    requires HasSocket(b)
    ensures Stamp(b, reqs + [req]) == Stamp(b, reqs) + [Sent(|b.sockets| - 1, DispenserId(b.dom), req)]
  {
  }

  /** Unconfirmed, the confirming callbacks send nothing. */
  lemma Unconfirmed(b: Browser, cmd: Command, urlOk: string -> bool)
    requires !b.halted && b.wsConn
    requires cmd == EepromWrite || cmd == DispenserReboot || cmd == FactoryChange
    ensures Execute(b, cmd, false, urlOk) == b
  {
  }

  /** `StopAllSteppers` stops steppers 0 to 5 only, of the twelve an EEPROM report describes. */
  lemma StopAllSteppersSendsSix(b: Browser, urlOk: string -> bool)
    requires CanSend(b) && b.wsConn
    ensures var b' := Execute(b, StopAllSteppers, false, urlOk);
            && |b'.sent| == |b.sent| + 6 < |b.sent| + Eeprom.NbSteppers
            && forall i :: 0 <= i < 6 ==> b'.sent[|b.sent| + i].req == StepperStopReq(Index(i))
  {
    ExecuteStopAll(b, false, urlOk);
    SendAllRequests(b, StopRequests());
  }

  /** What `SendAll` adds on a usable socket, request by request. */
  lemma SendAllRequests(b: Browser, reqs: seq<Request>)
    requires CanSend(b)
    ensures |SendAll(b, reqs).sent| == |b.sent| + |reqs|
    ensures forall i :: 0 <= i < |reqs| ==> SendAll(b, reqs).sent[|b.sent| + i].req == reqs[i]
  {
    SendAllSends(b, reqs);
  }

  /** The drawer buttons pass the guard and do nothing. */
  lemma DrawerDoesNothing(b: Browser, confirmed: bool, urlOk: string -> bool)
    requires !b.halted && b.wsConn
    ensures Execute(b, DrawerLock, confirmed, urlOk) == b && Execute(b, DrawerUnlock, confirmed, urlOk) == b
  {
  }

  /** Reading back a number the page shows. */
  lemma ReadShown(d: Dom, id: string, v: int)
    requires 0 <= v <= MaxUint32 && Read(d, id) == FormatInt(v)
    ensures ReadUint32(d, id) == v
  {
    ParseFormatDecimal(v);
  }

  /**
    The factory data the page shows from an EEPROM report is what
    `FactoryChange` sends back: the address, the id and, in range, the
    device type and hardware revision.
   */
  lemma FactoryRoundTrip(d: Dom, f: Eeprom.FactoryInfo)
    requires |f.mac| >= Mac.MacLength
    ensures var s := Eeprom.ShowPart(d, Eeprom.FactoryPart(Some(f)));
            var req := FactoryRequest(s.dom);
            && s.ok && req.mac == f.mac[..Mac.MacLength] && req.id == f.id
            && (0 <= f.deviceType < Two31 ==> req.deviceType == f.deviceType)
            && (0 <= f.hwRev <= MaxUint32 ==> req.hwRev == f.hwRev)
  {
    var s := Eeprom.ShowPart(d, Eeprom.FactoryPart(Some(f)));
    Mac.ScanFormatMac(f.mac);
    if 0 <= f.deviceType < Two31 { ReadShown(s.dom, "cmbFactoryType", f.deviceType); }
    if 0 <= f.hwRev <= MaxUint32 { ReadShown(s.dom, "txtFactoryHwRev", f.hwRev); }
  }

  /**
    The DC motor entry the page shows is what `DcMotorSetParams` sends
    back, field for field, but to the index as typed: past the table the
    page shows the last entry and the write goes to the typed index.
   */
  lemma DcMotorRoundTrip(d: Dom, entries: seq<Eeprom.Entry>)
    requires |entries| > 0
    requires forall e, f :: e in entries && f in Eeprom.DcMotorFields ==> 0 <= Eeprom.Field(e, f) <= MaxUint32
    requires Eeprom.SelectIndex(ReadUint32(d, "txtDcMotorIdx"), Some(Eeprom.NbDcMotors)) < |entries|
    ensures var p := Eeprom.IndexedPart(entries, "txtDcMotorIdx", Some(Eeprom.NbDcMotors), Eeprom.DcMotorFields);
            var s := Eeprom.ShowPart(d, p);
            var e := entries[Eeprom.SelectIndex(ReadUint32(d, "txtDcMotorIdx"), Some(Eeprom.NbDcMotors))];
            s.ok && DcMotorParams(s.dom) ==
              DcMotorParamsReq(ReadUint32(d, "txtDcMotorIdx"), Eeprom.Field(e, "txtDcMotorDir"),
                               Eeprom.Field(e, "txtDcMotorSpeedPerc"), Eeprom.Field(e, "txtDcMotorRetreatSpeed"),
                               Eeprom.Field(e, "txtDcMotorRetreatTime"))
  {
    var idx := Eeprom.SelectIndex(ReadUint32(d, "txtDcMotorIdx"), Some(Eeprom.NbDcMotors));
    var e := entries[idx];
    var d' := Eeprom.WriteFields(d, Eeprom.DcMotorFields, e);
    assert Eeprom.ShowPart(d, Eeprom.IndexedPart(entries, "txtDcMotorIdx", Some(Eeprom.NbDcMotors), Eeprom.DcMotorFields))
           == Eeprom.Shown(d', true);
    assert e in entries;
    FieldReadBack(d', e, "txtDcMotorDir");
    FieldReadBack(d', e, "txtDcMotorSpeedPerc");
    FieldReadBack(d', e, "txtDcMotorRetreatSpeed");
    FieldReadBack(d', e, "txtDcMotorRetreatTime");
    DcMotorIndexNotField();
    assert ReadUint32(d', "txtDcMotorIdx") == ReadUint32(d, "txtDcMotorIdx");
    assert DcMotorParams(d') ==
           DcMotorParamsReq(ReadUint32(d, "txtDcMotorIdx"), Eeprom.Field(e, "txtDcMotorDir"),
                            Eeprom.Field(e, "txtDcMotorSpeedPerc"), Eeprom.Field(e, "txtDcMotorRetreatSpeed"),
                            Eeprom.Field(e, "txtDcMotorRetreatTime"));
  }

  /** Showing a DC motor entry leaves the index element alone. */
  lemma DcMotorIndexNotField()
    ensures "txtDcMotorIdx" !in Eeprom.DcMotorFields
  {
    var fs := Eeprom.DcMotorFields;
    assert "txtDcMotorIdx"[10] == 'I' && fs[1][10] == 'D';
    assert |"txtDcMotorIdx"| == 13 && |fs[0]| == 19 && |fs[2]| == 22 && |fs[3]| == 21;
  }

  /** A DC motor field shown from `e` reads back as its value. */
  lemma FieldReadBack(d': Dom, e: Eeprom.Entry, f: string)
    requires f in Eeprom.DcMotorFields && 0 <= Eeprom.Field(e, f) <= MaxUint32
    requires forall g :: g in Eeprom.DcMotorFields ==> Read(d', g) == FormatInt(Eeprom.Field(e, g))
    ensures ReadUint32(d', f) == Eeprom.Field(e, f)
  {
    ReadShown(d', f, Eeprom.Field(e, f));
  }

  /** What the page receives: a button press (with the answer to any confirmation) or a socket event. */
  datatype Input = Click(cmd: Command, confirmed: bool) | FromSocket(socket: nat, event: SocketEvent)

  function Step(b: Browser, i: Input, decodeReport: seq<byte> -> Option<Report>, urlOk: string -> bool): (b': Browser)
    ensures b.halted ==> b' == b
    ensures b.sent <= b'.sent
  {
    match i
    case Click(cmd, confirmed) => Execute(b, cmd, confirmed, urlOk)
    case FromSocket(k, e) => OnSocket(b, k, e, decodeReport)
  }

  function RunInputs(b: Browser, inputs: seq<Input>, decodeReport: seq<byte> -> Option<Report>, urlOk: string -> bool): Browser
    decreases |inputs|
  {
    if |inputs| == 0 then b else RunInputs(Step(b, inputs[0], decodeReport, urlOk), inputs[1..], decodeReport, urlOk)
  }

  /** Requests once sent stay sent, and a halted program stays as it was. */
  lemma {:induction false} RunInputsMonotone(b: Browser, inputs: seq<Input>, decodeReport: seq<byte> -> Option<Report>, urlOk: string -> bool)
    ensures b.sent <= RunInputs(b, inputs, decodeReport, urlOk).sent
    ensures b.halted ==> RunInputs(b, inputs, decodeReport, urlOk) == b
    decreases |inputs|
  {
    if |inputs| > 0 {
      RunInputsMonotone(Step(b, inputs[0], decodeReport, urlOk), inputs[1..], decodeReport, urlOk);
    }
  }
}
