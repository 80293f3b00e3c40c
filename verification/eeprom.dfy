/**
  `parseEepromRead`: how the controller shows a dispenser's EEPROM report
  on the page. Each section of the report is a repeated protocol-buffer
  field (absent and empty are the same); for the indexed sections the
  entry shown is the one selected by an index typed into the page. Five
  sections clamp that index to their table size; temperature and
  transport use it as typed. Reading past the end of a slice panics, which
  ends the controller program with the writes made so far left on the
  page.
 */
module Eeprom {
  import opened Wrappers
  import opened Numeric
  import opened Dom
  import Mac

  const NbDcMotors: nat := 6
  const NbPidSettings: nat := 4
  const NbMassSettings: nat := 4
  const NbSteppers: nat := 12
  const NbTempControllers: nat := 2
  const NbScales: nat := 5
  const NbTransports: nat := 11
  const NbHandoverPos: nat := 10

  datatype FactoryInfo = FactoryInfo(id: string, mac: seq<byte>, deviceType: int, hwRev: int)

  /** An entry of an indexed section: its integer fields by the element they are shown in; unset fields read 0. */
  datatype Entry = Entry(values: map<string, int>)

  function Field(e: Entry, name: string): int {
    if name in e.values then e.values[name] else 0
  }

  datatype TransportEntry = TransportEntry(positions: seq<int>, tolerance: int)

  datatype EepromReport = EepromReport(
    factory: Option<FactoryInfo>,
    steppers: seq<Entry>,
    pids: seq<Entry>,
    scales: seq<Entry>,
    dcMotors: seq<Entry>,
    masses: seq<Entry>,
    temperatures: seq<Entry>,
    ingredients: seq<string>,
    transports: seq<TransportEntry>)

  /** The integer fields of each indexed section, by the element showing them (the float-scaled fields are not modelled). */
  const StepperFields: seq<string> := ["txtStepperDir", "txtStepperMaxCurrent", "txtStepperMinCurrent",
                                       "txtStepperHoldCurrent", "txtStepperRetreatSpeed", "txtStepperRetreatAngle"]
  const PidFields: seq<string> := ["txtDispenseSaturMax", "txtDispenseSaturMin", "txtDispensePidOffset", "txtDispenseSamplingT"]
  const ScaleFields: seq<string> := ["txtScaleReadingSamples", "txtScaleCalibrWeight", "txtScaleCalibrWSampl",
                                     "txtScaleTareSampl", "txtScaleCalibrZeroSampl", "txtScaleTrayWeight"]
  const DcMotorFields: seq<string> := ["txtDcMotorSpeedPerc", "txtDcMotorDir", "txtDcMotorRetreatSpeed", "txtDcMotorRetreatTime"]
  const MassFields: seq<string> := ["txtMassRunsMax", "txtMassDispenseTimeout"]
  const TemperatureFields: seq<string> := ["txtTemperatureControlSetPoint", "txtTemperatureControlTolerance", "cmbTemperatureControlMode"]
  const FactoryElements: seq<string> := ["txtFactoryDispenserId", "txtFactoryMac", "cmbFactoryType", "txtFactoryHwRev"]

  /** The page writes so far, and whether the display ran to the end (`false`: it panicked). */
  datatype Shown = Shown(dom: Dom, ok: bool)

  /** One section of the report with how it is shown. */
  datatype Part =
    | FactoryPart(factory: Option<FactoryInfo>)
    | IndexedPart(entries: seq<Entry>, indexElement: string, limit: Option<nat>, fields: seq<string>)
    | IngredientPart(names: seq<string>)
    | TransportPart(transports: seq<TransportEntry>)

  /** A limit, where there is one, is a positive table size. */
  predicate ValidPart(p: Part) {
    p.IndexedPart? && p.limit.Some? ==> p.limit.value > 0
  }

  /** The sections in the order `parseEepromRead` handles them. */
  function Parts(rep: EepromReport): (ps: seq<Part>)
    ensures |ps| == 9 && forall i :: 0 <= i < |ps| ==> ValidPart(ps[i])
  {
    [ FactoryPart(rep.factory),
      IndexedPart(rep.steppers, "txtStepperIdx", Some(NbSteppers), StepperFields),
      IndexedPart(rep.pids, "txtPidIdx", Some(NbPidSettings), PidFields),
      IndexedPart(rep.scales, "txtScaleIdx", Some(NbScales), ScaleFields),
      IndexedPart(rep.dcMotors, "txtDcMotorIdx", Some(NbDcMotors), DcMotorFields),
      IndexedPart(rep.masses, "txtDispenseMassIdx", Some(NbMassSettings), MassFields),
      IndexedPart(rep.temperatures, "txtTemperatureControlIdx", None, TemperatureFields),
      IngredientPart(rep.ingredients),
      TransportPart(rep.transports) ]
  }

  /** The index clamp: an index at or past the table size becomes its last index; without a table size the index is used as parsed. */
  function SelectIndex(parsed: nat, limit: Option<nat>): (idx: nat)
    requires limit.Some? ==> limit.value > 0
    ensures limit.None? ==> idx == parsed
    ensures limit.Some? ==> idx < limit.value
    ensures limit.Some? ==> (idx == parsed <==> parsed < limit.value)
    ensures limit.Some? && parsed >= limit.value ==> idx == limit.value - 1
  {
    match limit
    case None => parsed
    case Some(n) => if parsed >= n then n - 1 else parsed
  }

  /** Shows every field of `e` in its element. */
  function WriteFields(d: Dom, fields: seq<string>, e: Entry): (d': Dom)
    ensures forall f :: f in fields ==> Read(d', f) == FormatInt(Field(e, f))
    ensures forall id :: id !in fields ==> Read(d', id) == Read(d, id)
    decreases |fields|
  {
    if |fields| == 0 then d
    else
      var d' := WriteFields(Write(d, fields[0], FormatInt(Field(e, fields[0]))), fields[1..], e);
      assert forall f :: f in fields ==> f == fields[0] || f in fields[1..];
      d'
  }

  /** The element showing transport position `k`. */
  function PositionElement(k: nat): (id: string)
    ensures IsPositionElement(id)
  {
    var id := "txtPosition" + FormatInt(k) + "Micro";
    assert id[..11] == "txtPosition";
    id
  }

  predicate IsPositionElement(id: string) {
    |id| >= 11 && id[..11] == "txtPosition"
  }

  /** Positions `k..9` of a transport entry; reading past the end of a shorter list panics. */
  function WritePositions(d: Dom, positions: seq<int>, k: nat): (s: Shown)
    requires k <= NbHandoverPos && k <= |positions|
    ensures s.ok <==> |positions| >= NbHandoverPos
    ensures forall id :: !IsPositionElement(id) ==> Read(s.dom, id) == Read(d, id)
    decreases NbHandoverPos - k
  {
    if k == NbHandoverPos then Shown(d, true)
    else if k >= |positions| then Shown(d, false)
    else WritePositions(Write(d, PositionElement(k), FormatInt(positions[k])), positions, k + 1)
  }

  /** The elements a section may write. */
  predicate Touches(p: Part, id: string) {
    match p
    case FactoryPart(_) => id in FactoryElements
    case IndexedPart(_, _, _, fields) => id in fields
    case IngredientPart(_) => id == "txtIngredientName"
    case TransportPart(_) => id == "txtToleranceMicro" || IsPositionElement(id)
  }

  /** The element holding the index a section reads, if any. */
  function IndexElement(p: Part): Option<string> {
    match p
    case IndexedPart(_, elem, _, _) => Some(elem)
    case TransportPart(_) => Some("txtTransportIdx")
    case _ => None
  }

  /** When a section is shown without panicking, given the page it starts from. */
  predicate Fits(d: Dom, p: Part)
    requires ValidPart(p)
  {
    match p
    case FactoryPart(f) => f.None? || |f.value.mac| >= Mac.MacLength
    case IndexedPart(entries, elem, limit, _) =>
      |entries| == 0 || SelectIndex(ReadUint32(d, elem), limit) < |entries|
    case IngredientPart(_) => true
    case TransportPart(ts) =>
      |ts| == 0 || (ReadUint32(d, "txtTransportIdx") < |ts|
                    && (|ts[ReadUint32(d, "txtTransportIdx")].positions| == 0
                        || |ts[ReadUint32(d, "txtTransportIdx")].positions| >= NbHandoverPos))
  }

  /** One section of `parseEepromRead`. */
  function ShowPart(d: Dom, p: Part): (s: Shown)
    requires ValidPart(p)
    ensures s.ok <==> Fits(d, p)
    ensures forall id :: !Touches(p, id) ==> Read(s.dom, id) == Read(d, id)
  {
    match p
    case FactoryPart(None) => Shown(d, true)
    case FactoryPart(Some(f)) =>
      var d1 := Write(d, "txtFactoryDispenserId", f.id);
      if |f.mac| < Mac.MacLength then Shown(d1, false)
      else
        var d2 := Write(d1, "txtFactoryMac", Mac.FormatMac(f.mac));
        var d3 := Write(d2, "cmbFactoryType", FormatInt(f.deviceType));
        Shown(Write(d3, "txtFactoryHwRev", FormatInt(f.hwRev)), true)
    case IndexedPart(entries, elem, limit, fields) =>
      if |entries| == 0 then Shown(d, true)
      else
        var idx := SelectIndex(ReadUint32(d, elem), limit);
        if idx >= |entries| then Shown(d, false)
        else Shown(WriteFields(d, fields, entries[idx]), true)
    case IngredientPart(names) =>
      if |names| == 0 then Shown(d, true) else Shown(Write(d, "txtIngredientName", names[0]), true)
    case TransportPart(ts) =>
      if |ts| == 0 then Shown(d, true)
      else
        var idx := ReadUint32(d, "txtTransportIdx");
        if idx >= |ts| then Shown(d, false)
        else
          var s := if |ts[idx].positions| == 0 then Shown(d, true) else WritePositions(d, ts[idx].positions, 0);
          if !s.ok then s
          else Shown(Write(s.dom, "txtToleranceMicro", FormatInt(ts[idx].tolerance)), true)
  }

  /** The sections in turn, stopping at the first panic. */
  function ShowParts(d: Dom, ps: seq<Part>): (s: Shown)
    requires forall i :: 0 <= i < |ps| ==> ValidPart(ps[i])
    ensures forall id :: (forall i :: 0 <= i < |ps| ==> !Touches(ps[i], id)) ==> Read(s.dom, id) == Read(d, id)
    decreases |ps|
  {
    if |ps| == 0 then Shown(d, true)
    else
      var s := ShowPart(d, ps[0]);
      if !s.ok then s
      else
        var rest := ShowParts(s.dom, ps[1..]);
        assert forall id :: (forall i :: 0 <= i < |ps| ==> !Touches(ps[i], id)) ==>
          !Touches(ps[0], id) && forall i :: 0 <= i < |ps[1..]| ==> !Touches(ps[1..][i], id);
        rest
  }

  /** `parseEepromRead`: the report's text goes to the export box first, then each section is shown. */
  function Show(d: Dom, text: string, rep: EepromReport): Shown {
    ShowParts(Write(d, "eepromExportData", text), Parts(rep))
  }

  /** A clamped section whose table is complete never reads past its end, whatever index is typed. */
  lemma ClampedSectionFits(d: Dom, entries: seq<Entry>, elem: string, n: nat, fields: seq<string>)
    requires n > 0 && |entries| >= n
    ensures ShowPart(d, IndexedPart(entries, elem, Some(n), fields)).ok
    ensures var idx := if ReadUint32(d, elem) >= n then n - 1 else ReadUint32(d, elem);
            forall f :: f in fields ==> Read(ShowPart(d, IndexedPart(entries, elem, Some(n), fields)).dom, f) == FormatInt(Field(entries[idx], f))
  {
  }

  /**
    The temperature index is not clamped: with the full table of two
    controllers, an index of 2 or more panics before anything of the
    section is written.
   */
  lemma TemperatureOverrun(d: Dom, entries: seq<Entry>)
    requires |entries| == NbTempControllers && ReadUint32(d, "txtTemperatureControlIdx") >= NbTempControllers
    ensures var s := ShowPart(d, IndexedPart(entries, "txtTemperatureControlIdx", None, TemperatureFields));
            !s.ok && s.dom == d
  {
  }

  /** A transport entry with fewer than ten positions panics after showing the ones it has. */
  lemma ShortPositionsPanic(d: Dom, ts: seq<TransportEntry>)
    requires 0 < |ts| && ReadUint32(d, "txtTransportIdx") < |ts|
    requires 0 < |ts[ReadUint32(d, "txtTransportIdx")].positions| < NbHandoverPos
    ensures !ShowPart(d, TransportPart(ts)).ok
    ensures Read(ShowPart(d, TransportPart(ts)).dom, "txtToleranceMicro") == Read(d, "txtToleranceMicro")
  {
    var idx := ReadUint32(d, "txtTransportIdx");
    var s := WritePositions(d, ts[idx].positions, 0);
    assert !s.ok;
    assert !IsPositionElement("txtToleranceMicro") by { assert "txtToleranceMicro"[3] != "txtPosition"[3]; }
  }

  /** A report no section of which panics is shown to the end. */
  lemma {:induction false} ShowPartsComplete(d: Dom, ps: seq<Part>)
    requires forall i :: 0 <= i < |ps| ==> ValidPart(ps[i]) && Fits(d, ps[i])
    requires forall i, j :: 0 <= i < j < |ps| && IndexElement(ps[j]).Some? ==> !Touches(ps[i], IndexElement(ps[j]).value)
    ensures ShowParts(d, ps).ok
    decreases |ps|
  {
    if |ps| > 0 {
      var s := ShowPart(d, ps[0]);
      var tail := ps[1..];
      forall i | 0 <= i < |tail| ensures ValidPart(tail[i]) && Fits(s.dom, tail[i]) {
        assert tail[i] == ps[i + 1];
        FitsFrame(d, s.dom, tail[i]);
      }
      ShowPartsComplete(s.dom, tail);
    }
  }

  /** Whether a section fits depends on the page only through its index element. */
  lemma FitsFrame(d: Dom, d': Dom, p: Part)
    requires ValidPart(p)
    requires IndexElement(p).Some? ==> Read(d, IndexElement(p).value) == Read(d', IndexElement(p).value)
    ensures Fits(d, p) <==> Fits(d', p)
  {
  }

  /** No section writes an element a later section reads its index from. */
  lemma PartsIndependent(rep: EepromReport)
    ensures var ps := Parts(rep);
            forall i, j :: 0 <= i < j < |ps| && IndexElement(ps[j]).Some? ==> !Touches(ps[i], IndexElement(ps[j]).value)
  {
    var ps := Parts(rep);
    assert !IsPositionElement("txtTransportIdx") by { assert "txtTransportIdx"[3] != "txtPosition"[3]; }
  }

  /** No section writes the export box. */
  lemma ExportUntouched(rep: EepromReport)
    ensures forall i :: 0 <= i < |Parts(rep)| ==> !Touches(Parts(rep)[i], "eepromExportData")
  {
    assert !IsPositionElement("eepromExportData") by { assert "eepromExportData"[0] != "txtPosition"[0]; }
  }

  /**
    A report whose sections all fit the page is shown to the end, with the
    report text left in the export box.
   */
  lemma ShowComplete(d: Dom, text: string, rep: EepromReport)
    requires forall p :: p in Parts(rep) ==> Fits(Write(d, "eepromExportData", text), p)
    ensures Show(d, text, rep).ok
    ensures Read(Show(d, text, rep).dom, "eepromExportData") == text
  {
    var ps := Parts(rep);
    PartsIndependent(rep);
    ExportUntouched(rep);
    forall i | 0 <= i < |ps| ensures Fits(Write(d, "eepromExportData", text), ps[i]) {
      assert ps[i] in ps;
    }
    ShowPartsComplete(Write(d, "eepromExportData", text), ps);
  }

  /**
    Complete tables in the five clamped sections always fit; with the
    temperature and transport sections absent and a six-byte address, the
    whole report is shown whatever indices are typed.
   */
  lemma FullReportShown(d: Dom, text: string, rep: EepromReport)
    requires rep.factory.None? || |rep.factory.value.mac| >= Mac.MacLength
    requires |rep.steppers| >= NbSteppers && |rep.pids| >= NbPidSettings && |rep.scales| >= NbScales
    requires |rep.dcMotors| >= NbDcMotors && |rep.masses| >= NbMassSettings
    requires |rep.temperatures| == 0 && |rep.transports| == 0
    ensures Show(d, text, rep).ok
  {
    forall p | p in Parts(rep) ensures Fits(Write(d, "eepromExportData", text), p) {
    }
    ShowComplete(d, text, rep);
  }
}
