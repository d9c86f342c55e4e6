/** The ingress pipeline of the switch: period-start registers, position in the
    schedule, stream gate and flow meter. Each control is a class over its registers,
    proved against a step function on register contents. */
module DataPlane {
  import opened Bits
  import opened TernaryCover
  import opened SwitchTables
  import opened PsfpTables
  import DeltaAdjustment

  /** Installed rows. `durations` are the periods the comparator rows were generated for. */
  datatype Tables = Tables(app: AppTables, gates: seq<Request<GateRow>>, meters: seq<u32>, durations: seq<u64>,
                           underflow: seq<Request<DeltaAdjustment.UnderflowAction>>) {
    ghost predicate Valid() {
      && DeltaAdjustment.DetectsUnderflow(underflow)
      && app.clamps == DeltaAdjustment.ClampTable(durations)
      && (forall r :: r in app.gates ==> r.streamGateId < GATE_STAMPS)
    }
  }

  const GATE_STAMPS := 256
  const PORT_STAMPS := 256
  const GATES := 2048
  const METERS := 2048
  const METER_COUNTERS := 512

  /** A frame, with the outcomes of hardware that is not modelled: the gate row acted on
      when several match, the octet budget's verdict, and the meter's colour. */
  datatype FrameInput = FrameInput(ingress: u48, stream: Option<StreamConfig>, pcp: nat, dei: bool,
                                   tie: nat, octetsExceeded: bool, color: nat)
  {
    function Config(): StreamConfig {
      GetOr(stream, UNIDENTIFIED)
    }
    /** The priority after identification, three bits wide. */
    function Pcp(): nat {
      if Config().overwrite.Some? then Config().overwrite.value.pcp % 8 else pcp
    }
    predicate GateInRange() {
      Config().streamGateId < GATES
    }
    predicate MeterInRange() {
      Config().flowMeterId < METERS && color < 4
    }
    predicate InRange() {
      Config().streamGateId < GATE_STAMPS && MeterInRange()
    }
  }

  /** The application field of the timer header is 4 bits wide. */
  type u4 = x: nat | x < 0x10

  /** Packets of the packet generator carry an application and a batch identifier. */
  datatype Packet =
    | Generated(appId: u4, batchId: nat, ingress: u48)
    | Frame(frame: FrameInput)

  datatype Outcome =
    | Absorbed
    | ControlAt(position: u48)
    | Forwarded(queue: nat, dei: bool)
    | Dropped

  // ----- Register contents and the step function -----

  /** A 48-bit timestamp per index, split into two registers. */
  datatype Stamps = Stamps(lower: seq<u32>, higher: seq<u16>) {
    predicate Sized(n: nat) {
      |lower| == n && |higher| == n
    }
    function At(i: nat): u48
      requires i < |lower| && i < |higher|
    {
      higher[i] * TWO_32 + lower[i]
    }
    function Set(i: nat, ts: u48): Stamps
      requires i < |lower| && i < |higher|
    {
      Stamps(lower[i := ts % TWO_32], higher[i := ts / TWO_32])
    }
  }

  datatype Meters = Meters(blocked: seq<bool>, red: seq<nat>, yellow: seq<nat>, green: seq<nat>) {
    predicate Sized() {
      |blocked| == METERS && |red| == METER_COUNTERS && |yellow| == METER_COUNTERS && |green| == METER_COUNTERS
    }
  }

  /** The registers of one pipe, through which all packets of a run pass: the hardware has
      a copy of them for every pipe. */
  datatype State = State(gateStamps: Stamps, portStamps: Stamps, gateBlocked: seq<bool>, meters: Meters) {
    predicate Sized() {
      && gateStamps.Sized(GATE_STAMPS) && portStamps.Sized(PORT_STAMPS)
      && |gateBlocked| == GATES && meters.Sized()
    }
  }

  function InitialState(): (st: State)
    ensures st.Sized()
  {
    var stamps := Stamps(seq(256, _ => 0), seq(256, _ => 0));
    var zero := seq(METER_COUNTERS, _ => 0);
    State(stamps, stamps, seq(GATES, _ => false), Meters(seq(METERS, _ => false), zero, zero, zero))
  }

  function PositionOf(t: Tables, duration: u64, ingress: u48, stamp: u48): u48 {
    var d := DeltaAdjustment.Since(ingress, stamp);
    if duration in t.durations then DeltaAdjustment.Position(duration, d) else DeltaAdjustment.Unwrapped(d)
  }

  /** Rows of a gate that match a position. */
  function GateRows(gates: seq<Request<GateRow>>, gateId: nat, position: u48): seq<Request<GateRow>> {
    Rows(gates, position, (r: GateRow) => r.streamGateId == gateId)
  }

  /** Stream gate: blocked flags, drop verdict and queue. */
  function GateStep(gates: seq<Request<GateRow>>, blocked: seq<bool>, f: FrameInput, position: u48, dropped: bool)
    : (r: (seq<bool>, bool, nat))
    requires |blocked| == GATES && f.GateInRange()
    ensures |r.0| == GATES
  {
    var c := f.Config();
    var id := c.streamGateId;
    var rows := GateRows(gates, id, position);
    if dropped then (blocked, true, 0)
    else if rows == [] then
      (if c.closedDueToInvalidRxEnable then blocked[id := true] else blocked, true, 0)
    else
      var row := rows[f.tie % |rows|].payload;
      var queue := if row.ipv == 8 then f.Pcp() else row.ipv;
      if c.closedDueToOctetsExceededEnable && f.octetsExceeded then (blocked[id := true], true, queue)
      else if row.gateState == 0 then
        (if c.closedDueToInvalidRxEnable then blocked[id := true] else blocked, true, queue)
      else
        (blocked,
         (c.closedDueToInvalidRxEnable || c.closedDueToOctetsExceededEnable) && blocked[id], queue)
  }

  /** Counting beyond the last counter has no effect. */
  function Counted(counters: seq<nat>, id: nat): (r: seq<nat>)
    ensures |r| == |counters|
  {
    if id < |counters| then counters[id := counters[id] + 1] else counters
  }

  /** Flow meter: counters and blocked flags, drop verdict and drop-eligible bit. */
  function MeterStep(installed: seq<u32>, m: Meters, f: FrameInput, dropped: bool): (r: (Meters, bool, bool))
    requires m.Sized() && f.MeterInRange()
    ensures r.0.Sized()
  {
    var c := f.Config();
    var id := c.flowMeterId;
    var color := if !dropped && id in installed then f.color else 0;
    if color == 1 || color == 2 then
      if c.dropOnYellow || m.blocked[id]
      then (m.(red := Counted(m.red, id)), true, f.dei)
      else (m.(yellow := Counted(m.yellow, id)), dropped, true)
    else if color == 3 then
      (m.(red := Counted(m.red, id),
          blocked := if c.markAllFramesRed then m.blocked[id := true] else m.blocked), true, f.dei)
    else if !dropped then
      if m.blocked[id]
      then (m.(red := Counted(m.red, id)), true, f.dei)
      else (m.(green := Counted(m.green, id)), dropped, false)
    else (m, dropped, f.dei)
  }

  function Step(t: Tables, st: State, p: Packet): (r: (State, Outcome))
    requires st.Sized() && (p.Frame? ==> p.frame.InRange())
    requires forall r :: r in t.app.gates ==> r.streamGateId < GATE_STAMPS
    ensures r.0.Sized()
  {
    match p
    case Generated(appId, batchId, ingress) =>
      if appId != 0 then
        var g := FindAppGate(t.app.gates, appId);
        var port := FindAppTas(t.app.ports, appId);
        if g.Some? then (st.(gateStamps := st.gateStamps.Set(g.value.streamGateId, ingress)), Absorbed)
        else if port.Some? then (st.(portStamps := st.portStamps.Set(port.value.port, ingress)), Absorbed)
        else (st, Absorbed)
      else
        var b := GetOr(FindBatchRow(t.app.batches, batchId), BatchRow(0, 0, 0));
        (st, ControlAt(PositionOf(t, b.duration, ingress, st.portStamps.At(b.port))))
    case Frame(f) =>
      var c := f.Config();
      var position := PositionOf(t, c.hyperperiod, f.ingress, st.gateStamps.At(c.streamGateId));
      var (blocked, dropped1, queue) := GateStep(t.gates, st.gateBlocked, f, position, false);
      var (meters, dropped2, dei) := MeterStep(t.meters, st.meters, f, dropped1);
      (st.(gateBlocked := blocked, meters := meters), if dropped2 then Dropped else Forwarded(queue, dei))
  }

  // ----- The controls -----

  class StreamGateControl {
    const regGateBlocked: array<bool>

    constructor ()
      ensures fresh(regGateBlocked) && regGateBlocked[..] == seq(GATES, _ => false)
    {
      regGateBlocked := new bool[GATES](_ => false);
    }

    method Apply(gates: seq<Request<GateRow>>, f: FrameInput, position: u48, toBeDropped: bool)
      returns (dropped: bool, queue: nat)
      requires regGateBlocked.Length == GATES && f.GateInRange()
      modifies regGateBlocked
      ensures (regGateBlocked[..], dropped, queue) == GateStep(gates, old(regGateBlocked[..]), f, position, toBeDropped)
    {
      var c := f.Config();
      var id := c.streamGateId;
      dropped, queue := toBeDropped, 0;
      if !dropped {
        var rows := GateRows(gates, id, position);
        if rows == [] {
          dropped := true;
          if c.closedDueToInvalidRxEnable {
            regGateBlocked[id] := true;
          }
        } else {
          var row := rows[f.tie % |rows|].payload;
          if c.closedDueToOctetsExceededEnable {
            dropped := f.octetsExceeded;
          }
          if dropped {
            regGateBlocked[id] := true;
          } else {
            if row.gateState == 0 {
              dropped := true;
              if c.closedDueToInvalidRxEnable {
                regGateBlocked[id] := true;
              }
            } else {
              var gateClosed := regGateBlocked[id];
              if (c.closedDueToInvalidRxEnable || c.closedDueToOctetsExceededEnable) && gateClosed {
                dropped := true;
              }
            }
          }
          queue := if row.ipv == 8 then f.Pcp() else row.ipv;
        }
      }
    }
  }

  method Count(counters: array<nat>, id: nat)
    modifies counters
    ensures counters[..] == Counted(old(counters[..]), id)
  {
    if id < counters.Length {
      counters[id] := counters[id] + 1;
    }
  }

  class FlowMeterControl {
    const regMeterBlocked: array<bool>
    const markedRed: array<nat>
    const markedYellow: array<nat>
    const markedGreen: array<nat>

    ghost predicate Valid() {
      && regMeterBlocked.Length == METERS && markedRed.Length == METER_COUNTERS
      && markedYellow.Length == METER_COUNTERS && markedGreen.Length == METER_COUNTERS
      && markedRed != markedYellow && markedRed != markedGreen && markedYellow != markedGreen
    }

    ghost function Contents(): Meters
      reads regMeterBlocked, markedRed, markedYellow, markedGreen
    {
      Meters(regMeterBlocked[..], markedRed[..], markedYellow[..], markedGreen[..])
    }

    constructor ()
      ensures Valid() && fresh(regMeterBlocked) && fresh(markedRed) && fresh(markedYellow) && fresh(markedGreen)
      ensures var zero := seq(METER_COUNTERS, _ => 0);
        Contents() == Meters(seq(METERS, _ => false), zero, zero, zero)
    {
      regMeterBlocked := new bool[METERS](_ => false);
      markedRed := new nat[METER_COUNTERS](_ => 0);
      markedYellow := new nat[METER_COUNTERS](_ => 0);
      markedGreen := new nat[METER_COUNTERS](_ => 0);
    }

    method Apply(installed: seq<u32>, f: FrameInput, toBeDropped: bool) returns (dropped: bool, dei: bool)
      requires Valid() && f.MeterInRange()
      modifies regMeterBlocked, markedRed, markedYellow, markedGreen
      ensures Valid()
      ensures (Contents(), dropped, dei) == MeterStep(installed, old(Contents()), f, toBeDropped)
    {
      var c := f.Config();
      var id := c.flowMeterId;
      dropped, dei := toBeDropped, f.dei;
      var packetColor := 0;
      if !dropped {
        if id in installed {
          packetColor := f.color;
        }
      }
      if packetColor == 1 || packetColor == 2 {
        var meterBlocked := regMeterBlocked[id];
        if c.dropOnYellow || meterBlocked {
          dropped := true;
          packetColor := 3;
          Count(markedRed, id);
        } else {
          dei := true;
          Count(markedYellow, id);
        }
      } else if packetColor == 3 {
        dropped := true;
        Count(markedRed, id);
        if c.markAllFramesRed {
          regMeterBlocked[id] := true;
        }
      } else if packetColor == 0 && !dropped {
        var meterBlocked := regMeterBlocked[id];
        if meterBlocked {
          dropped := true;
          packetColor := 3;
          Count(markedRed, id);
        } else {
          dei := false;
          Count(markedGreen, id);
        }
      }
    }
  }

  class TsnControl {
    const lowerLastTs: array<u32>
    const higherLastTs: array<u16>
    const tasLowerLastTs: array<u32>
    const tasHigherLastTs: array<u16>
    const streamGate: StreamGateControl
    const flowMeter: FlowMeterControl

    ghost predicate Valid() {
      && lowerLastTs.Length == GATE_STAMPS && higherLastTs.Length == GATE_STAMPS
      && tasLowerLastTs.Length == PORT_STAMPS && tasHigherLastTs.Length == PORT_STAMPS
      && lowerLastTs != tasLowerLastTs && higherLastTs != tasHigherLastTs
      && streamGate.regGateBlocked.Length == GATES && flowMeter.Valid()
      && streamGate.regGateBlocked != flowMeter.regMeterBlocked
    }

    ghost const Registers: set<object> :=
      {lowerLastTs as object, higherLastTs as object, tasLowerLastTs as object, tasHigherLastTs as object,
       streamGate.regGateBlocked as object, flowMeter.regMeterBlocked as object,
       flowMeter.markedRed as object, flowMeter.markedYellow as object, flowMeter.markedGreen as object}

    ghost function Contents(): State
      reads Registers
    {
      State(Stamps(lowerLastTs[..], higherLastTs[..]), Stamps(tasLowerLastTs[..], tasHigherLastTs[..]),
            streamGate.regGateBlocked[..], flowMeter.Contents())
    }

    /** All registers start at zero. */
    constructor ()
      ensures Valid() && fresh(Registers)
      ensures Contents() == InitialState()
    {
      lowerLastTs := new u32[GATE_STAMPS](_ => 0);
      higherLastTs := new u16[GATE_STAMPS](_ => 0);
      tasLowerLastTs := new u32[PORT_STAMPS](_ => 0);
      tasHigherLastTs := new u16[PORT_STAMPS](_ => 0);
      streamGate := new StreamGateControl();
      flowMeter := new FlowMeterControl();
      new;
      assert lowerLastTs[..] == seq(256, _ => 0) && higherLastTs[..] == seq(256, _ => 0);
      assert tasLowerLastTs[..] == seq(256, _ => 0) && tasHigherLastTs[..] == seq(256, _ => 0);
    }

    method Apply(t: Tables, p: Packet) returns (o: Outcome)
      requires Valid() && t.Valid() && (p.Frame? ==> p.frame.InRange())
      modifies Registers
      ensures Valid()
      ensures Contents().Sized() && (Contents(), o) == Step(t, old(Contents()), p)
    {
      hide GateStep, MeterStep, GateRows, PositionOf;
      match p {
        case Generated(appId, batchId, ingress) =>
          if appId != 0 {
            StampPeriodStart(t, appId, batchId, ingress);
            o := Absorbed;
          } else {
            o := LocateControlPacket(t, batchId, ingress);
          }
        case Frame(f) =>
          var c := f.Config();
          var hyperperiodTs: u48 := higherLastTs[c.streamGateId] * TWO_32 + lowerLastTs[c.streamGateId];
          var position := PositionIn(t, c.hyperperiod, f.ingress, hyperperiodTs, f.tie);
          var dropped, queue := streamGate.Apply(t.gates, f, position, false);
          var dei;
          dropped, dei := flowMeter.Apply(t.meters, f, dropped);
          o := if dropped then Dropped else Forwarded(queue, dei);
      }
    }

    /** A generated packet stamps the gate, or else the port, of its application. */
    method StampPeriodStart(t: Tables, appId: u4, ghost batchId: nat, ingress: u48)
      requires Valid() && t.Valid() && appId != 0
      modifies lowerLastTs, higherLastTs, tasLowerLastTs, tasHigherLastTs
      ensures (Contents(), Absorbed) == Step(t, old(Contents()), Generated(appId, batchId, ingress))
    {
      hide PositionOf;
      var g := FindAppGate(t.app.gates, appId);
      var port := FindAppTas(t.app.ports, appId);
      if g.Some? {
        lowerLastTs[g.value.streamGateId] := ingress % TWO_32;
        higherLastTs[g.value.streamGateId] := ingress / TWO_32;
      } else if port.Some? {
        tasLowerLastTs[port.value.port] := ingress % TWO_32;
        tasHigherLastTs[port.value.port] := ingress / TWO_32;
      }
    }

    method LocateControlPacket(t: Tables, batchId: nat, ingress: u48) returns (o: Outcome)
      requires Valid() && t.Valid()
      ensures (Contents(), o) == Step(t, Contents(), Generated(0, batchId, ingress))
    {
      hide PositionOf;
      var b := GetOr(FindBatchRow(t.app.batches, batchId), BatchRow(0, 0, 0));
      var hyperperiodTs: u48 := tasHigherLastTs[b.port] * TWO_32 + tasLowerLastTs[b.port];
      var position := PositionIn(t, b.duration, ingress, hyperperiodTs, 0);
      o := ControlAt(position);
    }
  }

  method PositionIn(t: Tables, duration: u64, ingress: u48, hyperperiodTs: u48, tie: nat) returns (position: u48)
    requires t.Valid()
    ensures position == PositionOf(t, duration, ingress, hyperperiodTs)
  {
    var diffTs: u48 := (ingress - hyperperiodTs) % TWO_48;
    var md := DeltaAdjustment.Metadata(diffTs, hyperperiodTs, duration, 0);
    md := DeltaAdjustment.Apply(t.underflow, t.app.clamps, t.durations, ingress, md, tie);
    position := md.diffTs;
  }
}
