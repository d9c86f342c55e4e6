/** What the ingress pipeline guarantees over every sequence of packets. */
module DataPlaneRuns {
  import opened Bits
  import opened TernaryCover
  import opened Config
  import opened SwitchTables
  import opened PsfpTables
  import opened DataPlane
  import DeltaAdjustment
  import TimeAwareShaper

  predicate Runnable(t: Tables, ps: seq<Packet>) {
    && (forall r :: r in t.app.gates ==> r.streamGateId < GATE_STAMPS)
    && (forall p :: p in ps && p.Frame? ==> p.frame.InRange())
  }

  /** Register contents after a sequence of packets, from cleared registers. */
  function After(t: Tables, ps: seq<Packet>): (st: State)
    requires Runnable(t, ps)
    ensures st.Sized()
  {
    if ps == [] then InitialState()
    else
      var n := |ps| - 1;
      Step(t, After(t, ps[..n]), ps[n]).0
  }

  /** Outcome of the last packet. */
  function OutcomeOf(t: Tables, ps: seq<Packet>): Outcome
    requires Runnable(t, ps) && ps != []
  {
    var n := |ps| - 1;
    Step(t, After(t, ps[..n]), ps[n]).1
  }

  /** Outcomes of all packets, in order. */
  function Outcomes(t: Tables, ps: seq<Packet>): seq<Outcome>
    requires Runnable(t, ps)
  {
    if ps == [] then [] else Outcomes(t, ps[..|ps| - 1]) + [OutcomeOf(t, ps)]
  }

  /** The pipeline on a sequence of packets. */
  method RunPipeline(t: Tables, ps: seq<Packet>) returns (c: TsnControl, outcomes: seq<Outcome>)
    requires t.Valid() && Runnable(t, ps)
    ensures c.Valid() && c.Contents() == After(t, ps)
    ensures outcomes == Outcomes(t, ps)
  {
    hide *;
    StartsEmpty(t);
    c := new TsnControl();
    outcomes := [];
    assert ps[..0] == [];
    for n := 0 to |ps|
      invariant c.Valid() && fresh(c.Registers) && Runnable(t, ps[..n]) && c.Contents() == After(t, ps[..n])
      invariant outcomes == Outcomes(t, ps[..n])
    {
      OneMorePacket(t, ps, n);
      var o := c.Apply(t, ps[n]);
      outcomes := outcomes + [o];
    }
    assert ps[..|ps|] == ps;
  }

  lemma StartsEmpty(t: Tables)
    requires t.Valid()
    ensures Runnable(t, []) && After(t, []) == InitialState() && Outcomes(t, []) == []
  {
  }

  lemma OneMorePacket(t: Tables, ps: seq<Packet>, n: nat)
    requires t.Valid() && Runnable(t, ps) && n < |ps| && Runnable(t, ps[..n])
    ensures Runnable(t, ps[..n + 1]) && (ps[n].Frame? ==> ps[n].frame.InRange())
    ensures forall r :: r in t.app.gates ==> r.streamGateId < GATE_STAMPS
    ensures After(t, ps[..n + 1]) == Step(t, After(t, ps[..n]), ps[n]).0
    ensures Outcomes(t, ps[..n + 1]) == Outcomes(t, ps[..n]) + [Step(t, After(t, ps[..n]), ps[n]).1]
  {
    hide Step;
    assert ps[..n + 1][..n] == ps[..n] && ps[n] in ps;
  }

  // ----- Period-start stamps -----

  /** Ingress time of the last packet generated for an application; 0 before the first,
      and always for identifier 0 and those that do not fit into the header field. */
  function LastStamp(ps: seq<Packet>, appId: nat): u48 {
    if ps == [] then 0
    else
      var n := |ps| - 1;
      if ps[n].Generated? && ps[n].appId == appId != 0 then ps[n].ingress else LastStamp(ps[..n], appId)
  }

  /** Stamps can reach an application iff its identifier is not 0 and fits into 4 bits: the
      gates and ports numbered from 16 on are measured from time 0 for ever. */
  lemma StampArrives(appId: nat)
    ensures (exists ps :: LastStamp(ps, appId) != 0) <==> 0 < appId < 0x10
  {
    if 0 < appId < 0x10 {
      var ps := [Generated(appId, 0, 1)];
      assert LastStamp(ps, appId) == 1;
      assert LastStamp(ps, appId) != 0;
    } else {
      forall ps ensures LastStamp(ps, appId) == 0 {
        NeverStamped(ps, appId);
      }
    }
  }

  lemma {:induction false} NeverStamped(ps: seq<Packet>, appId: nat)
    requires appId == 0 || appId >= 0x10
    ensures LastStamp(ps, appId) == 0
  {
    if ps != [] { NeverStamped(ps[..|ps| - 1], appId); }
  }

  lemma SplitStamp(s: Stamps, i: nat, j: nat, ts: u48)
    requires s.Sized(256) && i < 256 && j < 256
    ensures s.Set(i, ts).At(j) == if i == j then ts else s.At(j)
  {
  }

  /** Tables built from a configuration by the controller's start sequence. */
  ghost predicate Deployed(t: Tables, psfp: Psfp, tas: Tas, id: nat) {
    && GatesNumberable(psfp, 1) && PortsNumberable(tas, 1 + |psfp.streamGates|)
    && Writable(psfp, AppIds(psfp, 1), id)
    && DistinctGates(psfp.streamGates) && (forall g :: g in psfp.streamGates ==> g.streamGateId < GATE_STAMPS)
    && TimeAwareShaper.DistinctPorts(tas)
    && t.app == AppTablesFor(AppIds(psfp, 1), BatchIds(tas, 1 + |psfp.streamGates|))
    && t.durations == GateDurations(AppIds(psfp, 1)) + PortDurations(BatchIds(tas, 1 + |psfp.streamGates|))
    && t.gates == GateTable(psfp, 1, id)
  }

  /** What one generated packet does to the stamps. */
  lemma GateStampStep(t: Tables, psfp: Psfp, tas: Tas, id: nat, st: State, p: Packet, i: nat)
    requires Deployed(t, psfp, tas, id) && st.Sized() && p.Generated? && i < |psfp.streamGates|
    requires forall r :: r in t.app.gates ==> r.streamGateId < GATE_STAMPS
    ensures var gate := psfp.streamGates[i].streamGateId;
      Step(t, st, p).0.gateStamps.At(gate) == if p.appId == i + 1 then p.ingress else st.gateStamps.At(gate)
  {
    hide Deployed, PositionOf;
    DeployedIds(t, psfp, tas, id, p.appId);
    if 1 <= p.appId <= |psfp.streamGates| {
      SplitStamp(st.gateStamps, psfp.streamGates[p.appId - 1].streamGateId, psfp.streamGates[i].streamGateId, p.ingress);
    }
  }

  /** What the tables of a deployment select for an application. */
  lemma DeployedIds(t: Tables, psfp: Psfp, tas: Tas, id: nat, appId: nat)
    requires Deployed(t, psfp, tas, id)
    ensures var n := |psfp.streamGates|;
      && FindAppGate(t.app.gates, appId)
         == (if 1 <= appId <= n then Some(AppGateRow(appId, psfp.streamGates[appId - 1].streamGateId)) else None)
      && (FindAppTas(t.app.ports, appId).Some? <==> n < appId <= n + |tas.gclToPortMapping|)
      && (n < appId <= n + |tas.gclToPortMapping| ==>
           FindAppTas(t.app.ports, appId).value.port == tas.gclToPortMapping[appId - n - 1].port)
    ensures forall i :: 0 <= i < |psfp.streamGates| ==> psfp.streamGates[i].streamGateId < GATE_STAMPS
    ensures DistinctGates(psfp.streamGates) && TimeAwareShaper.DistinctPorts(tas)
  {
    hide Writable, AppTablesFor;
    AppIdsNeverCollide(psfp, tas, appId);
  }

  lemma PortStampStep(t: Tables, psfp: Psfp, tas: Tas, id: nat, st: State, p: Packet, i: nat)
    requires Deployed(t, psfp, tas, id) && st.Sized() && p.Generated? && i < |tas.gclToPortMapping|
    requires forall r :: r in t.app.gates ==> r.streamGateId < GATE_STAMPS
    ensures var port := tas.gclToPortMapping[i].port;
      Step(t, st, p).0.portStamps.At(port)
      == if p.appId == |psfp.streamGates| + 1 + i then p.ingress else st.portStamps.At(port)
  {
    hide Deployed, PositionOf;
    DeployedIds(t, psfp, tas, id, p.appId);
    var n := |psfp.streamGates|;
    if n < p.appId <= n + |tas.gclToPortMapping| {
      SplitStamp(st.portStamps, tas.gclToPortMapping[p.appId - n - 1].port, tas.gclToPortMapping[i].port, p.ingress);
    }
  }

  /** Every gate's and every port's registers hold the last stamp of its own
      application: stamps of other gates and ports never interfere. */
  lemma {:induction false} StampsAreOwn(t: Tables, psfp: Psfp, tas: Tas, id: nat, ps: seq<Packet>)
    requires Deployed(t, psfp, tas, id) && Runnable(t, ps)
    ensures forall i :: 0 <= i < |psfp.streamGates| ==>
      After(t, ps).gateStamps.At(psfp.streamGates[i].streamGateId) == LastStamp(ps, i + 1)
    ensures forall i :: 0 <= i < |tas.gclToPortMapping| ==>
      After(t, ps).portStamps.At(tas.gclToPortMapping[i].port) == LastStamp(ps, |psfp.streamGates| + 1 + i)
  {
    hide Step, Deployed;
    DeployedGate(t, psfp, tas, id);
    if ps == [] {
      InitialStamps(psfp, tas, t, id);
    } else {
      var n := |ps| - 1;
      StampsAreOwn(t, psfp, tas, id, ps[..n]);
      if ps[n].Generated? {
        forall i | 0 <= i < |psfp.streamGates|
          ensures After(t, ps).gateStamps.At(psfp.streamGates[i].streamGateId) == LastStamp(ps, i + 1)
        {
          GateStampStep(t, psfp, tas, id, After(t, ps[..n]), ps[n], i);
        }
        forall i | 0 <= i < |tas.gclToPortMapping|
          ensures After(t, ps).portStamps.At(tas.gclToPortMapping[i].port) == LastStamp(ps, |psfp.streamGates| + 1 + i)
        {
          PortStampStep(t, psfp, tas, id, After(t, ps[..n]), ps[n], i);
        }
      } else {
        FramesKeepStamps(t, After(t, ps[..n]), ps[n]);
      }
    }
  }

  lemma InitialStamps(psfp: Psfp, tas: Tas, t: Tables, id: nat)
    requires Deployed(t, psfp, tas, id)
    ensures forall i :: 0 <= i < |psfp.streamGates| ==> InitialState().gateStamps.At(psfp.streamGates[i].streamGateId) == 0
    ensures forall i :: 0 <= i < |tas.gclToPortMapping| ==> InitialState().portStamps.At(tas.gclToPortMapping[i].port) == 0
  {
  }

  lemma FramesKeepStamps(t: Tables, st: State, p: Packet)
    requires st.Sized() && p.Frame? && p.frame.InRange()
    requires forall r :: r in t.app.gates ==> r.streamGateId < GATE_STAMPS
    ensures Step(t, st, p).0.gateStamps == st.gateStamps && Step(t, st, p).0.portStamps == st.portStamps
  {
    hide PositionOf, GateStep, MeterStep;
  }

  // ----- Safety of the stream gate -----

  /** The handle of a stream, or else the default one, names the i-th gate. */
  predicate NamesGate(psfp: Psfp, stream: Stream, i: nat) {
    && i < |psfp.streamGates|
    && FindGate(psfp.streamGates, HandleOf(psfp, stream).streamGateInstance) == Some(psfp.streamGates[i])
  }

  /** A frame of a configured stream that names the i-th gate. */
  ghost predicate OfGate(f: FrameInput, psfp: Psfp, stream: Stream, i: nat) {
    && NamesGate(psfp, stream, i)
    && Identifiable(psfp, stream) && f.stream == Some(StreamConfigOf(psfp, stream))
  }

  function ScheduleOfGate(psfp: Psfp, i: nat): StreamGateControlList
    requires i < |psfp.streamGates| && FindSchedule(psfp.schedules, psfp.streamGates[i].schedule).Some?
  {
    FindSchedule(psfp.schedules, psfp.streamGates[i].schedule).value
  }

  lemma FrameOfGate(f: FrameInput, psfp: Psfp, stream: Stream, i: nat)
    requires OfGate(f, psfp, stream, i)
    ensures i < |psfp.streamGates| && FindSchedule(psfp.schedules, psfp.streamGates[i].schedule).Some?
    ensures f.Config().streamGateId == psfp.streamGates[i].streamGateId
    ensures AddressesOk(stream) && f.Pcp() == PriorityOf(stream, f.pcp)
    ensures f.Config().hyperperiod == ScheduleOfGate(psfp, i).period
    ensures f.Config().closedDueToInvalidRxEnable == psfp.streamGates[i].closedDueToInvalidRxEnable
    ensures f.Config().closedDueToOctetsExceededEnable == psfp.streamGates[i].closedDueToOctetsExceededEnable
  {
  }

  /** Time since the last stamp of the gate's own application, cut off at its period. */
  function GatePosition(psfp: Psfp, i: nat, f: FrameInput, before: seq<Packet>): u48
    requires i < |psfp.streamGates| && FindSchedule(psfp.schedules, psfp.streamGates[i].schedule).Some?
  {
    DeltaAdjustment.Position(ScheduleOfGate(psfp, i).period, DeltaAdjustment.Since(f.ingress, LastStamp(before, i + 1)))
  }

  /** The position the pipeline computes for a frame of a gate. */
  lemma PositionOfFrame(t: Tables, psfp: Psfp, tas: Tas, id: nat, before: seq<Packet>, f: FrameInput, stream: Stream, i: nat)
    requires Deployed(t, psfp, tas, id) && Runnable(t, before)
    requires OfGate(f, psfp, stream, i) && f.InRange()
    ensures FindSchedule(psfp.schedules, psfp.streamGates[i].schedule).Some?
    ensures var c := f.Config();
      PositionOf(t, c.hyperperiod, f.ingress, After(t, before).gateStamps.At(c.streamGateId)) == GatePosition(psfp, i, f, before)
  {
    hide After, LastStamp, DeltaAdjustment.Position, DeltaAdjustment.Since, Writable, AppTablesFor;
    FrameOfGate(f, psfp, stream, i);
    StampsAreOwn(t, psfp, tas, id, before);
    assert t.durations[i] == ScheduleOfGate(psfp, i).period;
  }

  /** Verdict of the stream gate on the last packet, a frame. */
  function GateVerdict(t: Tables, before: seq<Packet>, f: FrameInput): (seq<bool>, bool, nat)
    requires Runnable(t, before) && f.InRange()
  {
    var c := f.Config();
    var st := After(t, before);
    GateStep(t.gates, st.gateBlocked, f, PositionOf(t, c.hyperperiod, f.ingress, st.gateStamps.At(c.streamGateId)), false)
  }

  lemma FrameOutcome(t: Tables, before: seq<Packet>, f: FrameInput)
    requires Runnable(t, before) && Runnable(t, before + [Frame(f)]) && f.InRange()
    ensures var ps := before + [Frame(f)];
      var verdict := GateVerdict(t, before, f);
      var meter := MeterStep(t.meters, After(t, before).meters, f, verdict.1);
      && After(t, ps) == After(t, before).(gateBlocked := verdict.0, meters := meter.0)
      && OutcomeOf(t, ps) == (if meter.1 then Dropped else Forwarded(verdict.2, meter.2))
      && (verdict.1 ==> meter.1)
  {
    hide PositionOf, GateStep;
    assert (before + [Frame(f)])[..|before|] == before;
  }

  /** The interval contains the low 32 bits of a position: rows are built from 32-bit masks. */
  predicate Covers(iv: Interval, position: nat) {
    iv.low <= position % TWO_32 <= iv.high
  }

  /** Priority of a frame after identification: the new one its stream configures along with
      a new address, three bits wide, or else its own. */
  function PriorityOf(stream: Stream, pcp: nat): nat
    requires AddressesOk(stream)
  {
    if stream.overwriteMac.Some? then stream.overwritePcp.value % 8 else pcp
  }

  /** An interval that contains a position and sends its frames to a queue: the one it
      names, or, with 8, the one of the frame's priority. */
  predicate SendsTo(iv: Interval, position: nat, queue: nat, priority: nat) {
    Covers(iv, position) && queue == if iv.ipv != 8 then iv.ipv else priority
  }

  /** Over every run and for every period: a forwarded frame of a configured stream lies,
      measured from the last stamp of its own gate, in an open interval of that gate's
      schedule, which gives its queue, the position being taken modulo 2^32. The position
      itself lies in an open interval iff it is below 2^32; with a period below 2^32 it
      always is. */
  lemma ForwardedFramesMetOpenGate(t: Tables, psfp: Psfp, tas: Tas, id: nat, before: seq<Packet>,
                                   f: FrameInput, stream: Stream, i: nat)
    requires Deployed(t, psfp, tas, id) && Runnable(t, before) && Runnable(t, before + [Frame(f)])
    requires OfGate(f, psfp, stream, i) && f.InRange()
    requires FindSchedule(psfp.schedules, psfp.streamGates[i].schedule).Some?
    requires OutcomeOf(t, before + [Frame(f)]).Forwarded?
    ensures var position := GatePosition(psfp, i, f, before);
      && (exists iv :: iv in ScheduleOfGate(psfp, i).intervals && iv.state != 0
                       && SendsTo(iv, position, OutcomeOf(t, before + [Frame(f)]).queue, PriorityOf(stream, f.pcp)))
      && (ScheduleOfGate(psfp, i).period < TWO_32 ==> position % TWO_32 == position <= ScheduleOfGate(psfp, i).period)
      && ((exists iv :: iv in ScheduleOfGate(psfp, i).intervals && iv.low <= position <= iv.high && iv.state != 0)
          <==> position < TWO_32)
  {
    hide After, OutcomeOf, Deployed, OfGate, GateRows, MeterStep, GatePosition;
    FrameOutcome(t, before, f);
    FrameOfGate(f, psfp, stream, i);
    PositionOfFrame(t, psfp, tas, id, before, f, stream, i);
    PositionBelowPeriod(psfp, i, f, before);
    var position := GatePosition(psfp, i, f, before);
    RowsAreIntervals(t, psfp, tas, id, i, position);
    var rows := GateRows(t.gates, psfp.streamGates[i].streamGateId, position);
    assert rows[f.tie % |rows|] in rows;
    if position < TWO_32 { ModSmall(position, TWO_32); }
  }

  /** Some position of a schedule lies beyond all its intervals iff the period, cut to 48
      bits as the table cuts it, is 2^32 or more. */
  lemma LongPeriods(period: u64)
    ensures (exists d: u48 :: DeltaAdjustment.Position(period, d) >= TWO_32) <==> period % TWO_48 >= TWO_32
  {
    if period % TWO_48 >= TWO_32 {
      var d: u48 := TWO_32;
      assert DeltaAdjustment.Position(period, d) >= TWO_32;
    }
  }

  /** The rows a frame of gate i can hit. */
  lemma RowsAreIntervals(t: Tables, psfp: Psfp, tas: Tas, id: nat, i: nat, position: u48)
    requires Deployed(t, psfp, tas, id) && i < |psfp.streamGates|
    ensures FindSchedule(psfp.schedules, psfp.streamGates[i].schedule).Some?
    ensures var rows := GateRows(t.gates, psfp.streamGates[i].streamGateId, position);
      var ivs := ScheduleOfGate(psfp, i).intervals;
      && (forall r :: r in rows ==>
           OwnsSchedule(psfp, psfp.streamGates[i])
           && exists iv :: iv in ivs && Covers(iv, position) && RowOf(r, iv))
      && (OwnsSchedule(psfp, psfp.streamGates[i]) ==>
           forall iv :: iv in ivs && Covers(iv, position) ==> exists r :: r in rows && RowOf(r, iv))
  {
    hide Deployed, Matches, ActsLike, Entries;
    DeployedGate(t, psfp, tas, id);
    var g := psfp.streamGates[i];
    GateTableIsSchedule(psfp, 1, id, g, position);
    var rows := GateRows(t.gates, g.streamGateId, position);
    var ivs := ScheduleOfGate(psfp, i).intervals;
    forall r | r in rows
      ensures OwnsSchedule(psfp, g) && exists iv :: iv in ivs && Covers(iv, position) && RowOf(r, iv)
    {
      var iv :| iv in ivs && Covers(iv, position) && ActsLike(r, g.streamGateId, iv, position);
      StateOfRow(r, g.streamGateId, iv, position);
    }
    if OwnsSchedule(psfp, g) {
      forall iv | iv in ivs && Covers(iv, position) ensures exists r :: r in rows && RowOf(r, iv) {
        var r :| r in t.gates && ActsLike(r, g.streamGateId, iv, position);
        StateOfRow(r, g.streamGateId, iv, position);
        assert r in rows;
      }
    }
  }

  predicate RowOf(r: Request<GateRow>, iv: Interval) {
    r.payload.gateState == iv.state && r.payload.ipv == iv.ipv
  }

  lemma StateOfRow(r: Request<GateRow>, gateId: u32, iv: Interval, position: nat)
    requires ActsLike(r, gateId, iv, position)
    ensures RowOf(r, iv) && r.payload.streamGateId == gateId && Matches(r.entry, position)
  {
    hide Matches, Entries;
  }

  lemma DeployedGate(t: Tables, psfp: Psfp, tas: Tas, id: nat)
    requires Deployed(t, psfp, tas, id)
    ensures GatesNumberable(psfp, 1) && Writable(psfp, AppIds(psfp, 1), id) && DistinctGates(psfp.streamGates)
    ensures t.gates == GateTable(psfp, 1, id)
    ensures forall i :: 0 <= i < |psfp.streamGates| ==> psfp.streamGates[i].streamGateId < GATE_STAMPS
  {
  }

  lemma PositionBelowPeriod(psfp: Psfp, i: nat, f: FrameInput, before: seq<Packet>)
    requires i < |psfp.streamGates| && FindSchedule(psfp.schedules, psfp.streamGates[i].schedule).Some?
    ensures var position, period := GatePosition(psfp, i, f, before), ScheduleOfGate(psfp, i).period;
      period < TWO_32 ==> position % TWO_32 == position <= period
  {
    var position, period := GatePosition(psfp, i, f, before), ScheduleOfGate(psfp, i).period;
    if period < TWO_32 {
      DeltaAdjustment.SmallMod(period);
      ModSmall(position, TWO_32);
    }
  }

  // ----- Frames no configured stream accounts for -----

  /** The frame's gate number is that of the i-th gate, and its position, measured from the
      gate's last stamp with whatever period the frame carries, lies in an open interval that
      sends it to the queue. */
  ghost predicate MetOpenGate(t: Tables, psfp: Psfp, before: seq<Packet>, f: FrameInput, queue: nat, i: nat) {
    && i < |psfp.streamGates| && psfp.streamGates[i].streamGateId == f.Config().streamGateId
    && OwnsSchedule(psfp, psfp.streamGates[i])
    && FindSchedule(psfp.schedules, psfp.streamGates[i].schedule).Some?
    && exists iv :: iv in ScheduleOfGate(psfp, i).intervals && iv.state != 0
                    && SendsTo(iv, PositionOf(t, f.Config().hyperperiod, f.ingress, LastStamp(before, i + 1)), queue,
                               if f.Config().overwrite.Some? then f.Config().overwrite.value.pcp % 8 else f.pcp)
  }

  lemma RowsBelongToGates(t: Tables, psfp: Psfp, tas: Tas, id: nat, gateId: u32, position: u48)
    requires Deployed(t, psfp, tas, id) && GateRows(t.gates, gateId, position) != []
    ensures exists i :: 0 <= i < |psfp.streamGates| && psfp.streamGates[i].streamGateId == gateId
  {
    hide Deployed, Matches, ActsLike, Entries, AllRows, Writable, First;
    DeployedGate(t, psfp, tas, id);
    AllRowsAre(psfp, AppIds(psfp, 1), id, gateId, position);
    var r := GateRows(t.gates, gateId, position)[0];
    assert r in GateRows(t.gates, gateId, position);
    var m, iv :| m in AppIds(psfp, 1) && OwnedBy(psfp, m, gateId) && iv in ScheduleOf(psfp, m).intervals
                 && ActsLike(r, gateId, iv, position);
    var owner := OwnerOf(psfp, m);
    assert owner in psfp.streamGates;
  }

  /** Whatever identification assigned to a frame: it is forwarded only through a configured
      gate with its gate number, and only inside an open interval of that gate's schedule. */
  lemma ForwardedOnlyThroughGates(t: Tables, psfp: Psfp, tas: Tas, id: nat, before: seq<Packet>, f: FrameInput)
    requires Deployed(t, psfp, tas, id) && Runnable(t, before) && Runnable(t, before + [Frame(f)]) && f.InRange()
    requires OutcomeOf(t, before + [Frame(f)]).Forwarded?
    ensures exists i: nat :: MetOpenGate(t, psfp, before, f, OutcomeOf(t, before + [Frame(f)]).queue, i)
  {
    hide After, OutcomeOf, Deployed, GateRows, MeterStep, PositionOf, LastStamp;
    FrameOutcome(t, before, f);
    StampsAreOwn(t, psfp, tas, id, before);
    var c := f.Config();
    var position := PositionOf(t, c.hyperperiod, f.ingress, After(t, before).gateStamps.At(c.streamGateId));
    RowsBelongToGates(t, psfp, tas, id, c.streamGateId, position);
    var i :| 0 <= i < |psfp.streamGates| && psfp.streamGates[i].streamGateId == c.streamGateId;
    RowsAreIntervals(t, psfp, tas, id, i, position);
    var rows := GateRows(t.gates, c.streamGateId, position);
    assert rows[f.tie % |rows|] in rows;
    assert MetOpenGate(t, psfp, before, f, OutcomeOf(t, before + [Frame(f)]).queue, i);
  }

  /** A frame that hits no stream row passes through gate 0 with period 0. Without a gate of
      that number it is dropped; with one it is forwarded only inside an open interval of
      gate 0 at the time since its last stamp, which is not cut off unless some period is 0. */
  lemma UnidentifiedFrames(t: Tables, psfp: Psfp, tas: Tas, id: nat, before: seq<Packet>, f: FrameInput)
    requires Deployed(t, psfp, tas, id) && Runnable(t, before) && Runnable(t, before + [Frame(f)]) && f.InRange()
    requires f.stream == None
    ensures (forall g :: g in psfp.streamGates ==> g.streamGateId != 0) ==> OutcomeOf(t, before + [Frame(f)]) == Dropped
    ensures OutcomeOf(t, before + [Frame(f)]).Forwarded? ==>
      exists i :: 0 <= i < |psfp.streamGates| && psfp.streamGates[i].streamGateId == 0
                  && OwnsSchedule(psfp, psfp.streamGates[i])
                  && FindSchedule(psfp.schedules, psfp.streamGates[i].schedule).Some?
                  && OpenAt(ScheduleOfGate(psfp, i).intervals, UncutPosition(t, f.ingress, LastStamp(before, i + 1)),
                            OutcomeOf(t, before + [Frame(f)]).queue, f.pcp)
  {
    hide After, OutcomeOf, Deployed, GateRows, MeterStep, PositionOf, LastStamp;
    FrameOutcome(t, before, f);
    if OutcomeOf(t, before + [Frame(f)]).Forwarded? {
      ForwardedOnlyThroughGates(t, psfp, tas, id, before, f);
      var i: nat :| MetOpenGate(t, psfp, before, f, OutcomeOf(t, before + [Frame(f)]).queue, i);
      ZeroPeriod(t, f.ingress, LastStamp(before, i + 1));
      assert psfp.streamGates[i] in psfp.streamGates;
      assert OpenAt(ScheduleOfGate(psfp, i).intervals, UncutPosition(t, f.ingress, LastStamp(before, i + 1)),
                    OutcomeOf(t, before + [Frame(f)]).queue, f.pcp);
    }
  }

  ghost predicate OpenAt(ivs: seq<Interval>, position: nat, queue: nat, priority: nat) {
    exists iv :: iv in ivs && iv.state != 0 && SendsTo(iv, position, queue, priority)
  }

  /** The time since a stamp, not cut off; 0 when some schedule has period 0. */
  function UncutPosition(t: Tables, ingress: u48, stamp: u48): u48 {
    if 0 in t.durations then 0 else DeltaAdjustment.Unwrapped(DeltaAdjustment.Since(ingress, stamp))
  }

  lemma ZeroPeriod(t: Tables, ingress: u48, stamp: u48)
    ensures PositionOf(t, 0, ingress, stamp) == UncutPosition(t, ingress, stamp)
  {
  }

  /** Exactly what happens to such a frame, given a gate of number 0 that owns its schedule:
      neither flags nor octets matter, its meter is number 0 without drop-on-yellow, and it
      blocks nothing. */
  lemma UnidentifiedExactly(t: Tables, psfp: Psfp, tas: Tas, id: nat, before: seq<Packet>, f: FrameInput, i: nat)
    requires Deployed(t, psfp, tas, id) && Runnable(t, before) && Runnable(t, before + [Frame(f)]) && f.InRange()
    requires f.stream == None
    requires i < |psfp.streamGates| && psfp.streamGates[i].streamGateId == 0 && OwnsSchedule(psfp, psfp.streamGates[i])
    ensures FindSchedule(psfp.schedules, psfp.streamGates[i].schedule).Some?
    ensures var ps, ivs := before + [Frame(f)], ScheduleOfGate(psfp, i).intervals;
      var position, o := UncutPosition(t, f.ingress, LastStamp(before, i + 1)), OutcomeOf(t, before + [Frame(f)]);
      && After(t, ps).gateBlocked == After(t, before).gateBlocked
      && After(t, ps).meters.blocked == After(t, before).meters.blocked
      && if exists iv :: iv in ivs && Covers(iv, position) then
           exists iv :: iv in ivs && Covers(iv, position)
                        && (o.Forwarded? <==>
                             && iv.state != 0 && !After(t, before).meters.blocked[0]
                             && !(0 in t.meters && f.color == 3))
                        && (o.Forwarded? ==> SendsTo(iv, position, o.queue, f.pcp))
         else o == Dropped
  {
    hide After, OutcomeOf, Deployed, GateRows, PositionOf, LastStamp, MeterStep, GateStep, UncutPosition, OwnsSchedule;
    FrameOutcome(t, before, f);
    StampsAreOwn(t, psfp, tas, id, before);
    ZeroPeriod(t, f.ingress, LastStamp(before, i + 1));
    var position := UncutPosition(t, f.ingress, LastStamp(before, i + 1));
    UnidentifiedInterval(t, psfp, tas, id, After(t, before).gateBlocked, f, position, i);
    hide Covers, ScheduleOfGate;
    UnidentifiedMeter(t.meters, After(t, before).meters, f, GateVerdict(t, before, f).1);
  }

  lemma UnidentifiedInterval(t: Tables, psfp: Psfp, tas: Tas, id: nat, blocked: seq<bool>, f: FrameInput, position: u48, i: nat)
    requires Deployed(t, psfp, tas, id) && |blocked| == GATES && f.stream == None
    requires i < |psfp.streamGates| && psfp.streamGates[i].streamGateId == 0 && OwnsSchedule(psfp, psfp.streamGates[i])
    ensures FindSchedule(psfp.schedules, psfp.streamGates[i].schedule).Some? && f.GateInRange()
    ensures var ivs := ScheduleOfGate(psfp, i).intervals;
      var (blocked', dropped, queue) := GateStep(t.gates, blocked, f, position, false);
      && blocked' == blocked
      && if exists iv :: iv in ivs && Covers(iv, position) then
           exists iv :: iv in ivs && SendsTo(iv, position, queue, f.pcp) && (dropped <==> iv.state == 0)
         else dropped
  {
    hide Deployed, GateRows, GateStep, OwnsSchedule;
    RowsAreIntervals(t, psfp, tas, id, i, position);
    UnidentifiedGate(t.gates, blocked, f, position);
  }

  lemma UnidentifiedGate(gates: seq<Request<GateRow>>, blocked: seq<bool>, f: FrameInput, position: u48)
    requires |blocked| == GATES && f.stream == None
    ensures f.GateInRange()
    ensures var rows := GateRows(gates, 0, position);
      var (blocked', dropped, queue) := GateStep(gates, blocked, f, position, false);
      && blocked' == blocked
      && if rows == [] then dropped
         else exists r :: r in rows && (dropped <==> r.payload.gateState == 0)
                          && queue == (if r.payload.ipv != 8 then r.payload.ipv else f.pcp)
  {
    hide GateRows;
    var rows := GateRows(gates, 0, position);
    if rows != [] { assert rows[f.tie % |rows|] in rows; }
  }

  lemma UnidentifiedMeter(installed: seq<u32>, m: Meters, f: FrameInput, dropped: bool)
    requires m.Sized() && f.MeterInRange() && f.stream == None
    ensures var (m', dropped', _) := MeterStep(installed, m, f, dropped);
      && m'.blocked == m.blocked
      && (dropped' <==> dropped || m.blocked[0] || (0 in installed && f.color == 3))
  {
  }

  /** What the stream gate does with the row it acts on. */
  lemma GateStepExact(gates: seq<Request<GateRow>>, blocked: seq<bool>, f: FrameInput, position: u48)
    requires |blocked| == GATES && f.GateInRange()
    ensures var c := f.Config();
      var rows := GateRows(gates, c.streamGateId, position);
      var (_, dropped, queue) := GateStep(gates, blocked, f, position, false);
      if rows == [] then dropped
      else
        exists r :: r in rows && queue == (if r.payload.ipv != 8 then r.payload.ipv else f.Pcp())
                    && (dropped <==>
                         || r.payload.gateState == 0
                         || (c.closedDueToOctetsExceededEnable && f.octetsExceeded)
                         || ((c.closedDueToInvalidRxEnable || c.closedDueToOctetsExceededEnable) && blocked[c.streamGateId]))
  {
    hide GateRows;
    var rows := GateRows(gates, f.Config().streamGateId, position);
    if rows != [] { assert rows[f.tie % |rows|] in rows; }
  }

  /** Exactly which frames of a configured stream pass their gate: those that act on an open
      interval of its schedule, keep within the octets where that is enforced, and, where
      either closure flag is set, find the gate not blocked. The others have no interval to
      act on, or act on one and fail one of these. */
  lemma PassesGateExactly(t: Tables, psfp: Psfp, tas: Tas, id: nat, before: seq<Packet>, f: FrameInput, stream: Stream, i: nat)
    requires Deployed(t, psfp, tas, id) && Runnable(t, before)
    requires OfGate(f, psfp, stream, i) && f.InRange()
    ensures FindSchedule(psfp.schedules, psfp.streamGates[i].schedule).Some?
    ensures var g, ivs, position := psfp.streamGates[i], ScheduleOfGate(psfp, i).intervals, GatePosition(psfp, i, f, before);
      var (_, dropped, queue) := GateVerdict(t, before, f);
      if OwnsSchedule(psfp, g) && exists iv :: iv in ivs && Covers(iv, position) then
        exists iv :: iv in ivs && SendsTo(iv, position, queue, PriorityOf(stream, f.pcp))
                     && (dropped <==>
                          || iv.state == 0
                          || (g.closedDueToOctetsExceededEnable && f.octetsExceeded)
                          || ((g.closedDueToInvalidRxEnable || g.closedDueToOctetsExceededEnable)
                              && After(t, before).gateBlocked[g.streamGateId]))
      else dropped
  {
    hide After, Deployed, OfGate, GateRows, GatePosition, GateStep, PositionOf, OwnsSchedule, PriorityOf;
    FrameOfGate(f, psfp, stream, i);
    PositionOfFrame(t, psfp, tas, id, before, f, stream, i);
    var position := GatePosition(psfp, i, f, before);
    RowsAreIntervals(t, psfp, tas, id, i, position);
    GateStepExact(t.gates, After(t, before).gateBlocked, f, position);
  }

  /** Conversely, a frame passes its gate when only open intervals contain its position,
      some interval does, no earlier gate names the schedule, and the gate is neither
      blocked nor out of octets. */
  lemma OpenGatePasses(t: Tables, psfp: Psfp, tas: Tas, id: nat, before: seq<Packet>, f: FrameInput, stream: Stream, i: nat)
    requires Deployed(t, psfp, tas, id) && Runnable(t, before)
    requires OfGate(f, psfp, stream, i) && f.InRange()
    requires FindSchedule(psfp.schedules, psfp.streamGates[i].schedule).Some?
    requires OwnsSchedule(psfp, psfp.streamGates[i])
    requires var position := GatePosition(psfp, i, f, before);
      && (forall iv :: iv in ScheduleOfGate(psfp, i).intervals && Covers(iv, position) ==> iv.state != 0)
      && (exists iv :: iv in ScheduleOfGate(psfp, i).intervals && Covers(iv, position))
    requires !After(t, before).gateBlocked[f.Config().streamGateId] && !f.octetsExceeded
    ensures !GateVerdict(t, before, f).1
  {
    hide After, Deployed, OfGate, GateRows, GatePosition;
    FrameOfGate(f, psfp, stream, i);
    PositionOfFrame(t, psfp, tas, id, before, f, stream, i);
    var position := GatePosition(psfp, i, f, before);
    RowsAreIntervals(t, psfp, tas, id, i, position);
    var rows := GateRows(t.gates, psfp.streamGates[i].streamGateId, position);
    assert rows[f.tie % |rows|] in rows;
  }

  // ----- TAS control packets -----

  /** Over every run: the control packet of a port carries the time since the last stamp
      of that port's own application, cut off at the period of its list. */
  lemma ControlPacketPosition(t: Tables, psfp: Psfp, tas: Tas, id: nat, before: seq<Packet>, i: nat, ingress: u48)
    requires Deployed(t, psfp, tas, id) && Runnable(t, before) && i < |tas.gclToPortMapping|
    requires Runnable(t, before + [Generated(0, i, ingress)])
    ensures FindGcl(tas.gcls, tas.gclToPortMapping[i].gcl).Some?
    ensures OutcomeOf(t, before + [Generated(0, i, ingress)])
         == ControlAt(DeltaAdjustment.Position(FindGcl(tas.gcls, tas.gclToPortMapping[i].gcl).value.period,
                        DeltaAdjustment.Since(ingress, LastStamp(before, |psfp.streamGates| + 1 + i))))
  {
    hide After, LastStamp, Deployed, PositionOf;
    StampsAreOwn(t, psfp, tas, id, before);
    DeployedBatch(t, psfp, tas, id, i);
    assert (before + [Generated(0, i, ingress)])[..|before|] == before;
    PositionOfInstalled(t, FindGcl(tas.gcls, tas.gclToPortMapping[i].gcl).value.period, ingress,
                        LastStamp(before, |psfp.streamGates| + 1 + i));
  }

  lemma PositionOfInstalled(t: Tables, duration: u64, ingress: u48, stamp: u48)
    requires duration in t.durations
    ensures PositionOf(t, duration, ingress, stamp)
         == DeltaAdjustment.Position(duration, DeltaAdjustment.Since(ingress, stamp))
  {
  }

  lemma DeployedBatch(t: Tables, psfp: Psfp, tas: Tas, id: nat, i: nat)
    requires Deployed(t, psfp, tas, id) && i < |tas.gclToPortMapping|
    ensures FindGcl(tas.gcls, tas.gclToPortMapping[i].gcl).Some?
    ensures var period := FindGcl(tas.gcls, tas.gclToPortMapping[i].gcl).value.period;
      && FindBatchRow(t.app.batches, i) == Some(BatchRow(i, tas.gclToPortMapping[i].port, period))
      && period in t.durations
  {
    hide Writable, DeltaAdjustment.ClampTable;
    var m := tas.gclToPortMapping[i];
    assert m in tas.gclToPortMapping;
    FirstNumbered(t.app.batches, (r: BatchRow) => r.batchId, 0, i);
    assert t.durations[|psfp.streamGates| + i] == FindGcl(tas.gcls, m.gcl).value.period;
  }

  /** End to end, over every run: a control packet hits the gate table iff it was
      generated on the pipe of its port, and the actions it can trigger there are exactly
      the configured states of the guarded slices that contain the time since the port's
      last period start: it can open the queue iff one of them has state 0, and close it
      iff one has another. Strictly inside a slice of the file it does what the file says. */
  lemma ControlPacketsFollowSchedule(t: Tables, psfp: Psfp, tas: Tas, id: nat, gateTable: seq<Request<TimeAwareShaper.Gate>>,
                                     before: seq<Packet>, i: nat, pipe: nat, queue: u8, ingress: u48)
    requires forall g :: g in tas.gcls ==> Guardable(g)
    requires Deployed(t, psfp, tas.(gcls := GuardAll(tas.gcls)), id)
    requires PortsNumberable(tas.(gcls := GuardAll(tas.gcls)), 1 + |psfp.streamGates|)
    requires TimeAwareShaper.Installed(gateTable, TimeAwareShaper.Completed(tas, 1 + |psfp.streamGates|))
    requires Runnable(t, before) && Runnable(t, before + [Generated(0, i, ingress)])
    requires i < |tas.gclToPortMapping| && FindGcl(tas.gcls, tas.gclToPortMapping[i].gcl).Some?
    requires TimeAwareShaper.WellFormed(FindGcl(tas.gcls, tas.gclToPortMapping[i].gcl).value, queue)
    ensures OutcomeOf(t, before + [Generated(0, i, ingress)]).ControlAt?
    ensures var position := OutcomeOf(t, before + [Generated(0, i, ingress)]).position;
      var m := tas.gclToPortMapping[i];
      var gcl := FindGcl(tas.gcls, m.gcl).value;
      Guardable(gcl) &&
      var hits := TimeAwareShaper.Lookup(gateTable, position, pipe, queue, i);
      && position == DeltaAdjustment.Position(WithGuards(gcl).period,
                       DeltaAdjustment.Since(ingress, LastStamp(before, |psfp.streamGates| + 1 + i)))
      && (hits != [] <==> pipe == m.port / 0x80)
      && (forall a :: TimeAwareShaper.CanTrigger(hits, a)
           <==> pipe == m.port / 0x80
                && TimeAwareShaper.Configured(WithGuards(gcl).timeSlices, position, queue, m.port, a))
      && (forall open :: TimeAwareShaper.HitsState(hits, open)
           <==> pipe == m.port / 0x80 && TimeAwareShaper.InState(WithGuards(gcl).timeSlices, position, queue, open))
      && TimeAwareShaper.FollowsFile(hits, gcl, position, queue)
  {
    hide Deployed, Guardable, OutcomeOf, After, DeltaAdjustment.Position, TimeAwareShaper.Installed, TimeAwareShaper.Lookup,
      TimeAwareShaper.CanTrigger, TimeAwareShaper.Configured, TimeAwareShaper.WellFormed,
      TimeAwareShaper.HitsState, TimeAwareShaper.InState, TimeAwareShaper.FollowsFile;
    var guarded := tas.(gcls := GuardAll(tas.gcls));
    TimeAwareShaper.FindGuarded(tas.gcls, tas.gclToPortMapping[i].gcl);
    ControlPacketPosition(t, psfp, guarded, id, before, i, ingress);
    SamePorts(t, psfp, tas, guarded, id);
    TimeAwareShaper.ControlPacketActsOnSchedule(tas, 1 + |psfp.streamGates|, gateTable, i, pipe, queue, ingress,
                                                LastStamp(before, |psfp.streamGates| + 1 + i));
  }

  lemma SamePorts(t: Tables, psfp: Psfp, tas: Tas, guarded: Tas, id: nat)
    requires Deployed(t, psfp, guarded, id) && guarded.gclToPortMapping == tas.gclToPortMapping
    ensures TimeAwareShaper.DistinctPorts(tas)
  {
  }

  // ----- Permanent closure -----

  lemma {:induction false} BlockedStays(t: Tables, ps: seq<Packet>, n: nat, gate: nat, meter: nat)
    requires Runnable(t, ps) && n <= |ps| && Runnable(t, ps[..n]) && gate < GATES && meter < METERS
    ensures After(t, ps[..n]).gateBlocked[gate] ==> After(t, ps).gateBlocked[gate]
    ensures After(t, ps[..n]).meters.blocked[meter] ==> After(t, ps).meters.blocked[meter]
    decreases |ps|
  {
    hide Step;
    if n < |ps| {
      var m := |ps| - 1;
      assert ps[..m][..n] == ps[..n];
      BlockedStays(t, ps[..m], n, gate, meter);
      StepKeepsBlocked(t, After(t, ps[..m]), ps[m], gate, meter);
    } else {
      assert ps[..n] == ps;
    }
  }

  lemma StepKeepsBlocked(t: Tables, st: State, p: Packet, gate: nat, meter: nat)
    requires st.Sized() && (p.Frame? ==> p.frame.InRange()) && gate < GATES && meter < METERS
    requires forall r :: r in t.app.gates ==> r.streamGateId < GATE_STAMPS
    ensures st.gateBlocked[gate] ==> Step(t, st, p).0.gateBlocked[gate]
    ensures st.meters.blocked[meter] ==> Step(t, st, p).0.meters.blocked[meter]
  {
    hide PositionOf, GateRows;
  }

  /** Once a gate is blocked, every later frame through it with a closure flag is
      dropped; once a meter is blocked, every later frame through it is dropped. */
  lemma BlockedForever(t: Tables, before: seq<Packet>, n: nat, f: FrameInput)
    requires Runnable(t, before) && Runnable(t, before + [Frame(f)]) && f.InRange() && n <= |before| && Runnable(t, before[..n])
    requires var c := f.Config();
      || After(t, before[..n]).meters.blocked[c.flowMeterId]
      || (After(t, before[..n]).gateBlocked[c.streamGateId]
          && (c.closedDueToInvalidRxEnable || c.closedDueToOctetsExceededEnable))
    ensures OutcomeOf(t, before + [Frame(f)]) == Dropped
  {
    hide After, OutcomeOf, PositionOf, GateRows;
    BlockedStays(t, before, n, f.Config().streamGateId, f.Config().flowMeterId);
    FrameOutcome(t, before, f);
  }

  /** A frame that finds no row, or acts on a closed one, at a gate with the first closure
      flag, or exceeds the octet budget at a gate with the second. */
  predicate ViolatesGate(t: Tables, before: seq<Packet>, f: FrameInput)
    requires Runnable(t, before) && f.InRange()
  {
    var c := f.Config();
    var rows := GateRows(t.gates, c.streamGateId,
                         PositionOf(t, c.hyperperiod, f.ingress, After(t, before).gateStamps.At(c.streamGateId)));
    || (c.closedDueToInvalidRxEnable && (rows == [] || rows[f.tie % |rows|].payload.gateState == 0))
    || (c.closedDueToOctetsExceededEnable && f.octetsExceeded && rows != [])
  }

  /** A red frame that reaches a meter with the flag undropped. */
  predicate ViolatesMeter(t: Tables, before: seq<Packet>, f: FrameInput)
    requires Runnable(t, before) && f.InRange()
  {
    f.Config().markAllFramesRed && !GateVerdict(t, before, f).1 && f.Config().flowMeterId in t.meters && f.color == 3
  }

  lemma ViolationsBlock(t: Tables, before: seq<Packet>, f: FrameInput)
    requires Runnable(t, before) && Runnable(t, before + [Frame(f)]) && f.InRange()
    ensures var st, st' := After(t, before), After(t, before + [Frame(f)]);
      && st'.gateBlocked == (if ViolatesGate(t, before, f) then st.gateBlocked[f.Config().streamGateId := true] else st.gateBlocked)
      && st'.meters.blocked
         == (if ViolatesMeter(t, before, f) then st.meters.blocked[f.Config().flowMeterId := true] else st.meters.blocked)
  {
    hide After, OutcomeOf, PositionOf, GateRows;
    FrameOutcome(t, before, f);
  }

  lemma GeneratedKeepsBlocked(t: Tables, st: State, p: Packet)
    requires st.Sized() && p.Generated?
    requires forall r :: r in t.app.gates ==> r.streamGateId < GATE_STAMPS
    ensures Step(t, st, p).0.gateBlocked == st.gateBlocked && Step(t, st, p).0.meters == st.meters
  {
    hide PositionOf;
  }

  predicate ViolatesGateAt(t: Tables, ps: seq<Packet>, k: nat, gate: nat)
    requires k < |ps| && Runnable(t, ps)
  {
    && ps[k].Frame? && ps[k].frame.Config().streamGateId == gate
    && ps[k] in ps && Runnable(t, ps[..k]) && ViolatesGate(t, ps[..k], ps[k].frame)
  }

  predicate ViolatesMeterAt(t: Tables, ps: seq<Packet>, k: nat, meter: nat)
    requires k < |ps| && Runnable(t, ps)
  {
    && ps[k].Frame? && ps[k].frame.Config().flowMeterId == meter
    && ps[k] in ps && Runnable(t, ps[..k]) && ViolatesMeter(t, ps[..k], ps[k].frame)
  }

  lemma PrefixViolates(t: Tables, ps: seq<Packet>, n: nat, k: nat, gate: nat, meter: nat)
    requires k < n <= |ps| && Runnable(t, ps) && Runnable(t, ps[..n])
    ensures ViolatesGateAt(t, ps[..n], k, gate) <==> ViolatesGateAt(t, ps, k, gate)
    ensures ViolatesMeterAt(t, ps[..n], k, meter) <==> ViolatesMeterAt(t, ps, k, meter)
  {
    hide ViolatesGate, ViolatesMeter;
    assert ps[..n][..k] == ps[..k] && ps[..n][k] == ps[k];
  }

  /** Over every run: a gate is blocked iff some earlier frame violated it, and a meter
      likewise. Nothing else closes them. */
  lemma {:induction false} BlockedExactly(t: Tables, ps: seq<Packet>, gate: nat, meter: nat)
    requires Runnable(t, ps) && gate < GATES && meter < METERS
    ensures After(t, ps).gateBlocked[gate] <==> exists k :: 0 <= k < |ps| && ViolatesGateAt(t, ps, k, gate)
    ensures After(t, ps).meters.blocked[meter] <==> exists k :: 0 <= k < |ps| && ViolatesMeterAt(t, ps, k, meter)
  {
    hide Step, ViolatesGate, ViolatesMeter, ViolatesGateAt, ViolatesMeterAt;
    if ps == [] {
      NothingBlocked(t);
    } else {
      var n := |ps| - 1;
      BlockedExactly(t, ps[..n], gate, meter);
      LastViolates(t, ps, gate, meter);
      forall k | 0 <= k < n
        ensures ViolatesGateAt(t, ps[..n], k, gate) <==> ViolatesGateAt(t, ps, k, gate)
        ensures ViolatesMeterAt(t, ps[..n], k, meter) <==> ViolatesMeterAt(t, ps, k, meter)
      {
        PrefixViolates(t, ps, n, k, gate, meter);
      }
    }
  }

  lemma NothingBlocked(t: Tables)
    requires Runnable(t, [])
    ensures After(t, []).gateBlocked == seq(GATES, _ => false) && After(t, []).meters.blocked == seq(METERS, _ => false)
  {
  }

  lemma LastViolates(t: Tables, ps: seq<Packet>, gate: nat, meter: nat)
    requires Runnable(t, ps) && ps != [] && Runnable(t, ps[..|ps| - 1]) && gate < GATES && meter < METERS
    ensures var n := |ps| - 1;
      var st := After(t, ps[..n]);
      && (After(t, ps).gateBlocked[gate] <==> st.gateBlocked[gate] || ViolatesGateAt(t, ps, n, gate))
      && (After(t, ps).meters.blocked[meter] <==> st.meters.blocked[meter] || ViolatesMeterAt(t, ps, n, meter))
  {
    hide Step, ViolatesGate, ViolatesMeter;
    var n := |ps| - 1;
    assert ps[..n] + [ps[n]] == ps;
    if ps[n].Frame? {
      assert ps[n] in ps;
      ViolationsBlock(t, ps[..n], ps[n].frame);
    } else {
      GeneratedKeepsBlocked(t, After(t, ps[..n]), ps[n]);
    }
  }

  // ----- Metering -----

  /** A frame the meter marks yellow: its meter is installed and gives it colour 1 or 2. */
  predicate MeteredYellow(t: Tables, f: FrameInput) {
    f.Config().flowMeterId in t.meters && (f.color == 1 || f.color == 2)
  }

  predicate MeteredRed(t: Tables, f: FrameInput) {
    f.Config().flowMeterId in t.meters && f.color == 3
  }

  lemma MeterVerdict(t: Tables, c: Meters, f: FrameInput, dropped: bool)
    requires c.Sized() && f.MeterInRange()
    ensures var (c', dropped', dei) := MeterStep(t.meters, c, f, dropped);
      && (dropped' <==> dropped || c.blocked[f.Config().flowMeterId] || MeteredRed(t, f)
                        || (f.Config().dropOnYellow && MeteredYellow(t, f)))
      && (!dropped' ==> (dei <==> MeteredYellow(t, f)))
  {
  }

  /** Over every run: a frame that passed its gate is forwarded iff its meter is not blocked
      and, where installed, marks it neither red nor, with drop-on-yellow, yellow. A
      forwarded frame is drop-eligible iff it was marked yellow. */
  lemma ForwardedExactly(t: Tables, before: seq<Packet>, f: FrameInput)
    requires Runnable(t, before) && Runnable(t, before + [Frame(f)]) && f.InRange()
    ensures var o := OutcomeOf(t, before + [Frame(f)]);
      && (o.Forwarded? <==>
           && !GateVerdict(t, before, f).1 && !After(t, before).meters.blocked[f.Config().flowMeterId]
           && !MeteredRed(t, f) && !(f.Config().dropOnYellow && MeteredYellow(t, f)))
      && (o.Forwarded? || o.Dropped?)
      && (o.Forwarded? ==> (o.dei <==> MeteredYellow(t, f)) && o.queue == GateVerdict(t, before, f).2)
  {
    hide After, OutcomeOf, GateVerdict, MeterStep;
    FrameOutcome(t, before, f);
    MeterVerdict(t, After(t, before).meters, f, GateVerdict(t, before, f).1);
  }

  // ----- Conservation -----

  /** Frames that reached meter m without having been dropped. */
  function Entered(t: Tables, ps: seq<Packet>, m: nat): nat
    requires Runnable(t, ps)
  {
    if ps == [] then 0
    else
      var n := |ps| - 1;
      Entered(t, ps[..n], m)
      + (if ps[n].Frame? && ps[n].frame.Config().flowMeterId == m && !GateVerdict(t, ps[..n], ps[n].frame).1 then 1 else 0)
  }

  /** Those of them that were forwarded, marked yellow or not. */
  function Passed(t: Tables, ps: seq<Packet>, m: nat, yellow: bool): nat
    requires Runnable(t, ps)
  {
    if ps == [] then 0
    else
      var n := |ps| - 1;
      Passed(t, ps[..n], m, yellow)
      + (if ps[n].Frame? && ps[n].frame.Config().flowMeterId == m && OutcomeOf(t, ps).Forwarded?
            && MeteredYellow(t, ps[n].frame) == yellow then 1 else 0)
  }

  /** Per meter, yellow counts exactly the forwarded frames marked yellow, green the other
      forwarded ones, and red the rest of those that entered undropped. */
  lemma {:induction false} MeterConservation(t: Tables, ps: seq<Packet>, m: nat)
    requires Runnable(t, ps) && m < METER_COUNTERS
    ensures var c := After(t, ps).meters;
      && c.yellow[m] == Passed(t, ps, m, true)
      && c.green[m] == Passed(t, ps, m, false)
      && c.red[m] + c.yellow[m] + c.green[m] == Entered(t, ps, m)
  {
    hide Step, OutcomeOf, GateVerdict, MeteredYellow;
    if ps != [] {
      var n := |ps| - 1;
      MeterConservation(t, ps[..n], m);
      assert ps[..n] + [ps[n]] == ps;
      if ps[n].Frame? {
        FrameOutcome(t, ps[..n], ps[n].frame);
        MeterCounts(t, After(t, ps[..n]).meters, ps[n].frame, GateVerdict(t, ps[..n], ps[n].frame).1, m);
      } else {
        GeneratedKeepsBlocked(t, After(t, ps[..n]), ps[n]);
      }
    }
  }

  lemma MeterCounts(t: Tables, c: Meters, f: FrameInput, dropped: bool, m: nat)
    requires c.Sized() && f.InRange() && m < METER_COUNTERS
    ensures var (c', dropped', dei) := MeterStep(t.meters, c, f, dropped);
      var mine := f.Config().flowMeterId == m;
      && c'.red[m] + c'.yellow[m] + c'.green[m]
         == c.red[m] + c.yellow[m] + c.green[m] + (if mine && !dropped then 1 else 0)
      && c'.yellow[m] == c.yellow[m] + (if mine && !dropped' && MeteredYellow(t, f) then 1 else 0)
      && c'.green[m] == c.green[m] + (if mine && !dropped' && !MeteredYellow(t, f) then 1 else 0)
      && (dropped ==> dropped')
  {
  }
}
