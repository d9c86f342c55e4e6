/** The controller's start sequence: from the configuration file to the installed rows. */
module Controller {
  import opened Bits
  import opened TernaryCover
  import opened Config
  import opened SwitchTables
  import opened PsfpTables
  import opened DataPlane
  import opened DataPlaneRuns
  import DeltaAdjustment
  import TimeAwareShaper

  /** Everything the start sequence installs. */
  datatype Installation = Installation(tables: Tables, gateTable: seq<Request<TimeAwareShaper.Gate>>,
                                       streams: seq<StreamRow>, generators: Generators)

  /** What the configuration file, and the switch's queue maps, must satisfy for the
      controller not to abort. */
  ghost predicate Startable(psfp: Psfp, tas: Tas, maps: QueueMaps) {
    var first := 1 + |psfp.streamGates|;
    && (forall g :: g in tas.gcls ==> Guardable(g))
    && GatesNumberable(psfp, 1)
    && PortsNumberable(tas.(gcls := GuardAll(tas.gcls)), first)
    && Writable(psfp, AppIds(psfp, 1), 0)
    && tas.gclToPortMapping != []
    && (forall m :: m in tas.gclToPortMapping ==>
         TimeAwareShaper.AllLocated(maps, m.port) && TimeAwareShaper.MappingOk(TimeAwareShaper.Completed(tas, first), m, maps))
    && (forall s :: s in psfp.streams ==> Identifiable(psfp, s))
  }

  /** Gate, meter and port numbers are unambiguous and fit the stamp registers. */
  ghost predicate DistinctNumbers(psfp: Psfp, tas: Tas) {
    && DistinctGates(psfp.streamGates) && (forall g :: g in psfp.streamGates ==> g.streamGateId < GATE_STAMPS)
    && TimeAwareShaper.DistinctPorts(tas)
  }

  /** The gate table is that of the completed lists, and writes no key twice iff no slices of
      a list clash; the ingress tables are a deployment
      of the configuration, and every stream is assigned what its handle names. */
  ghost predicate IsInstallation(inst: Installation, psfp: Psfp, tas: Tas, maps: QueueMaps)
    requires Startable(psfp, tas, maps)
  {
    var guarded := tas.(gcls := GuardAll(tas.gcls));
    && TimeAwareShaper.Installed(inst.gateTable, TimeAwareShaper.Completed(tas, 1 + |psfp.streamGates|))
    && (TimeAwareShaper.DistinctPorts(tas) ==>
         (TimeAwareShaper.KeysDiffer(inst.gateTable)
          <==> TimeAwareShaper.ListsApart(TimeAwareShaper.Completed(tas, 1 + |psfp.streamGates|), tas.gclToPortMapping)))
    && InstallsMeters(inst.tables.meters, psfp.flowMeters)
    && DeltaAdjustment.DetectsUnderflow(inst.tables.underflow)
    && (DistinctNumbers(psfp, guarded) ==> inst.tables.Valid() && Deployed(inst.tables, psfp, guarded, 0))
    && |inst.streams| == |psfp.streams|
    && (forall i :: 0 <= i < |psfp.streams| ==>
         Identifiable(psfp, psfp.streams[i]) && inst.streams[i] == StreamRowOf(psfp, psfp.streams[i]))
    && inst.generators.batchCountCfg + 1 == |tas.gclToPortMapping|
    && inst.generators.hyperperiods == GeneratorsFor(AppIds(psfp, 1), BatchIds(guarded, 1 + |psfp.streamGates|))
  }

  /** Every meter of the file is installed, in order. */
  ghost predicate InstallsMeters(installed: seq<u32>, meters: seq<FlowMeter>) {
    |installed| == |meters| && forall i :: 0 <= i < |meters| ==> installed[i] == meters[i].flowMeterId
  }

  function MeterRows(meters: seq<FlowMeter>): seq<u32> {
    seq(|meters|, i requires 0 <= i < |meters| => meters[i].flowMeterId)
  }

  /** Identifiers written back into the configuration do not change what is written. */
  lemma {:induction false} IdsKeepRows(psfp: Psfp, psfp': Psfp, ms: seq<AppIdMapping>, id: nat)
    requires psfp' == psfp.(appIdMappings := psfp'.appIdMappings)
    ensures Writable(psfp', ms, id) <==> Writable(psfp, ms, id)
    ensures Writable(psfp, ms, id) ==> AllRows(psfp', ms, id) == AllRows(psfp, ms, id)
  {
    hide IntervalRows, IntervalOk;
    if ms != [] {
      WritableNext(psfp, ms, id);
      WritableNext(psfp', ms, id);
      if MappingOk(psfp, ms[0]) {
        IdsKeepRows(psfp, psfp', ms[1..], id + |ScheduleOf(psfp, ms[0]).intervals|);
      }
    }
  }

  lemma IdsKeepStreams(psfp: Psfp, psfp': Psfp, s: Stream)
    requires psfp' == psfp.(appIdMappings := psfp'.appIdMappings)
    ensures Identifiable(psfp', s) <==> Identifiable(psfp, s)
    ensures Identifiable(psfp, s) ==> StreamRowOf(psfp', s) == StreamRowOf(psfp, s)
  {
  }

  /** Rows built from the completed configuration make a deployment. */
  lemma Deploys(t: Tables, psfp: Psfp, tas: Tas)
    requires GatesNumberable(psfp, 1) && PortsNumberable(tas, 1 + |psfp.streamGates|) && Writable(psfp, AppIds(psfp, 1), 0)
    requires var ms, bs := AppIds(psfp, 1), BatchIds(tas, 1 + |psfp.streamGates|);
      && t.app == AppTablesFor(ms, bs) && t.durations == GateDurations(ms) + PortDurations(bs)
      && t.gates == AllRows(psfp, ms, 0)
    requires DistinctNumbers(psfp, tas) && DeltaAdjustment.DetectsUnderflow(t.underflow)
    ensures t.Valid() && Deployed(t, psfp, tas, 0)
  {
    hide AllRows, Writable;
    forall r | r in t.app.gates ensures r.streamGateId < GATE_STAMPS {
      var i :| 0 <= i < |psfp.streamGates| && t.app.gates[i] == r;
      assert psfp.streamGates[i] in psfp.streamGates;
    }
  }

  /** The three steps that complete the configuration before anything is written. */
  method Complete(configuration: Configuration, appState: AppState) returns (r: Result<()>)
    requires appState.lastConfiguredAppId == 1
    modifies configuration, appState`lastConfiguredAppId
    ensures var psfp, tas := old(configuration.psfp), old(configuration.tas);
      && (r.Ok? <==>
           && (forall g :: g in tas.gcls ==> Guardable(g)) && GatesNumberable(psfp, 1)
           && PortsNumberable(tas.(gcls := GuardAll(tas.gcls)), 1 + |psfp.streamGates|))
      && (r.Ok? ==>
           && configuration.psfp == psfp.(appIdMappings := Some(AppIds(psfp, 1)))
           && configuration.tas == TimeAwareShaper.Completed(tas, 1 + |psfp.streamGates|))
  {
    hide Guardable, First;
    var _ :- configuration.InsertTasGsi();
    var _ :- configuration.ConfigureAppIdsStreamGateHyperperiod(appState);
    var _ :- configuration.ConfigureAppIdsTasHyperperiod(appState);
    return Ok(());
  }

  /** The calls of the start sequence in order. The controller starts iff no step
      aborts; what it has installed then is a deployment of the configuration. */
  method Start(psfp: Psfp, tas: Tas, maps: QueueMaps) returns (r: Result<Installation>)
    ensures r.Ok? <==> Startable(psfp, tas, maps)
    ensures r.Ok? ==> IsInstallation(r.value, psfp, tas, maps)
  {
    hide AppIds, BatchIds, WithGuards, MeterRows, InstallsMeters, TimeAwareShaper.DistinctPorts;
    hide Guardable, Writable, AllRows, AppTablesFor, GateDurations, PortDurations, GeneratorsFor, Deployed, Identifiable,
      StreamRowOf, DistinctNumbers, First, TimeAwareShaper.MappingOk, TimeAwareShaper.KeysDiffer,
      TimeAwareShaper.ListsApart, TimeAwareShaper.BatchesDiffer, DeltaAdjustment.DetectsUnderflow, TimeAwareShaper.AllLocated, TimeAwareShaper.TasRow,
      TimeAwareShaper.TableCount, TimeAwareShaper.Located, Tables.Valid;
    var appState := new AppState();
    var configuration := new Configuration(psfp, tas);
    var _ :- Complete(configuration, appState);
    IdsKeepRows(psfp, configuration.psfp, AppIds(psfp, 1), 0);
    forall s ensures Identifiable(configuration.psfp, s) <==> Identifiable(psfp, s)
             ensures Identifiable(psfp, s) ==> StreamRowOf(configuration.psfp, s) == StreamRowOf(psfp, s) {
      IdsKeepStreams(psfp, configuration.psfp, s);
    }
    var gates :- WriteAllSchedules(configuration.psfp, appState);
    CompletedPorts(tas, 1 + |psfp.streamGates|);
    var generators :- ActivateTrafficGenApplications(configuration.psfp, configuration.tas);
    var _ :- TimeAwareShaper.ConfigureAfcPorts(configuration.tas, maps);
    var gateTable :- TimeAwareShaper.ConfigureTasQueueId(configuration.tas, maps);
    // Both kinds of identifiers have been assigned, so this step cannot abort.
    var app := ConfigureAppIds(configuration.psfp, configuration.tas);
    var streams :- ConfigureStreamIdentification(configuration.psfp);
    var underflow := DeltaAdjustment.InitUnderflowDetectionTable();
    var durations := GateDurations(configuration.psfp.appIdMappings.value)
                   + PortDurations(configuration.tas.batchMappings.value);
    var tables := Tables(app.value, gates, MeterRows(psfp.flowMeters), durations, underflow);
    AllMeters(psfp.flowMeters);
    ghost var guarded := tas.(gcls := GuardAll(tas.gcls));
    if DistinctNumbers(psfp, guarded) {
      Deploys(tables, psfp, guarded);
    }
    return Ok(Installation(tables, gateTable, streams, generators));
  }

  lemma AllMeters(meters: seq<FlowMeter>)
    ensures InstallsMeters(MeterRows(meters), meters)
  {
  }

  lemma CompletedPorts(tas: Tas, first: u8)
    requires forall g :: g in tas.gcls ==> Guardable(g)
    requires PortsNumberable(tas.(gcls := GuardAll(tas.gcls)), first)
    ensures var bs := TimeAwareShaper.Completed(tas, first).batchMappings;
      && bs == Some(BatchIds(tas.(gcls := GuardAll(tas.gcls)), first))
      && |bs.value| == |tas.gclToPortMapping| && |bs.value| % 0x1_0000 == |bs.value|
    ensures TimeAwareShaper.DistinctPorts(tas) ==> TimeAwareShaper.BatchesDiffer(TimeAwareShaper.Completed(tas, first))
  {
    hide Guardable, First;
    ModSmall(|tas.gclToPortMapping|, 0x1_0000);
    if TimeAwareShaper.DistinctPorts(tas) {
      TimeAwareShaper.DistinctBatches(TimeAwareShaper.Completed(tas, first), first);
    }
  }

  // ----- From the configuration file to every run of the switch -----

  predicate FramesInRange(ps: seq<Packet>) {
    forall p :: p in ps && p.Frame? ==> p.frame.InRange()
  }

  lemma RunsInstalled(inst: Installation, psfp: Psfp, tas: Tas, maps: QueueMaps, ps: seq<Packet>)
    requires Startable(psfp, tas, maps) && IsInstallation(inst, psfp, tas, maps)
    requires DistinctNumbers(psfp, tas) && FramesInRange(ps)
    ensures forall g :: g in tas.gcls ==> Guardable(g)
    ensures Deployed(inst.tables, psfp, tas.(gcls := GuardAll(tas.gcls)), 0) && Runnable(inst.tables, ps)
    ensures PortsNumberable(tas.(gcls := GuardAll(tas.gcls)), 1 + |psfp.streamGates|)
    ensures TimeAwareShaper.Installed(inst.gateTable, TimeAwareShaper.Completed(tas, 1 + |psfp.streamGates|))
  {
    hide Writable, Guardable, Deployed, TimeAwareShaper.Installed, TimeAwareShaper.KeysDiffer, TimeAwareShaper.ListsApart;
    assert DistinctNumbers(psfp, tas.(gcls := GuardAll(tas.gcls)));
  }

  lemma FileSettings(inst: Installation, psfp: Psfp, tas: Tas, maps: QueueMaps, k: nat, i: nat)
    requires Startable(psfp, tas, maps) && IsInstallation(inst, psfp, tas, maps)
    requires k < |psfp.streams| && i < |psfp.streamGates|
    ensures |inst.streams| == |psfp.streams|
    ensures Identifiable(psfp, psfp.streams[k]) && inst.streams[k] == StreamRowOf(psfp, psfp.streams[k])
    ensures FindSchedule(psfp.schedules, psfp.streamGates[i].schedule).Some?
  {
  }

  /** From the configuration file to every run: whatever packets came before, a frame that
      hit the row of the k-th stream is forwarded only inside an open interval of the
      schedule its gate names in the file, at its position modulo 2^32, and into the queue
      this interval gives. */
  lemma StartedSwitchIsSafe(inst: Installation, psfp: Psfp, tas: Tas, maps: QueueMaps,
                            before: seq<Packet>, f: FrameInput, k: nat, i: nat)
    requires Startable(psfp, tas, maps) && IsInstallation(inst, psfp, tas, maps) && DistinctNumbers(psfp, tas)
    requires FramesInRange(before + [Frame(f)]) && f.InRange()
    requires k < |psfp.streams| && f.stream == Some(inst.streams[k].config) && NamesGate(psfp, psfp.streams[k], i)
    ensures Runnable(inst.tables, before + [Frame(f)])
    ensures OutcomeOf(inst.tables, before + [Frame(f)]).Forwarded? ==>
      var position := GatePosition(psfp, i, f, before);
      && AddressesOk(psfp.streams[k])
      && (exists iv :: iv in ScheduleOfGate(psfp, i).intervals && iv.state != 0
                       && SendsTo(iv, position, OutcomeOf(inst.tables, before + [Frame(f)]).queue,
                                  PriorityOf(psfp.streams[k], f.pcp)))
      && (ScheduleOfGate(psfp, i).period < TWO_32 ==> position % TWO_32 == position <= ScheduleOfGate(psfp, i).period)
      && ((exists iv :: iv in ScheduleOfGate(psfp, i).intervals && iv.low <= position <= iv.high && iv.state != 0)
          <==> position < TWO_32)
  {
    hide OutcomeOf, Deployed, Writable, Guardable, GatePosition, Startable, IsInstallation, DistinctNumbers;
    RunsInstalled(inst, psfp, tas, maps, before + [Frame(f)]);
    FileSettings(inst, psfp, tas, maps, k, i);
    if OutcomeOf(inst.tables, before + [Frame(f)]).Forwarded? {
      ForwardedFramesMetOpenGate(inst.tables, psfp, tas.(gcls := GuardAll(tas.gcls)), 0, before, f, psfp.streams[k], i);
    }
  }

  /** The j-th meter is the first of the number that the stream's handle names. */
  ghost predicate NamesMeter(psfp: Psfp, s: Stream, j: nat) {
    && j < |psfp.flowMeters| && psfp.flowMeters[j].flowMeterId == HandleOf(psfp, s).flowMeterInstance
    && forall i :: 0 <= i < j ==> psfp.flowMeters[i].flowMeterId != HandleOf(psfp, s).flowMeterInstance
  }

  /** Such a frame, once it has passed its gate, is forwarded iff the meter its stream names
      in the file is not blocked and gives it neither red nor, if the file drops these,
      yellow; the drop-eligible bit of a forwarded one says whether it was yellow. */
  lemma StartedSwitchMeters(inst: Installation, psfp: Psfp, tas: Tas, maps: QueueMaps,
                            before: seq<Packet>, f: FrameInput, k: nat, j: nat)
    requires Startable(psfp, tas, maps) && IsInstallation(inst, psfp, tas, maps) && DistinctNumbers(psfp, tas)
    requires FramesInRange(before + [Frame(f)]) && f.InRange()
    requires k < |psfp.streams| && f.stream == Some(inst.streams[k].config) && NamesMeter(psfp, psfp.streams[k], j)
    ensures Runnable(inst.tables, before) && Runnable(inst.tables, before + [Frame(f)])
    ensures var o, m := OutcomeOf(inst.tables, before + [Frame(f)]), psfp.flowMeters[j];
      && m.flowMeterId < METERS
      && (!GateVerdict(inst.tables, before, f).1 ==>
           (o.Forwarded? <==>
             && !After(inst.tables, before).meters.blocked[m.flowMeterId]
             && f.color != 3 && !(m.dropYellow && (f.color == 1 || f.color == 2))))
      && (o.Forwarded? ==> (o.dei <==> f.color == 1 || f.color == 2))
  {
    hide OutcomeOf, Deployed, Writable, Guardable, Startable, DistinctNumbers, GateVerdict, After, HandleOf;
    StreamOf(inst, psfp, tas, maps, k);
    MeterExact(psfp, psfp.streams[k], j);
    hide IsInstallation, Identifiable;
    assert FramesInRange(before);
    RunsInstalled(inst, psfp, tas, maps, before);
    RunsInstalled(inst, psfp, tas, maps, before + [Frame(f)]);
    ForwardedExactly(inst.tables, before, f);
    assert inst.tables.meters[j] in inst.tables.meters;
  }

  lemma StreamOf(inst: Installation, psfp: Psfp, tas: Tas, maps: QueueMaps, k: nat)
    requires Startable(psfp, tas, maps) && IsInstallation(inst, psfp, tas, maps) && k < |psfp.streams|
    ensures |inst.streams| == |psfp.streams| && InstallsMeters(inst.tables.meters, psfp.flowMeters)
    ensures Identifiable(psfp, psfp.streams[k]) && inst.streams[k].config == StreamConfigOf(psfp, psfp.streams[k])
  {
  }

  /** Likewise for control packets: they hit the gate table iff they were generated on the
      pipe of their port, and can trigger exactly the states of the guarded slices that
      contain the time since the last period start of the i-th port; strictly inside the
      j-th slice of the file, every hit opens the queue iff its state there is 0. */
  lemma StartedSwitchFollowsSchedule(inst: Installation, psfp: Psfp, tas: Tas, maps: QueueMaps, before: seq<Packet>,
                                     i: nat, pipe: nat, queue: u8, ingress: u48)
    requires Startable(psfp, tas, maps) && IsInstallation(inst, psfp, tas, maps) && DistinctNumbers(psfp, tas)
    requires FramesInRange(before) && i < |tas.gclToPortMapping| && FindGcl(tas.gcls, tas.gclToPortMapping[i].gcl).Some?
    requires TimeAwareShaper.WellFormed(FindGcl(tas.gcls, tas.gclToPortMapping[i].gcl).value, queue)
    ensures Runnable(inst.tables, before + [Generated(0, i, ingress)])
    ensures var o := OutcomeOf(inst.tables, before + [Generated(0, i, ingress)]);
      var m := tas.gclToPortMapping[i];
      var gcl := FindGcl(tas.gcls, m.gcl).value;
      o.ControlAt? && Guardable(gcl) &&
      var hits := TimeAwareShaper.Lookup(inst.gateTable, o.position, pipe, queue, i);
      && o.position == DeltaAdjustment.Position(WithGuards(gcl).period,
                         DeltaAdjustment.Since(ingress, LastStamp(before, |psfp.streamGates| + 1 + i)))
      && (hits != [] <==> pipe == m.port / 0x80)
      && (forall a :: TimeAwareShaper.CanTrigger(hits, a)
           <==> pipe == m.port / 0x80
                && TimeAwareShaper.Configured(WithGuards(gcl).timeSlices, o.position, queue, m.port, a))
      && (forall open :: TimeAwareShaper.HitsState(hits, open)
           <==> pipe == m.port / 0x80 && TimeAwareShaper.InState(WithGuards(gcl).timeSlices, o.position, queue, open))
      && TimeAwareShaper.FollowsFile(hits, gcl, o.position, queue)
  {
    hide Startable, IsInstallation, DistinctNumbers, First, FindGcl;
    hide OutcomeOf, Deployed, Writable, Guardable, WithGuards, TimeAwareShaper.WellFormed, TimeAwareShaper.Lookup,
      TimeAwareShaper.CanTrigger, TimeAwareShaper.Configured, TimeAwareShaper.Installed, TimeAwareShaper.MappingOk,
      TimeAwareShaper.HitsState, TimeAwareShaper.InState, TimeAwareShaper.FollowsFile, TimeAwareShaper.AllLocated,
      DeltaAdjustment.Position, LastStamp;
    RunsInstalled(inst, psfp, tas, maps, before);
    RunsInstalled(inst, psfp, tas, maps, before + [Generated(0, i, ingress)]);
    ControlPacketsFollowSchedule(inst.tables, psfp, tas, 0, inst.gateTable, before, i, pipe, queue, ingress);
  }

  // ----- Small configurations -----

  /** One stream, one gate that is open for the first 1000 ns of the given period, one meter. */
  function SmallPsfp(period: u64): Psfp {
    Psfp([Stream(1, Some(2), 3, None, None, None, None)], [StreamHandle(1, 5, 6)], [StreamGate(5, "first", true, false)],
         [FlowMeter(6, false, false, false)], [StreamGateControlList("first", period, [Interval(0, 1000, 1, 8, 0)])], None)
  }

  /** One port whose queue 0 is always open. */
  const SMALL_TAS: Tas :=
    Tas([GclToPortMapping(9, "open")], [GateControlList(1000, "open", [TimeSlice(0, 1000, map[0 := 0])], 0)], None)

  const SMALL_MAPS: QueueMaps :=
    map[9 := PortQueues(0, [0, 1, 2, 3, 4, 5, 6, 7], [0, 1, 2, 3, 4, 5, 6, 7])]

  lemma SmallGates(period: u64)
    ensures var psfp := SmallPsfp(period);
      && GatesNumberable(psfp, 1) && Writable(psfp, AppIds(psfp, 1), 0)
      && NamesGate(psfp, psfp.streams[0], 0) && Identifiable(psfp, psfp.streams[0])
      && OwnsSchedule(psfp, psfp.streamGates[0])
      && FindSchedule(psfp.schedules, "first") == Some(psfp.schedules[0])
  {
    var psfp := SmallPsfp(period);
    assert FindSchedule(psfp.schedules, "first") == Some(psfp.schedules[0]);
    assert FindGate(psfp.streamGates, 5) == Some(psfp.streamGates[0]);
    assert FindGateBySchedule(psfp.streamGates, "first") == Some(psfp.streamGates[0]);
    assert FindHandle(psfp.streamHandles, 1) == Some(psfp.streamHandles[0]);
    hide First;
    assert AppIds(psfp, 1) == [AppIdMapping(1, 5, period)];
    WritableNext(psfp, AppIds(psfp, 1), 0);
  }

  lemma SmallPorts()
    ensures Guardable(SMALL_TAS.gcls[0]) && GuardAll(SMALL_TAS.gcls) == SMALL_TAS.gcls
    ensures PortsNumberable(SMALL_TAS, 2) && TimeAwareShaper.AllLocated(SMALL_MAPS, 9)
    ensures TimeAwareShaper.MappingOk(TimeAwareShaper.Completed(SMALL_TAS, 2), SMALL_TAS.gclToPortMapping[0], SMALL_MAPS)
    ensures TimeAwareShaper.WellFormed(SMALL_TAS.gcls[0], 0)
  {
    var tas := SMALL_TAS;
    assert FindGcl(tas.gcls, "open") == Some(tas.gcls[0]);
    assert GuardAll(tas.gcls) == tas.gcls;
    var bs := BatchIds(tas, 2);
    assert bs == [BatchIdMapping(2, 0, 9, 1000)] && FindBatch(bs, 9) == Some(bs[0]);
  }

  /** The controller starts with each of them, and they meet what the two results above ask for. */
  lemma SmallConfigurationStarts(period: u64)
    ensures var psfp := SmallPsfp(period);
      && Startable(psfp, SMALL_TAS, SMALL_MAPS) && DistinctNumbers(psfp, SMALL_TAS) && NamesGate(psfp, psfp.streams[0], 0)
    ensures TimeAwareShaper.WellFormed(SMALL_TAS.gcls[0], 0)
  {
    hide GatesNumberable, PortsNumberable, Writable, AppIds, Identifiable, NamesGate, Guardable, GuardAll,
      TimeAwareShaper.AllLocated, TimeAwareShaper.MappingOk, TimeAwareShaper.WellFormed, TimeAwareShaper.Completed;
    SmallGates(period);
    SmallPorts();
  }

  // ----- A frame forwarded outside its schedule -----

  const LONG_PERIOD: u64 := 0x1_0000_1000

  /** A frame of the stream at time 2^32 + 500, before any period start was stamped. */
  function LateFrame(psfp: Psfp): FrameInput
    requires |psfp.streams| > 0 && Identifiable(psfp, psfp.streams[0])
  {
    FrameInput(TWO_32 + 500, Some(StreamConfigOf(psfp, psfp.streams[0])), 0, false, 0, false, 0)
  }

  lemma LatePosition(psfp: Psfp)
    requires psfp == SmallPsfp(LONG_PERIOD)
    ensures Identifiable(psfp, psfp.streams[0]) && LateFrame(psfp).InRange()
    ensures FindSchedule(psfp.schedules, psfp.streamGates[0].schedule) == Some(psfp.schedules[0])
    ensures GatePosition(psfp, 0, LateFrame(psfp), []) == TWO_32 + 500
  {
    SmallGates(LONG_PERIOD);
    hide Identifiable, NamesGate, OwnsSchedule, Writable, AppIds;
    LateFrameIs(psfp);
    DeltaAdjustment.SmallMod(LONG_PERIOD);
    DeltaAdjustment.SmallMod(TWO_32 + 500);
  }

  lemma LateFrameIs(psfp: Psfp)
    requires psfp == SmallPsfp(LONG_PERIOD) && Identifiable(psfp, psfp.streams[0])
    ensures LateFrame(psfp).Config().streamGateId == 5 && LateFrame(psfp).Config().flowMeterId == 6
  {
    assert FindGate(psfp.streamGates, 5) == Some(psfp.streamGates[0]);
    assert FindHandle(psfp.streamHandles, 1) == Some(psfp.streamHandles[0]);
    assert FindMeter(psfp.flowMeters, 6) == Some(psfp.flowMeters[0]);
  }

  /** The controller starts with a period above 2^32 ns, and however it has installed the
      file, the very first frame is forwarded although no interval contains its position. */
  lemma LongPeriodForwardsOutside(inst: Installation)
    ensures var psfp := SmallPsfp(LONG_PERIOD);
      && Startable(psfp, SMALL_TAS, SMALL_MAPS) && Identifiable(psfp, psfp.streams[0])
      && (IsInstallation(inst, psfp, SMALL_TAS, SMALL_MAPS) ==>
           var f := LateFrame(psfp);
           && Runnable(inst.tables, [Frame(f)]) && OutcomeOf(inst.tables, [Frame(f)]).Forwarded?
           && FindSchedule(psfp.schedules, psfp.streamGates[0].schedule).Some?
           && forall iv :: iv in ScheduleOfGate(psfp, 0).intervals ==>
                !(iv.low <= GatePosition(psfp, 0, f, []) <= iv.high))
  {
    var psfp := SmallPsfp(LONG_PERIOD);
    hide *;
    SmallConfigurationStarts(LONG_PERIOD);
    SmallGates(LONG_PERIOD);
    LatePosition(psfp);
    if IsInstallation(inst, psfp, SMALL_TAS, SMALL_MAPS) {
      LateFrameForwarded(inst, psfp);
    }
  }

  lemma LateFrameForwarded(inst: Installation, psfp: Psfp)
    requires psfp == SmallPsfp(LONG_PERIOD) && Startable(psfp, SMALL_TAS, SMALL_MAPS)
    requires IsInstallation(inst, psfp, SMALL_TAS, SMALL_MAPS) && DistinctNumbers(psfp, SMALL_TAS)
    requires Identifiable(psfp, psfp.streams[0]) && LateFrame(psfp).InRange()
    ensures var f := LateFrame(psfp);
      && Runnable(inst.tables, [Frame(f)]) && OutcomeOf(inst.tables, [Frame(f)]).Forwarded?
      && FindSchedule(psfp.schedules, psfp.streamGates[0].schedule).Some?
      && forall iv :: iv in ScheduleOfGate(psfp, 0).intervals ==> !(iv.low <= GatePosition(psfp, 0, f, []) <= iv.high)
  {
    hide Startable, IsInstallation, DistinctNumbers, Deployed, Guardable, GuardAll, Writable, Identifiable, NamesGate,
      OwnsSchedule, GatePosition, GateStep, StreamConfigOf, OutcomeOf;
    var f := LateFrame(psfp);
    SmallGates(LONG_PERIOD);
    SmallPorts();
    LatePosition(psfp);
    LateFrameIs(psfp);
    RunsInstalled(inst, psfp, SMALL_TAS, SMALL_MAPS, []);
    assert [] + [Frame(f)] == [Frame(f)];
    RunsInstalled(inst, psfp, SMALL_TAS, SMALL_MAPS, [Frame(f)]);
    ModSmall(500, TWO_32);
    assert Covers(psfp.schedules[0].intervals[0], TWO_32 + 500);
    OpenGatePasses(inst.tables, psfp, SMALL_TAS, 0, [], f, psfp.streams[0], 0);
    FrameOutcome(inst.tables, [], f);
  }
}
