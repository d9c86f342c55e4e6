/** The exact-match tables of the ingress pipeline: which packet-generator application
    stamps which gate or port, and what stream identification assigns to a frame. */
module SwitchTables {
  import opened Bits
  import opened TernaryCover
  import opened Config
  import DeltaAdjustment

  datatype AppGateRow = AppGateRow(appId: u8, streamGateId: u32)
  datatype AppTasRow = AppTasRow(appId: u8, port: u8, duration: u64)
  datatype BatchRow = BatchRow(batchId: u8, port: u8, duration: u64)

  datatype AppTables = AppTables(gates: seq<AppGateRow>, ports: seq<AppTasRow>, batches: seq<BatchRow>,
                                 clamps: seq<Request<DeltaAdjustment.Clamp>>)

  function GateDurations(ms: seq<AppIdMapping>): seq<u64> {
    seq(|ms|, i requires 0 <= i < |ms| => ms[i].hyperperiodDuration)
  }

  function PortDurations(bs: seq<BatchIdMapping>): seq<u64> {
    seq(|bs|, i requires 0 <= i < |bs| => bs[i].hyperperiodDuration)
  }

  function AppTablesFor(ms: seq<AppIdMapping>, bs: seq<BatchIdMapping>): AppTables {
    AppTables(
      seq(|ms|, i requires 0 <= i < |ms| => AppGateRow(ms[i].appId, ms[i].streamGateId)),
      seq(|bs|, i requires 0 <= i < |bs| => AppTasRow(bs[i].appId, bs[i].egressDevPort, bs[i].hyperperiodDuration)),
      seq(|bs|, i requires 0 <= i < |bs| => BatchRow(bs[i].batchId, bs[i].egressDevPort, bs[i].hyperperiodDuration)),
      DeltaAdjustment.ClampTable(GateDurations(ms) + PortDurations(bs)))
  }

  lemma {:induction false} ClampTableSnoc(ds: seq<u64>, d: u64)
    ensures DeltaAdjustment.ClampTable(ds + [d]) == DeltaAdjustment.ClampTable(ds) + DeltaAdjustment.ClampRequests(d, 48)
  {
    hide DeltaAdjustment.ClampRequests;
    if ds != [] {
      ClampTableSnoc(ds[1..], d);
      assert (ds + [d])[1..] == ds[1..] + [d];
    }
  }

  /** The rows of all mappings; the controller aborts when the identifiers were not
      assigned before. */
  method ConfigureAppIds(psfp: Psfp, tas: Tas) returns (r: Result<AppTables>)
    ensures r.Ok? <==> psfp.appIdMappings.Some? && tas.batchMappings.Some?
    ensures r.Ok? ==> r.value == AppTablesFor(psfp.appIdMappings.value, tas.batchMappings.value)
  {
    hide DeltaAdjustment.ClampTable;
    if psfp.appIdMappings.None? {
      return Panic;
    }
    var ms := psfp.appIdMappings.value;
    var t := AppTables([], [], [], []);
    EmptyClamps();
    assert GateDurations(ms[..0]) + PortDurations([]) == [];
    for i := 0 to |ms|
      invariant t == AppTablesFor(ms[..i], [])
    {
      var m := ms[i];
      assert ms[..i + 1] == ms[..i] + [m];
      assert GateDurations(ms[..i + 1]) + PortDurations([]) == (GateDurations(ms[..i]) + PortDurations([])) + [m.hyperperiodDuration];
      ClampTableSnoc(GateDurations(ms[..i]) + PortDurations([]), m.hyperperiodDuration);
      t := t.(gates := t.gates + [AppGateRow(m.appId, m.streamGateId)]);
      var exceeded := DeltaAdjustment.InitHyperperiodExceededDetectionTable(m.hyperperiodDuration);
      t := t.(clamps := t.clamps + exceeded);
    }
    assert ms[..|ms|] == ms;
    if tas.batchMappings.None? {
      return Panic;
    }
    var bs := tas.batchMappings.value;
    assert bs[..0] == [];
    for i := 0 to |bs|
      invariant t == AppTablesFor(ms, bs[..i])
    {
      var b := bs[i];
      assert bs[..i + 1] == bs[..i] + [b];
      assert GateDurations(ms) + PortDurations(bs[..i + 1]) == (GateDurations(ms) + PortDurations(bs[..i])) + [b.hyperperiodDuration];
      ClampTableSnoc(GateDurations(ms) + PortDurations(bs[..i]), b.hyperperiodDuration);
      t := t.(ports := t.ports + [AppTasRow(b.appId, b.egressDevPort, b.hyperperiodDuration)]);
      t := t.(batches := t.batches + [BatchRow(b.batchId, b.egressDevPort, b.hyperperiodDuration)]);
      var exceeded := DeltaAdjustment.InitHyperperiodExceededDetectionTable(b.hyperperiodDuration);
      t := t.(clamps := t.clamps + exceeded);
    }
    assert bs[..|bs|] == bs;
    return Ok(t);
  }

  lemma EmptyClamps()
    ensures DeltaAdjustment.ClampTable([]) == []
  {
  }

  // ----- Packet generator -----

  /** An application of the packet generator. */
  datatype GeneratorApp = GeneratorApp(appId: u8, timerNs: u64)

  /** The number of batches is configured as one less than it is. */
  datatype Generators = Generators(batchCountCfg: u16, hyperperiods: seq<GeneratorApp>)

  function GeneratorsFor(ms: seq<AppIdMapping>, bs: seq<BatchIdMapping>): seq<GeneratorApp> {
    seq(|ms|, i requires 0 <= i < |ms| => GeneratorApp(ms[i].appId, ms[i].hyperperiodDuration))
    + seq(|bs|, i requires 0 <= i < |bs| => GeneratorApp(bs[i].appId, bs[i].hyperperiodDuration))
  }

  /** Application i+1 is that of the i-th gate, with the period of its schedule; the ports
      follow, each with the period of its list. */
  lemma GeneratorPeriods(psfp: Psfp, tas: Tas)
    requires GatesNumberable(psfp, 1) && PortsNumberable(tas, 1 + |psfp.streamGates|)
    ensures var n := |psfp.streamGates|;
      var apps := GeneratorsFor(AppIds(psfp, 1), BatchIds(tas, 1 + n));
      && |apps| == n + |tas.gclToPortMapping|
      && (forall i :: 0 <= i < n ==>
           && psfp.streamGates[i] in psfp.streamGates
           && apps[i] == GeneratorApp(1 + i, FindSchedule(psfp.schedules, psfp.streamGates[i].schedule).value.period))
      && (forall j :: 0 <= j < |tas.gclToPortMapping| ==>
           && tas.gclToPortMapping[j] in tas.gclToPortMapping
           && apps[n + j] == GeneratorApp(1 + n + j, FindGcl(tas.gcls, tas.gclToPortMapping[j].gcl).value.period))
  {
    hide First;
  }

  /** Without any port the batch count cannot be decremented, and the controller aborts. */
  method ActivateTrafficGenApplications(psfp: Psfp, tas: Tas) returns (r: Result<Generators>)
    ensures r.Ok? <==> psfp.appIdMappings.Some? && tas.batchMappings.Some? && |tas.batchMappings.value| % 0x1_0000 != 0
    ensures r.Ok? ==>
      && (r.value.batchCountCfg + 1) % 0x1_0000 == |tas.batchMappings.value| % 0x1_0000
      && r.value.hyperperiods == GeneratorsFor(psfp.appIdMappings.value, tas.batchMappings.value)
  {
    if tas.batchMappings.None? {
      return Panic;
    }
    var bs := tas.batchMappings.value;
    var numberOfTasGcls: u16 := |bs| % 0x1_0000;
    if numberOfTasGcls == 0 || psfp.appIdMappings.None? {
      return Panic;
    }
    var ms := psfp.appIdMappings.value;
    var apps: seq<GeneratorApp> := [];
    assert GeneratorsFor([], []) == [];
    for i := 0 to |ms|
      invariant apps == GeneratorsFor(ms[..i], [])
    {
      apps := apps + [GeneratorApp(ms[i].appId, ms[i].hyperperiodDuration)];
    }
    assert ms[..|ms|] == ms && bs[..0] == [];
    for i := 0 to |bs|
      invariant apps == GeneratorsFor(ms, bs[..i])
    {
      apps := apps + [GeneratorApp(bs[i].appId, bs[i].hyperperiodDuration)];
    }
    assert bs[..|bs|] == bs;
    return Ok(Generators(numberOfTasGcls - 1, apps));
  }

  // ----- Stream identification -----

  /** New destination address and priority of a frame. */
  datatype Overwrite = Overwrite(mac: u48, pcp: u8)

  /** What the identification table writes into the metadata and headers of a frame. */
  datatype StreamConfig =
    StreamConfig(streamGateId: u32, closedDueToInvalidRxEnable: bool, closedDueToOctetsExceededEnable: bool,
                 flowMeterId: u32, dropOnYellow: bool, markAllFramesRed: bool, colorAware: bool, hyperperiod: u64,
                 overwrite: Option<Overwrite>)

  /** The metadata of a frame no row identifies. */
  const UNIDENTIFIED: StreamConfig := StreamConfig(0, false, false, 0, false, false, false, 0, None)

  /** A row of the identification table: two exact and two ternary keys. */
  datatype StreamRow = StreamRow(dst: u48, vid: u16, srcAddr: Entry, dstAddr: Entry, config: StreamConfig)

  function GetOr<T>(o: Option<T>, default: T): T {
    if o.Some? then o.value else default
  }

  function HandleOf(psfp: Psfp, s: Stream): StreamHandle {
    GetOr(FindHandle(psfp.streamHandles, s.streamHandle), StreamHandle(0, 0, 0))
  }

  function GateOf(psfp: Psfp, s: Stream): StreamGate {
    GetOr(FindGate(psfp.streamGates, HandleOf(psfp, s).streamGateInstance), StreamGate(0, "", false, false))
  }

  /** Addresses are text that must parse, and a new address needs a new priority. */
  predicate AddressesOk(s: Stream) {
    s.ethDst.Some? && (s.overwriteMac.Some? ==> s.overwriteMac.value.Some? && s.overwritePcp.Some?)
  }

  /** Handle, gate and meter fall back to defaults; schedule and addresses do not. */
  predicate Identifiable(psfp: Psfp, s: Stream) {
    FindSchedule(psfp.schedules, GateOf(psfp, s).schedule).Some? && AddressesOk(s)
  }

  function StreamConfigOf(psfp: Psfp, s: Stream): StreamConfig
    requires Identifiable(psfp, s)
  {
    var gate := GateOf(psfp, s);
    var meter := GetOr(FindMeter(psfp.flowMeters, HandleOf(psfp, s).flowMeterInstance), FlowMeter(0, false, false, false));
    StreamConfig(gate.streamGateId, gate.closedDueToInvalidRxEnable, gate.closedDueToOctetsExceededEnable,
                 meter.flowMeterId, meter.dropYellow, meter.markRed, meter.colorAware,
                 FindSchedule(psfp.schedules, gate.schedule).value.period,
                 if s.overwriteMac.Some? then Some(Overwrite(s.overwriteMac.value.value, s.overwritePcp.value)) else None)
  }

  /** An address serves as its own mask; without one the key is not looked at. */
  function AddressKey(address: Option<u32>): Entry {
    if address.Some? then Entry(address.value, address.value) else Entry(0, 0)
  }

  function StreamRowOf(psfp: Psfp, s: Stream): StreamRow
    requires Identifiable(psfp, s)
  {
    StreamRow(s.ethDst.value, s.vid, AddressKey(s.ipv4Src), AddressKey(s.ipv4Dst), StreamConfigOf(psfp, s))
  }

  method ConfigureStreamIdentification(psfp: Psfp) returns (r: Result<seq<StreamRow>>)
    ensures r.Ok? <==> forall s :: s in psfp.streams ==> Identifiable(psfp, s)
    ensures r.Ok? ==> |r.value| == |psfp.streams|
    ensures r.Ok? ==> forall i :: 0 <= i < |psfp.streams| ==>
      Identifiable(psfp, psfp.streams[i]) && r.value[i] == StreamRowOf(psfp, psfp.streams[i])
  {
    hide StreamConfigOf, GateOf;
    var rows: seq<StreamRow> := [];
    for i := 0 to |psfp.streams|
      invariant |rows| == i
      invariant forall k :: 0 <= k < i ==>
        Identifiable(psfp, psfp.streams[k]) && rows[k] == StreamRowOf(psfp, psfp.streams[k])
    {
      var s := psfp.streams[i];
      assert s in psfp.streams;
      var gate := GateOf(psfp, s);
      var schedule := FindSchedule(psfp.schedules, gate.schedule);
      if schedule.None? || s.ethDst.None? {
        return Panic;
      }
      if s.overwriteMac.Some? {
        if s.overwritePcp.None? || s.overwriteMac.value.None? {
          return Panic;
        }
      }
      var row := StreamRow(s.ethDst.value, s.vid, AddressKey(s.ipv4Src), AddressKey(s.ipv4Dst), StreamConfigOf(psfp, s));
      rows := rows + [row];
    }
    forall s | s in psfp.streams ensures Identifiable(psfp, s) {
      var k :| 0 <= k < |psfp.streams| && psfp.streams[k] == s;
    }
    return Ok(rows);
  }

  /** A stream belongs to the first handle with its number, or to handle 0. */
  lemma HandleExact(psfp: Psfp, s: Stream, i: nat)
    ensures i < |psfp.streamHandles| && psfp.streamHandles[i].streamHandle == s.streamHandle
            && (forall j :: 0 <= j < i ==> psfp.streamHandles[j].streamHandle != s.streamHandle)
            ==> HandleOf(psfp, s) == psfp.streamHandles[i]
    ensures (forall h :: h in psfp.streamHandles ==> h.streamHandle != s.streamHandle)
            ==> HandleOf(psfp, s) == StreamHandle(0, 0, 0)
  {
    if i < |psfp.streamHandles| && psfp.streamHandles[i].streamHandle == s.streamHandle
       && forall j :: 0 <= j < i ==> psfp.streamHandles[j].streamHandle != s.streamHandle {
      FirstAt(psfp.streamHandles, (h: StreamHandle) => h.streamHandle, i);
    }
  }

  /** A stream's row carries number and flags of the first meter its handle names, or zeros. */
  lemma MeterExact(psfp: Psfp, s: Stream, i: nat)
    requires Identifiable(psfp, s)
    ensures var id, c := HandleOf(psfp, s).flowMeterInstance, StreamConfigOf(psfp, s);
      && (i < |psfp.flowMeters| && psfp.flowMeters[i].flowMeterId == id
          && (forall j :: 0 <= j < i ==> psfp.flowMeters[j].flowMeterId != id) ==>
           var m := psfp.flowMeters[i];
           c.flowMeterId == id && c.dropOnYellow == m.dropYellow && c.markAllFramesRed == m.markRed && c.colorAware == m.colorAware)
      && ((forall m :: m in psfp.flowMeters ==> m.flowMeterId != id) ==>
           c.flowMeterId == 0 && !c.dropOnYellow && !c.markAllFramesRed && !c.colorAware)
  {
    var id := HandleOf(psfp, s).flowMeterInstance;
    hide HandleOf;
    if i < |psfp.flowMeters| && psfp.flowMeters[i].flowMeterId == id
       && forall j :: 0 <= j < i ==> psfp.flowMeters[j].flowMeterId != id {
      FirstAt(psfp.flowMeters, (m: FlowMeter) => m.flowMeterId, i);
    }
  }

  /** It carries number and flags of the first gate its handle names and the period of that
      gate's schedule; without such a gate, number 0, no flags, and the nameless schedule's. */
  lemma GateExact(psfp: Psfp, s: Stream, i: nat, k: nat)
    requires Identifiable(psfp, s)
    ensures var id, c := HandleOf(psfp, s).streamGateInstance, StreamConfigOf(psfp, s);
      && (i < |psfp.streamGates| && psfp.streamGates[i].streamGateId == id
          && (forall j :: 0 <= j < i ==> psfp.streamGates[j].streamGateId != id) ==>
           var g := psfp.streamGates[i];
           && c.streamGateId == id && c.closedDueToInvalidRxEnable == g.closedDueToInvalidRxEnable
           && c.closedDueToOctetsExceededEnable == g.closedDueToOctetsExceededEnable
           && (IsFirstSchedule(psfp, g.schedule, k) ==> c.hyperperiod == psfp.schedules[k].period))
      && ((forall g :: g in psfp.streamGates ==> g.streamGateId != id) ==>
           && c.streamGateId == 0 && !c.closedDueToInvalidRxEnable && !c.closedDueToOctetsExceededEnable
           && (IsFirstSchedule(psfp, "", k) ==> c.hyperperiod == psfp.schedules[k].period))
  {
    var id := HandleOf(psfp, s).streamGateInstance;
    hide HandleOf;
    if i < |psfp.streamGates| && psfp.streamGates[i].streamGateId == id
       && forall j :: 0 <= j < i ==> psfp.streamGates[j].streamGateId != id {
      FirstAt(psfp.streamGates, (g: StreamGate) => g.streamGateId, i);
    }
    if IsFirstSchedule(psfp, GateOf(psfp, s).schedule, k) {
      FirstAt(psfp.schedules, (s: StreamGateControlList) => s.name, k);
    }
  }

  predicate IsFirstSchedule(psfp: Psfp, name: string, k: nat) {
    && k < |psfp.schedules| && psfp.schedules[k].name == name
    && forall j :: 0 <= j < k ==> psfp.schedules[j].name != name
  }

  /** Keys and rewriting: a frame hits the row iff it has the stream's destination and VLAN
      and its addresses match the keys, of which a missing one matches all; it is given the
      new address and priority exactly when a new address is configured. */
  lemma StreamRowExact(psfp: Psfp, s: Stream, address: u32)
    requires Identifiable(psfp, s)
    ensures var row := StreamRowOf(psfp, s);
      && Some(row.dst) == s.ethDst && row.vid == s.vid && row.config == StreamConfigOf(psfp, s)
      && (s.ipv4Src == None ==> Matches(row.srcAddr, address)) && (s.ipv4Dst == None ==> Matches(row.dstAddr, address))
      && (s.ipv4Src.Some? ==> (Matches(row.srcAddr, address) <==> And(address, s.ipv4Src.value) == s.ipv4Src.value))
      && (s.ipv4Dst.Some? ==> (Matches(row.dstAddr, address) <==> And(address, s.ipv4Dst.value) == s.ipv4Dst.value))
      && (row.config.overwrite.Some? <==> s.overwriteMac.Some?)
      && (s.overwriteMac.Some? ==>
           s.overwriteMac.value == Some(row.config.overwrite.value.mac) && s.overwritePcp == Some(row.config.overwrite.value.pcp))
  {
    hide GateOf, HandleOf, First;
    if s.ipv4Src.Some? { AndSelf(s.ipv4Src.value); }
    if s.ipv4Dst.Some? { AndSelf(s.ipv4Dst.value); }
  }

  /** The key of an address selects exactly that address iff all its bits are set: every
      other address also selects the broadcast address. */
  lemma AddressKeyExact(address: u32)
    ensures (forall x: u32 :: Matches(AddressKey(Some(address)), x) <==> x == address) <==> address == U32_MAX
    ensures Matches(AddressKey(Some(address)), U32_MAX)
  {
    Pow2Constants();
    AndOnes(address, 32);
    AndSelf(address);
    if address == U32_MAX {
      forall x: u32 ensures Matches(AddressKey(Some(address)), x) <==> x == address {
        AndOnes(x, 32);
        AndCommutes(x, address);
      }
    } else {
      var x: u32 := U32_MAX;
      assert Matches(AddressKey(Some(address)), x) && x != address;
    }
  }

  lemma {:induction false} AndOnes(x: nat, n: nat)
    requires x < Pow2(n)
    ensures And(Pow2(n) - 1, x) == x
  {
    if n > 0 {
      AndOnes(x / 2, n - 1);
      Halved(Pow2(n) - 1, x);
    }
  }

  lemma {:induction false} AndSelf(x: nat)
    ensures And(x, x) == x
  {
    if x > 0 { AndSelf(x / 2); }
  }

  lemma {:induction false} AndCommutes(a: nat, b: nat)
    ensures And(a, b) == And(b, a)
    decreases a + b
  {
    if a > 0 && b > 0 { AndCommutes(a / 2, b / 2); }
  }

  // ----- Application identifiers never collide -----

  function FindAppGate(rows: seq<AppGateRow>, appId: nat): Option<AppGateRow> {
    First(rows, (r: AppGateRow) => r.appId, appId)
  }

  function FindAppTas(rows: seq<AppTasRow>, appId: nat): Option<AppTasRow> {
    First(rows, (r: AppTasRow) => r.appId, appId)
  }

  function FindBatchRow(rows: seq<BatchRow>, batchId: nat): Option<BatchRow> {
    First(rows, (r: BatchRow) => r.batchId, batchId)
  }

  /** Rows numbered upwards from `first`. */
  lemma {:induction false} FirstNumbered<T>(rows: seq<T>, key: T -> nat, first: nat, k: nat)
    requires forall i :: 0 <= i < |rows| ==> key(rows[i]) == first + i
    ensures First(rows, key, k) == if first <= k < first + |rows| then Some(rows[k - first]) else None
  {
    if rows != [] { FirstNumbered(rows[1..], key, first + 1, k); }
  }

  /** The identifiers assigned at start: one per gate from 1 on, then one per port. No
      identifier is 0, and each selects the row of exactly one gate or port, for a port
      along with the period of its list. */
  lemma AppIdsNeverCollide(psfp: Psfp, tas: Tas, appId: nat)
    requires GatesNumberable(psfp, 1) && PortsNumberable(tas, 1 + |psfp.streamGates|)
    ensures var n := |psfp.streamGates|;
      var t := AppTablesFor(AppIds(psfp, 1), BatchIds(tas, 1 + n));
      && FindAppGate(t.gates, appId)
         == (if 1 <= appId <= n then Some(AppGateRow(appId, psfp.streamGates[appId - 1].streamGateId)) else None)
      && (FindAppTas(t.ports, appId).Some? <==> n < appId <= n + |tas.gclToPortMapping|)
      && (n < appId <= n + |tas.gclToPortMapping| ==>
           var m := tas.gclToPortMapping[appId - n - 1];
           FindAppTas(t.ports, appId) == Some(AppTasRow(appId, m.port, FindGcl(tas.gcls, m.gcl).value.period)))
  {
    hide DeltaAdjustment.ClampTable, First;
    var n := |psfp.streamGates|;
    var t := AppTablesFor(AppIds(psfp, 1), BatchIds(tas, 1 + n));
    FirstNumbered(t.gates, (r: AppGateRow) => r.appId, 1, appId);
    FirstNumbered(t.ports, (r: AppTasRow) => r.appId, 1 + n, appId);
  }
}
