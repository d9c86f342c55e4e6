/** The controller's configuration: gate control lists of TAS, streams, gates and
    schedules of PSFP, and the methods that complete it before tables are written. */
module Config {
  import opened Bits

  // ----- TAS -----

  /** States by queue: 0 opens the queue, anything else closes it. */
  datatype TimeSlice = TimeSlice(low: u32, high: u32, queueStates: map<u8, u8>)

  datatype GateControlList =
    GateControlList(period: u32, name: string, timeSlices: seq<TimeSlice>, guardBandWidth: u32)

  datatype GclToPortMapping = GclToPortMapping(port: u8, gcl: string)

  datatype BatchIdMapping = BatchIdMapping(appId: u8, batchId: u8, egressDevPort: u8, hyperperiodDuration: u64)

  datatype Tas = Tas(gclToPortMapping: seq<GclToPortMapping>, gcls: seq<GateControlList>,
                     batchMappings: Option<seq<BatchIdMapping>>)

  // ----- PSFP -----

  datatype StreamGate = StreamGate(streamGateId: u32, schedule: string,
                                   closedDueToInvalidRxEnable: bool, closedDueToOctetsExceededEnable: bool)

  /** State 0 closes the gate, 1 opens it. */
  datatype Interval = Interval(low: u32, high: u32, state: u8, ipv: u8, octets: u32)

  datatype StreamGateControlList = StreamGateControlList(name: string, period: u64, intervals: seq<Interval>)

  datatype AppIdMapping = AppIdMapping(appId: u8, streamGateId: u32, hyperperiodDuration: u64)

  datatype StreamHandle = StreamHandle(streamHandle: u8, streamGateInstance: u32, flowMeterInstance: u32)

  datatype FlowMeter = FlowMeter(flowMeterId: u32, dropYellow: bool, markRed: bool, colorAware: bool)

  /** MAC addresses as the parser reads them: None when the text is no address. */
  type ParsedMac = Option<u48>

  datatype Stream = Stream(streamHandle: u8, ethDst: ParsedMac, vid: u16, overwriteMac: Option<ParsedMac>,
                           overwritePcp: Option<u8>, ipv4Src: Option<u32>, ipv4Dst: Option<u32>)

  datatype Psfp = Psfp(streams: seq<Stream>, streamHandles: seq<StreamHandle>, streamGates: seq<StreamGate>,
                       flowMeters: seq<FlowMeter>, schedules: seq<StreamGateControlList>,
                       appIdMappings: Option<seq<AppIdMapping>>)

  /** Queue maps of a port, as the traffic manager of the switch reports them. */
  datatype PortQueues = PortQueues(groupId: nat, ingressMap: seq<nat>, egressQueues: seq<nat>)

  type QueueMaps = map<u8, PortQueues>

  // ----- Lookups by name or number; the first entry wins -----

  function First<T, K(==)>(xs: seq<T>, key: T -> K, k: K): (r: Option<T>)
    ensures r.Some? ==> r.value in xs && key(r.value) == k
    ensures r.None? ==> forall x :: x in xs ==> key(x) != k
  {
    if xs == [] then None
    else if key(xs[0]) == k then Some(xs[0])
    else First(xs[1..], key, k)
  }

  /** What is found is the first: nothing before it has the key. */
  lemma {:induction false} FirstAt<T, K>(xs: seq<T>, key: T -> K, i: nat)
    requires i < |xs| && forall j :: 0 <= j < i ==> key(xs[j]) != key(xs[i])
    ensures First(xs, key, key(xs[i])) == Some(xs[i])
  {
    if i > 0 { FirstAt(xs[1..], key, i - 1); }
  }

  lemma FirstOfDistinct<T, K>(xs: seq<T>, key: T -> K, x: T)
    requires x in xs && forall i, j :: 0 <= i < j < |xs| ==> key(xs[i]) != key(xs[j])
    ensures First(xs, key, key(x)) == Some(x)
  {
    var y := First(xs, key, key(x)).value;
    var i :| 0 <= i < |xs| && xs[i] == x;
    var j :| 0 <= j < |xs| && xs[j] == y;
  }

  function FindGcl(gcls: seq<GateControlList>, name: string): Option<GateControlList> {
    First(gcls, (g: GateControlList) => g.name, name)
  }

  function FindBatch(bs: seq<BatchIdMapping>, port: u8): Option<BatchIdMapping> {
    First(bs, (b: BatchIdMapping) => b.egressDevPort, port)
  }

  function FindGate(gates: seq<StreamGate>, id: u32): Option<StreamGate> {
    First(gates, (g: StreamGate) => g.streamGateId, id)
  }

  function FindGateBySchedule(gates: seq<StreamGate>, name: string): Option<StreamGate> {
    First(gates, (g: StreamGate) => g.schedule, name)
  }

  function FindHandle(hs: seq<StreamHandle>, handle: u8): Option<StreamHandle> {
    First(hs, (h: StreamHandle) => h.streamHandle, handle)
  }

  function FindMeter(ms: seq<FlowMeter>, id: u32): Option<FlowMeter> {
    First(ms, (m: FlowMeter) => m.flowMeterId, id)
  }

  function FindSchedule(ss: seq<StreamGateControlList>, name: string): Option<StreamGateControlList> {
    First(ss, (s: StreamGateControlList) => s.name, name)
  }

  // ----- Guard bands -----

  function AllClosed(qs: map<u8, u8>): (closed: map<u8, u8>) {
    map q | q in qs :: 1
  }

  function TotalWidth(slices: seq<TimeSlice>): int {
    if slices == [] then 0
    else (slices[0].high - slices[0].low) + TotalWidth(slices[1..])
  }

  /** No slice is inverted, and the slices with their guard bands end below 2^32. */
  ghost predicate GuardFits(slices: seq<TimeSlice>, guard: u32, low: nat) {
    && (forall s :: s in slices ==> s.low <= s.high)
    && low + TotalWidth(slices) + |slices| * guard <= U32_MAX
  }

  lemma {:induction false} WidthNonNegative(slices: seq<TimeSlice>)
    requires forall s :: s in slices ==> s.low <= s.high
    ensures TotalWidth(slices) >= 0
  {
    if slices != [] { WidthNonNegative(slices[1..]); }
  }

  lemma GuardFitsNext(slices: seq<TimeSlice>, guard: u32, low: nat)
    requires slices != [] && GuardFits(slices, guard, low)
    ensures var w := slices[0].high - slices[0].low;
      w >= 0 && low + w + guard <= U32_MAX && GuardFits(slices[1..], guard, low + w + guard)
  {
    WidthNonNegative(slices[1..]);
    assert |slices| * guard == guard + |slices[1..]| * guard;
    assert |slices[1..]| * guard >= 0;
  }

  /** Each slice, moved to follow its predecessor, and then its guard band. */
  ghost function Guarded(slices: seq<TimeSlice>, guard: u32, low: nat): seq<TimeSlice>
    requires GuardFits(slices, guard, low)
  {
    if slices == [] then []
    else
      GuardFitsNext(slices, guard, low);
      var s := slices[0];
      var mid := low + (s.high - s.low);
      [TimeSlice(low, mid, s.queueStates), TimeSlice(mid, mid + guard, AllClosed(s.queueStates))]
      + Guarded(slices[1..], guard, mid + guard)
  }

  /** When the rewrite of a list stays within 32 bits. */
  ghost predicate Guardable(gcl: GateControlList) {
    gcl.guardBandWidth == 0
    || (GuardFits(gcl.timeSlices, gcl.guardBandWidth, 0)
        && gcl.period + gcl.guardBandWidth * |gcl.timeSlices| <= U32_MAX)
  }

  ghost function WithGuards(gcl: GateControlList): GateControlList
    requires Guardable(gcl)
  {
    if gcl.guardBandWidth == 0 then gcl
    else
      WidthNonNegative(gcl.timeSlices);
      gcl.(period := gcl.period + gcl.guardBandWidth * |gcl.timeSlices|,
           timeSlices := Guarded(gcl.timeSlices, gcl.guardBandWidth, 0))
  }

  /** The loop over one list, every 32-bit operation checked. */
  method InsertGuardBands(gcl: GateControlList) returns (r: Result<GateControlList>)
    requires gcl.guardBandWidth > 0
    ensures r.Ok? <==> Guardable(gcl)
    ensures r.Ok? ==> r.value == WithGuards(gcl)
  {
    hide GuardFits;
    var g, slices := gcl.guardBandWidth, gcl.timeSlices;
    var newTimeSlices: seq<TimeSlice> := [];
    var lastHigh: u32 := 0;
    assert slices[0..] == slices;
    for i := 0 to |slices|
      invariant Guarding(newTimeSlices, slices[i..], g, lastHigh, slices)
    {
      var ts := slices[i];
      assert slices[i..][1..] == slices[i + 1..] && slices[i..][0] == ts;
      GuardNext(newTimeSlices, slices[i..], g, lastHigh, slices);
      if ts.high < ts.low || lastHigh + (ts.high - ts.low) + g > U32_MAX {
        return Panic;
      }
      var origTs := TimeSlice(lastHigh, lastHigh + (ts.high - ts.low), ts.queueStates);
      var guardTs := TimeSlice(origTs.high, origTs.high + g, AllClosed(ts.queueStates));
      newTimeSlices := newTimeSlices + [origTs, guardTs];
      lastHigh := guardTs.high;
    }
    assert slices[|slices|..] == [];
    GuardEmpty(g, lastHigh);
    if gcl.period + g * |slices| > U32_MAX {
      return Panic;
    }
    return Ok(gcl.(period := gcl.period + g * |slices|, timeSlices := newTimeSlices));
  }

  /** The slices emitted so far and the guarded rest make up the guarded whole. */
  ghost predicate Guarding(done: seq<TimeSlice>, rest: seq<TimeSlice>, g: u32, low: nat, slices: seq<TimeSlice>) {
    && (GuardFits(rest, g, low) <==> GuardFits(slices, g, 0))
    && (GuardFits(slices, g, 0) ==> done + Guarded(rest, g, low) == Guarded(slices, g, 0))
  }

  lemma GuardEmpty(g: u32, low: u32)
    ensures GuardFits([], g, low)
  {
  }

  lemma GuardNext(done: seq<TimeSlice>, rest: seq<TimeSlice>, g: u32, low: u32, slices: seq<TimeSlice>)
    requires rest != [] && Guarding(done, rest, g, low, slices)
    ensures var s := rest[0];
      if s.high < s.low || low + (s.high - s.low) + g > U32_MAX then !GuardFits(slices, g, 0)
      else
        var mid := low + (s.high - s.low);
        Guarding(done + [TimeSlice(low, mid, s.queueStates), TimeSlice(mid, mid + g, AllClosed(s.queueStates))],
                 rest[1..], g, mid + g, slices)
  {
    hide GuardFits;
    var s := rest[0];
    if GuardFits(rest, g, low) { GuardFitsNext(rest, g, low); }
    if s.low <= s.high && low + (s.high - s.low) + g <= U32_MAX {
      GuardFitsStep(rest, g, low);
      if GuardFits(rest, g, low) {
        var mid := low + (s.high - s.low);
        var pair := [TimeSlice(low, mid, s.queueStates), TimeSlice(mid, mid + g, AllClosed(s.queueStates))];
        assert done + (pair + Guarded(rest[1..], g, mid + g)) == (done + pair) + Guarded(rest[1..], g, mid + g);
      }
    } else if GuardFits(rest, g, low) {
      NotInverted(rest, g, low);
    }
  }

  lemma NotInverted(slices: seq<TimeSlice>, guard: u32, low: nat)
    requires slices != [] && GuardFits(slices, guard, low)
    ensures slices[0].low <= slices[0].high
  {
  }

  lemma GuardFitsStep(slices: seq<TimeSlice>, guard: u32, low: nat)
    requires slices != [] && slices[0].low <= slices[0].high
    ensures GuardFits(slices, guard, low)
       <==> GuardFits(slices[1..], guard, low + (slices[0].high - slices[0].low) + guard)
  {
    assert |slices| * guard == guard + |slices[1..]| * guard;
    assert forall s :: s in slices <==> s == slices[0] || s in slices[1..];
  }

  // ----- What the rewrite guarantees -----

  /** Each slice starts where its predecessor ends, the first one at `low`. */
  ghost predicate Contiguous(slices: seq<TimeSlice>, low: nat) {
    && (slices != [] ==> slices[0].low == low)
    && (forall i :: 0 <= i < |slices| ==> slices[i].low <= slices[i].high)
    && (forall i :: 0 < i < |slices| ==> slices[i].low == slices[i - 1].high)
  }

  /** Slices 2i and 2i+1 are content slice i and its guard band. */
  ghost predicate PairAt(r: seq<TimeSlice>, i: nat, s: TimeSlice, guard: u32)
    requires 2 * i + 1 < |r|
  {
    && r[2 * i].high - r[2 * i].low == s.high - s.low
    && r[2 * i].queueStates == s.queueStates
    && r[2 * i + 1].high - r[2 * i + 1].low == guard
    && r[2 * i + 1].queueStates == AllClosed(s.queueStates)
  }

  lemma {:induction false} GuardedContiguous(slices: seq<TimeSlice>, guard: u32, low: nat)
    requires GuardFits(slices, guard, low)
    ensures |Guarded(slices, guard, low)| == 2 * |slices|
    ensures Contiguous(Guarded(slices, guard, low), low)
  {
    hide GuardFits;
    if slices != [] {
      GuardFitsNext(slices, guard, low);
      NotInverted(slices, guard, low);
      var mid := low + (slices[0].high - slices[0].low);
      GuardedContiguous(slices[1..], guard, mid + guard);
    }
  }

  lemma {:induction false} GuardedEnd(slices: seq<TimeSlice>, guard: u32, low: nat)
    requires GuardFits(slices, guard, low) && slices != []
    ensures var r := Guarded(slices, guard, low);
      r != [] && r[|r| - 1].high == low + TotalWidth(slices) + |slices| * guard
  {
    hide GuardFits;
    GuardFitsNext(slices, guard, low);
    var mid := low + (slices[0].high - slices[0].low);
    var rest := Guarded(slices[1..], guard, mid + guard);
    OneMore(|slices[1..]|, guard);
    if slices[1..] != [] {
      GuardedEnd(slices[1..], guard, mid + guard);
      assert Guarded(slices, guard, low)[|rest| + 1] == rest[|rest| - 1];
    } else {
      assert TotalWidth(slices[1..]) == 0 && rest == [];
    }
  }

  lemma {:induction false} GuardedPairs(slices: seq<TimeSlice>, guard: u32, low: nat, i: nat)
    requires GuardFits(slices, guard, low) && i < |slices|
    ensures |Guarded(slices, guard, low)| == 2 * |slices|
    ensures PairAt(Guarded(slices, guard, low), i, slices[i], guard)
  {
    hide GuardFits;
    GuardedContiguous(slices, guard, low);
    GuardFitsNext(slices, guard, low);
    if i > 0 {
      var mid := low + (slices[0].high - slices[0].low);
      GuardedPairs(slices[1..], guard, mid + guard, i - 1);
    }
  }

  /** The rewrite keeps every content slice's width and states in order, puts a band of
      exactly the guard width with every listed queue closed after each, leaves no gap
      from 0 on, and ends at the new period when the widths added up to the old one. */
  lemma GuardBandRewrite(gcl: GateControlList)
    requires gcl.guardBandWidth > 0 && Guardable(gcl)
    ensures var r := WithGuards(gcl);
      && |r.timeSlices| == 2 * |gcl.timeSlices|
      && Contiguous(r.timeSlices, 0)
      && (forall i :: 0 <= i < |gcl.timeSlices| ==> PairAt(r.timeSlices, i, gcl.timeSlices[i], gcl.guardBandWidth))
      && (gcl.timeSlices != [] ==>
           (r.timeSlices[|r.timeSlices| - 1].high == r.period <==> TotalWidth(gcl.timeSlices) == gcl.period))
  {
    hide GuardFits;
    GuardedContiguous(gcl.timeSlices, gcl.guardBandWidth, 0);
    if gcl.timeSlices != [] { GuardedEnd(gcl.timeSlices, gcl.guardBandWidth, 0); }
    forall i | 0 <= i < |gcl.timeSlices|
      ensures PairAt(WithGuards(gcl).timeSlices, i, gcl.timeSlices[i], gcl.guardBandWidth)
    {
      GuardedPairs(gcl.timeSlices, gcl.guardBandWidth, 0, i);
    }
  }

  /** Slices that cover [0, period] without a gap, each starting where its predecessor ends. */
  ghost predicate Tiles(gcl: GateControlList) {
    gcl.timeSlices != [] && Contiguous(gcl.timeSlices, 0)
    && gcl.timeSlices[|gcl.timeSlices| - 1].high == gcl.period
  }

  /** A list whose widths add up to its period tiles the new period after the rewrite. */
  lemma GuardedTiles(gcl: GateControlList)
    requires gcl.guardBandWidth > 0 && Guardable(gcl)
    requires gcl.timeSlices != [] && TotalWidth(gcl.timeSlices) == gcl.period
    ensures Tiles(WithGuards(gcl))
  {
    GuardBandRewrite(gcl);
  }

  // ----- The configuration object -----

  ghost function GuardAll(gcls: seq<GateControlList>): seq<GateControlList>
    requires forall g :: g in gcls ==> Guardable(g)
  {
    seq(|gcls|, i requires 0 <= i < |gcls| => WithGuards(gcls[i]))
  }

  /** Every gate's schedule exists and the 8-bit identifiers suffice. */
  predicate GatesNumberable(psfp: Psfp, first: u8) {
    && (forall g :: g in psfp.streamGates ==> FindSchedule(psfp.schedules, g.schedule).Some?)
    && first + |psfp.streamGates| <= 255
  }

  function AppIds(psfp: Psfp, first: u8): seq<AppIdMapping>
    requires GatesNumberable(psfp, first)
  {
    seq(|psfp.streamGates|, i requires 0 <= i < |psfp.streamGates| =>
      var g := psfp.streamGates[i];
      AppIdMapping(first + i, g.streamGateId, FindSchedule(psfp.schedules, g.schedule).value.period))
  }

  predicate PortsNumberable(tas: Tas, first: u8) {
    && (forall m :: m in tas.gclToPortMapping ==> FindGcl(tas.gcls, m.gcl).Some?)
    && first + |tas.gclToPortMapping| <= 255
  }

  function BatchIds(tas: Tas, first: u8): seq<BatchIdMapping>
    requires PortsNumberable(tas, first)
  {
    seq(|tas.gclToPortMapping|, i requires 0 <= i < |tas.gclToPortMapping| =>
      var m := tas.gclToPortMapping[i];
      BatchIdMapping(first + i, i, m.port, FindGcl(tas.gcls, m.gcl).value.period))
  }

  class AppState {
    var lastConfiguredAppId: u8
    var uniqueIntervalIdentifier: u32

    /** Identifier 0 is reserved for TAS control packets. */
    constructor ()
      ensures lastConfiguredAppId == 1 && uniqueIntervalIdentifier == 0
    {
      lastConfiguredAppId := 1;
      uniqueIntervalIdentifier := 0;
    }
  }

  class Configuration {
    var psfp: Psfp
    var tas: Tas

    constructor (psfp: Psfp, tas: Tas)
      ensures this.psfp == psfp && this.tas == tas
    {
      this.psfp, this.tas := psfp, tas;
    }

    /** Rewrites every list that has a guard band; an overflow in any of them leaves
        the configuration as it was. */
    method InsertTasGsi() returns (r: Result<()>)
      modifies this`tas
      ensures r.Ok? <==> forall g :: g in old(tas.gcls) ==> Guardable(g)
      ensures r.Ok? ==> tas == old(tas).(gcls := GuardAll(old(tas.gcls)))
      ensures r.Panic? ==> tas == old(tas)
    {
      hide Guardable, WithGuards;
      var guardedGcls: seq<GateControlList> := [];
      for i := 0 to |tas.gcls|
        invariant tas == old(tas)
        invariant forall g :: g in tas.gcls[..i] ==> Guardable(g)
        invariant guardedGcls == GuardAll(tas.gcls[..i])
      {
        var gcl := tas.gcls[i];
        assert tas.gcls[..i + 1] == tas.gcls[..i] + [gcl];
        Unguarded(gcl);
        if gcl.guardBandWidth == 0 {
          guardedGcls := guardedGcls + [gcl];
          continue;
        }
        var guarded :- InsertGuardBands(gcl);
        guardedGcls := guardedGcls + [guarded];
      }
      assert tas.gcls[..|tas.gcls|] == tas.gcls;
      tas := tas.(gcls := guardedGcls);
      return Ok(());
    }

    /** One application identifier per stream gate, counting up from the last one. */
    method ConfigureAppIdsStreamGateHyperperiod(appState: AppState) returns (r: Result<()>)
      modifies this`psfp, appState`lastConfiguredAppId
      ensures r.Ok? <==> GatesNumberable(old(psfp), old(appState.lastConfiguredAppId))
      ensures r.Ok? ==> psfp == old(psfp).(appIdMappings := Some(AppIds(old(psfp), old(appState.lastConfiguredAppId))))
      ensures r.Ok? ==> appState.lastConfiguredAppId == old(appState.lastConfiguredAppId) + |psfp.streamGates|
    {
      var appMappings: seq<AppIdMapping> := [];
      ghost var first := appState.lastConfiguredAppId;
      for i := 0 to |psfp.streamGates|
        invariant psfp == old(psfp) && appState.lastConfiguredAppId == first + i
        invariant forall g :: g in psfp.streamGates[..i] ==> FindSchedule(psfp.schedules, g.schedule).Some?
        invariant |appMappings| == i
        invariant forall k :: 0 <= k < i ==>
          var g := psfp.streamGates[k];
          && FindSchedule(psfp.schedules, g.schedule).Some?
          && appMappings[k]
             == AppIdMapping(first + k, g.streamGateId, FindSchedule(psfp.schedules, g.schedule).value.period)
      {
        var gate := psfp.streamGates[i];
        assert psfp.streamGates[..i + 1] == psfp.streamGates[..i] + [gate];
        var schedule := FindSchedule(psfp.schedules, gate.schedule);
        if schedule.None? {
          return Panic;
        }
        appMappings := appMappings
          + [AppIdMapping(appState.lastConfiguredAppId, gate.streamGateId, schedule.value.period)];
        if appState.lastConfiguredAppId == 255 {
          return Panic;
        }
        appState.lastConfiguredAppId := appState.lastConfiguredAppId + 1;
      }
      assert psfp.streamGates[..|psfp.streamGates|] == psfp.streamGates;
      assert appMappings == AppIds(psfp, first);
      psfp := psfp.(appIdMappings := Some(appMappings));
      return Ok(());
    }

    /** One application identifier and one batch per port with a gate control list. */
    method ConfigureAppIdsTasHyperperiod(appState: AppState) returns (r: Result<()>)
      modifies this`tas, appState`lastConfiguredAppId
      ensures r.Ok? <==> PortsNumberable(old(tas), old(appState.lastConfiguredAppId))
      ensures r.Ok? ==> tas == old(tas).(batchMappings := Some(BatchIds(old(tas), old(appState.lastConfiguredAppId))))
      ensures r.Ok? ==> appState.lastConfiguredAppId == old(appState.lastConfiguredAppId) + |tas.gclToPortMapping|
    {
      var batchMappings: seq<BatchIdMapping> := [];
      ghost var first := appState.lastConfiguredAppId;
      for i := 0 to |tas.gclToPortMapping|
        invariant tas == old(tas) && appState.lastConfiguredAppId == first + i
        invariant forall m :: m in tas.gclToPortMapping[..i] ==> FindGcl(tas.gcls, m.gcl).Some?
        invariant |batchMappings| == i
        invariant forall k :: 0 <= k < i ==>
          var m := tas.gclToPortMapping[k];
          && FindGcl(tas.gcls, m.gcl).Some?
          && batchMappings[k] == BatchIdMapping(first + k, k, m.port, FindGcl(tas.gcls, m.gcl).value.period)
      {
        var mapping := tas.gclToPortMapping[i];
        assert tas.gclToPortMapping[..i + 1] == tas.gclToPortMapping[..i] + [mapping];
        var gcl := FindGcl(tas.gcls, mapping.gcl);
        if gcl.None? {
          return Panic;
        }
        batchMappings := batchMappings
          + [BatchIdMapping(appState.lastConfiguredAppId, i % 0x100, mapping.port, gcl.value.period)];
        if appState.lastConfiguredAppId == 255 {
          return Panic;
        }
        appState.lastConfiguredAppId := appState.lastConfiguredAppId + 1;
      }
      assert tas.gclToPortMapping[..|tas.gclToPortMapping|] == tas.gclToPortMapping;
      assert batchMappings == BatchIds(tas, first);
      tas := tas.(batchMappings := Some(batchMappings));
      return Ok(());
    }
  }

  lemma Unguarded(gcl: GateControlList)
    ensures gcl.guardBandWidth == 0 ==> Guardable(gcl) && WithGuards(gcl) == gcl
  {
  }
}
