/** PSFP: the table rows built from stream gates and their schedules. */
module PsfpTables {
  import opened Bits
  import opened TernaryCover
  import opened Config

  /** Exact key and action data of a row of the stream gate table. */
  datatype GateRow = GateRow(streamGateId: u32, gateState: u8, ipv: u8, intervalIdentifier: u32, maxOctets: u32)

  // ----- Schedules -----

  function RowFor(gateId: u32, t: Interval, id: u32): GateRow {
    GateRow(gateId, t.state, t.ipv, id, t.octets)
  }

  function IntervalRows(gateId: u32, ts: seq<Interval>, id: nat): seq<Request<GateRow>>
    requires id + |ts| <= U32_MAX
  {
    if ts == [] then []
    else
      Requests(Entries(ts[0].low, ts[0].high), RowFor(gateId, ts[0], id)) + IntervalRows(gateId, ts[1..], id + 1)
  }

  predicate Resolved(psfp: Psfp, m: AppIdMapping) {
    && FindGate(psfp.streamGates, m.streamGateId).Some?
    && FindSchedule(psfp.schedules, FindGate(psfp.streamGates, m.streamGateId).value.schedule).Some?
    && FindGateBySchedule(psfp.streamGates, FindGate(psfp.streamGates, m.streamGateId).value.schedule).Some?
  }

  function ScheduleOf(psfp: Psfp, m: AppIdMapping): StreamGateControlList
    requires Resolved(psfp, m)
  {
    FindSchedule(psfp.schedules, FindGate(psfp.streamGates, m.streamGateId).value.schedule).value
  }

  /** The gate the rows are written for: the first one that names the schedule. */
  function OwnerOf(psfp: Psfp, m: AppIdMapping): StreamGate
    requires Resolved(psfp, m)
  {
    FindGateBySchedule(psfp.streamGates, FindGate(psfp.streamGates, m.streamGateId).value.schedule).value
  }

  function IntervalTotal(psfp: Psfp, ms: seq<AppIdMapping>): nat {
    if ms == [] then 0
    else (if Resolved(psfp, ms[0]) then |ScheduleOf(psfp, ms[0]).intervals| else 0) + IntervalTotal(psfp, ms[1..])
  }

  predicate IntervalOk(t: Interval) {
    t.low >= t.high || t.high < U32_MAX
  }

  predicate MappingOk(psfp: Psfp, m: AppIdMapping) {
    Resolved(psfp, m) && forall t :: t in ScheduleOf(psfp, m).intervals ==> IntervalOk(t)
  }

  /** When all schedules can be written, `id` being the first interval number. */
  predicate Writable(psfp: Psfp, ms: seq<AppIdMapping>, id: nat) {
    && (forall m :: m in ms ==> MappingOk(psfp, m))
    && id + IntervalTotal(psfp, ms) <= U32_MAX
  }

  function AllRows(psfp: Psfp, ms: seq<AppIdMapping>, id: nat): seq<Request<GateRow>>
    requires Writable(psfp, ms, id)
  {
    if ms == [] then []
    else
      WritableNext(psfp, ms, id);
      var ts := ScheduleOf(psfp, ms[0]).intervals;
      IntervalRows(OwnerOf(psfp, ms[0]).streamGateId, ts, id) + AllRows(psfp, ms[1..], id + |ts|)
  }

  /** The intervals of one schedule, every one with its own number. */
  method WriteIntervals(gateId: u32, ts: seq<Interval>, appState: AppState) returns (r: Result<seq<Request<GateRow>>>)
    modifies appState`uniqueIntervalIdentifier
    ensures r.Ok? <==> (forall t :: t in ts ==> IntervalOk(t)) && old(appState.uniqueIntervalIdentifier) + |ts| <= U32_MAX
    ensures r.Ok? ==> r.value == IntervalRows(gateId, ts, old(appState.uniqueIntervalIdentifier))
    ensures r.Ok? ==> appState.uniqueIntervalIdentifier == old(appState.uniqueIntervalIdentifier) + |ts|
  {
    hide Entries, Requests;
    var tableRequests: seq<Request<GateRow>> := [];
    ghost var id: nat := appState.uniqueIntervalIdentifier;
    for i := 0 to |ts|
      invariant appState.uniqueIntervalIdentifier == id + i
      invariant forall t :: t in ts[..i] ==> IntervalOk(t)
      invariant id + |ts| <= U32_MAX ==>
        tableRequests + IntervalRows(gateId, ts[i..], id + i) == IntervalRows(gateId, ts, id)
    {
      var t := ts[i];
      assert ts[i..][1..] == ts[i + 1..];
      assert ts[..i + 1] == ts[..i] + [t];
      assert t in ts;
      var ternaryEntries :-
        RangeToTernaryEntries(t.low, t.high, RowFor(gateId, t, appState.uniqueIntervalIdentifier));
      if appState.uniqueIntervalIdentifier == U32_MAX {
        return Panic;
      }
      appState.uniqueIntervalIdentifier := appState.uniqueIntervalIdentifier + 1;
      tableRequests := tableRequests + ternaryEntries;
    }
    assert ts[..|ts|] == ts;
    return Ok(tableRequests);
  }

  method WriteAllSchedules(psfp: Psfp, appState: AppState) returns (r: Result<seq<Request<GateRow>>>)
    modifies appState`uniqueIntervalIdentifier
    ensures psfp.appIdMappings == None ==> r == Ok([])
    ensures psfp.appIdMappings.Some? ==>
      var ms, id := psfp.appIdMappings.value, old(appState.uniqueIntervalIdentifier);
      && (r.Ok? <==> Writable(psfp, ms, id))
      && (r.Ok? ==> r.value == AllRows(psfp, ms, id))
  {
    hide IntervalRows, IntervalOk, First;
    if psfp.appIdMappings.None? {
      return Ok([]);
    }
    var ms := psfp.appIdMappings.value;
    var tableRequests: seq<Request<GateRow>> := [];
    ghost var id := appState.uniqueIntervalIdentifier;
    assert ms[0..] == ms;
    for i := 0 to |ms|
      invariant Writable(psfp, ms[i..], appState.uniqueIntervalIdentifier) <==> Writable(psfp, ms, id)
      invariant Writable(psfp, ms, id) ==>
        tableRequests + AllRows(psfp, ms[i..], appState.uniqueIntervalIdentifier) == AllRows(psfp, ms, id)
    {
      var m := ms[i];
      assert ms[i..][1..] == ms[i + 1..] && ms[i..][0] == m;
      WritableNext(psfp, ms[i..], appState.uniqueIntervalIdentifier);
      var gate := FindGate(psfp.streamGates, m.streamGateId);
      if gate.None? {
        return Panic;
      }
      var schedule := FindSchedule(psfp.schedules, gate.value.schedule);
      var owner := FindGateBySchedule(psfp.streamGates, gate.value.schedule);
      if schedule.None? || owner.None? {
        return Panic;
      }
      var more :- WriteIntervals(owner.value.streamGateId, schedule.value.intervals, appState);
      tableRequests := tableRequests + more;
    }
    assert ms[|ms|..] == [];
    return Ok(tableRequests);
  }

  lemma WritableNext(psfp: Psfp, ms: seq<AppIdMapping>, id: nat)
    requires ms != []
    ensures Writable(psfp, ms, id) <==>
      && MappingOk(psfp, ms[0])
      && id + |ScheduleOf(psfp, ms[0]).intervals| <= U32_MAX
      && Writable(psfp, ms[1..], id + |ScheduleOf(psfp, ms[0]).intervals|)
  {
    assert forall m :: m in ms <==> m == ms[0] || m in ms[1..];
  }

  // ----- Which gate gets which rows -----

  ghost predicate DistinctGates(gates: seq<StreamGate>) {
    forall i, j :: 0 <= i < j < |gates| ==> gates[i].streamGateId != gates[j].streamGateId
  }

  lemma FindDistinctGate(gates: seq<StreamGate>, g: StreamGate)
    requires DistinctGates(gates) && g in gates
    ensures FindGate(gates, g.streamGateId) == Some(g)
  {
    FirstOfDistinct(gates, (g: StreamGate) => g.streamGateId, g);
  }

  /** A row that acts like interval t on a position, whatever its interval number. */
  ghost predicate ActsLike(r: Request<GateRow>, gateId: u32, t: Interval, key: nat) {
    && r.payload == GateRow(gateId, t.state, t.ipv, r.payload.intervalIdentifier, t.octets)
    && r.entry in Entries(t.low, t.high) && Matches(r.entry, key)
  }

  lemma {:induction false} IntervalRowsAre(gateId: u32, ts: seq<Interval>, id: nat, key: nat)
    requires id + |ts| <= U32_MAX
    ensures forall r :: r in IntervalRows(gateId, ts, id) && Matches(r.entry, key) ==>
      exists t :: t in ts && ActsLike(r, gateId, t, key)
    ensures forall t :: t in ts && t.low <= key % TWO_32 <= t.high ==>
      exists r :: r in IntervalRows(gateId, ts, id) && ActsLike(r, gateId, t, key)
  {
    hide Entries, Matches;
    if ts != [] {
      IntervalRowsAre(gateId, ts[1..], id + 1, key);
      var t0 := ts[0];
      var row := RowFor(gateId, t0, id);
      var first := Requests(Entries(t0.low, t0.high), row);
      forall r | r in IntervalRows(gateId, ts, id) && Matches(r.entry, key)
        ensures exists t :: t in ts && ActsLike(r, gateId, t, key)
      {
        if r in first {
          assert ActsLike(r, gateId, t0, key);
        } else {
          var t :| t in ts[1..] && ActsLike(r, gateId, t, key);
        }
      }
      forall t | t in ts && t.low <= key % TWO_32 <= t.high
        ensures exists r :: r in IntervalRows(gateId, ts, id) && ActsLike(r, gateId, t, key)
      {
        if t in ts[1..] {
          var r :| r in IntervalRows(gateId, ts[1..], id + 1) && ActsLike(r, gateId, t, key);
          assert r in IntervalRows(gateId, ts, id);
        } else {
          CoverHit(t.low, t.high, key);
          var e :| e in Entries(t.low, t.high) && Matches(e, key);
          var r := Request(e, row);
          RequestsHave(Entries(t.low, t.high), row, r);
          assert r in IntervalRows(gateId, ts, id) && ActsLike(r, gateId, t, key);
        }
      }
    }
  }

  /** Each interval of a schedule has its own number, counting up. */
  lemma {:induction false} IntervalNumbers(gateId: u32, ts: seq<Interval>, id: nat, r: Request<GateRow>)
    requires id + |ts| <= U32_MAX && r in IntervalRows(gateId, ts, id)
    ensures id <= r.payload.intervalIdentifier < id + |ts|
    ensures var t := ts[r.payload.intervalIdentifier - id];
      && r.payload == GateRow(gateId, t.state, t.ipv, r.payload.intervalIdentifier, t.octets)
      && r.entry in Entries(t.low, t.high)
  {
    hide Entries;
    var first := Requests(Entries(ts[0].low, ts[0].high), RowFor(gateId, ts[0], id));
    if r in first {
      RequestsHave(Entries(ts[0].low, ts[0].high), RowFor(gateId, ts[0], id), r);
    } else {
      IntervalNumbers(gateId, ts[1..], id + 1, r);
    }
  }

  lemma {:induction false} AllRowsAre(psfp: Psfp, ms: seq<AppIdMapping>, id: nat, gateId: u32, key: nat)
    requires Writable(psfp, ms, id)
    ensures forall r :: r in AllRows(psfp, ms, id) && r.payload.streamGateId == gateId && Matches(r.entry, key) ==>
      exists m, t :: m in ms && OwnedBy(psfp, m, gateId) && t in ScheduleOf(psfp, m).intervals && ActsLike(r, gateId, t, key)
    ensures forall m, t :: m in ms && OwnedBy(psfp, m, gateId) && t in ScheduleOf(psfp, m).intervals
                           && t.low <= key % TWO_32 <= t.high ==>
      exists r :: r in AllRows(psfp, ms, id) && ActsLike(r, gateId, t, key)
  {
    hide IntervalRows, Matches, IntervalOk;
    if ms != [] {
      WritableNext(psfp, ms, id);
      var m0 := ms[0];
      var ts := ScheduleOf(psfp, m0).intervals;
      var owner := OwnerOf(psfp, m0).streamGateId;
      var first, rest := IntervalRows(owner, ts, id), AllRows(psfp, ms[1..], id + |ts|);
      assert AllRows(psfp, ms, id) == first + rest;
      AllRowsAre(psfp, ms[1..], id + |ts|, gateId, key);
      IntervalRowsAre(owner, ts, id, key);
      forall r: Request<GateRow> | r in first + rest && r.payload.streamGateId == gateId && Matches(r.entry, key)
        ensures exists m, t :: m in ms && OwnedBy(psfp, m, gateId) && t in ScheduleOf(psfp, m).intervals && ActsLike(r, gateId, t, key)
      {
        if r in first {
          var t :| t in ts && ActsLike(r, owner, t, key);
          assert m0 in ms && OwnedBy(psfp, m0, gateId);
        } else {
          var m, t :| m in ms[1..] && OwnedBy(psfp, m, gateId) && t in ScheduleOf(psfp, m).intervals && ActsLike(r, gateId, t, key);
          assert m in ms;
        }
      }
      forall m, t | m in ms && OwnedBy(psfp, m, gateId) && t in ScheduleOf(psfp, m).intervals && t.low <= key % TWO_32 <= t.high
        ensures exists r :: r in first + rest && ActsLike(r, gateId, t, key)
      {
        if m in ms[1..] {
          var r :| r in rest && ActsLike(r, gateId, t, key);
          assert r in first + rest;
        } else {
          var r :| r in first && ActsLike(r, owner, t, key);
          assert r in first + rest;
        }
      }
    }
  }

  predicate OwnedBy(psfp: Psfp, m: AppIdMapping, gateId: u32) {
    Resolved(psfp, m) && OwnerOf(psfp, m).streamGateId == gateId
  }

  /** The first gate that names its schedule. */
  predicate OwnsSchedule(psfp: Psfp, g: StreamGate) {
    FindGateBySchedule(psfp.streamGates, g.schedule) == Some(g)
  }

  ghost function GateTable(psfp: Psfp, first: u8, id: nat): seq<Request<GateRow>>
    requires GatesNumberable(psfp, first) && Writable(psfp, AppIds(psfp, first), id)
  {
    AllRows(psfp, AppIds(psfp, first), id)
  }

  /** The rows installed for a gate act on a position exactly as the intervals of its
      schedule that contain its low 32 bits, provided no earlier gate names the same schedule; if
      one does, the gate gets no row at all. */
  lemma GateTableIsSchedule(psfp: Psfp, first: u8, id: nat, g: StreamGate, key: nat)
    requires GatesNumberable(psfp, first) && Writable(psfp, AppIds(psfp, first), id)
    requires DistinctGates(psfp.streamGates) && g in psfp.streamGates
    ensures FindSchedule(psfp.schedules, g.schedule).Some?
    ensures var ts := FindSchedule(psfp.schedules, g.schedule).value.intervals;
      && (forall r :: r in GateTable(psfp, first, id) && r.payload.streamGateId == g.streamGateId && Matches(r.entry, key) ==>
           OwnsSchedule(psfp, g) && exists t :: t in ts && t.low <= key % TWO_32 <= t.high && ActsLike(r, g.streamGateId, t, key))
      && (forall t :: t in ts && t.low <= key % TWO_32 <= t.high && OwnsSchedule(psfp, g) ==>
           exists r :: r in GateTable(psfp, first, id) && ActsLike(r, g.streamGateId, t, key))
  {
    hide Matches, Entries, AllRows, Writable, ActsLike;
    var ms := AppIds(psfp, first);
    var ts := FindSchedule(psfp.schedules, g.schedule).value.intervals;
    AllRowsAre(psfp, ms, id, g.streamGateId, key);
    forall r | r in GateTable(psfp, first, id) && r.payload.streamGateId == g.streamGateId && Matches(r.entry, key)
      ensures OwnsSchedule(psfp, g) && exists t :: t in ts && t.low <= key % TWO_32 <= t.high && ActsLike(r, g.streamGateId, t, key)
    {
      var m, t :| m in ms && OwnedBy(psfp, m, g.streamGateId) && t in ScheduleOf(psfp, m).intervals && ActsLike(r, g.streamGateId, t, key);
      OwnedSchedule(psfp, m, g);
      ActsOnInterval(r, g.streamGateId, t, key);
    }
    if OwnsSchedule(psfp, g) {
      var m := MappingOf(psfp, first, g);
      forall t | t in ts && t.low <= key % TWO_32 <= t.high
        ensures exists r :: r in GateTable(psfp, first, id) && ActsLike(r, g.streamGateId, t, key)
      {
        assert m in ms && OwnedBy(psfp, m, g.streamGateId) && t in ScheduleOf(psfp, m).intervals;
      }
    }
  }

  lemma ActsOnInterval(r: Request<GateRow>, gateId: u32, t: Interval, key: nat)
    requires ActsLike(r, gateId, t, key)
    ensures t.low <= key % TWO_32 <= t.high
  {
    hide Entries, Matches;
    CoverHit(t.low, t.high, key);
  }

  lemma OwnedSchedule(psfp: Psfp, m: AppIdMapping, g: StreamGate)
    requires DistinctGates(psfp.streamGates) && g in psfp.streamGates && OwnedBy(psfp, m, g.streamGateId)
    ensures OwnsSchedule(psfp, g)
    ensures Some(ScheduleOf(psfp, m)) == FindSchedule(psfp.schedules, g.schedule)
  {
    var name := FindGate(psfp.streamGates, m.streamGateId).value.schedule;
    FindDistinctGate(psfp.streamGates, OwnerOf(psfp, m));
    FindDistinctGate(psfp.streamGates, g);
  }

  lemma MappingOf(psfp: Psfp, first: u8, g: StreamGate) returns (m: AppIdMapping)
    requires GatesNumberable(psfp, first) && DistinctGates(psfp.streamGates) && g in psfp.streamGates
    requires OwnsSchedule(psfp, g)
    ensures m in AppIds(psfp, first) && OwnedBy(psfp, m, g.streamGateId)
    ensures Some(ScheduleOf(psfp, m)) == FindSchedule(psfp.schedules, g.schedule)
  {
    var i :| 0 <= i < |psfp.streamGates| && psfp.streamGates[i] == g;
    m := AppIds(psfp, first)[i];
    FindDistinctGate(psfp.streamGates, g);
  }
}
