/** TAS: the gate table built from the gate control lists, and what a control packet
    finds in it. */
module TimeAwareShaper {
  import opened Bits
  import opened TernaryCover
  import opened Config
  import DeltaAdjustment

  /** What the 32-bit flow-control word sent to the traffic manager is built from. */
  datatype Afc = Afc(queue: u8, pipe: nat, port: u8, state: u8)

  datatype Action = OpenQueue(afc: Afc) | CloseQueue(afc: Afc)

  /** Exact keys and action of a row of the gate table. */
  datatype Gate = Gate(appId: nat, pipeId: nat, queueId: u8, batchId: u8, action: Action)

  const APP_ID_TAS_CONTROL: nat := 0

  function PipeOf(port: u8): nat {
    port / 0x80
  }

  function GateFor(queue: u8, state: u8, port: u8, batch: u8): Gate {
    var afc := Afc(queue, PipeOf(port), port, state);
    Gate(APP_ID_TAS_CONTROL, PipeOf(port), queue, batch, if state == 0 then OpenQueue(afc) else CloseQueue(afc))
  }

  // ----- The rows of the table -----

  predicate SliceRow(r: Request<Gate>, s: TimeSlice, port: u8, batch: u8) {
    && r.payload.queueId in s.queueStates
    && r.payload == GateFor(r.payload.queueId, s.queueStates[r.payload.queueId], port, batch)
    && r.entry in Entries(s.low, s.high)
  }

  ghost predicate ListRow(r: Request<Gate>, slices: seq<TimeSlice>, port: u8, batch: u8) {
    exists s :: s in slices && SliceRow(r, s, port, batch)
  }

  ghost predicate MappingRow(r: Request<Gate>, tas: Tas, m: GclToPortMapping) {
    && Resolved(tas, m)
    && ListRow(r, FindGcl(tas.gcls, m.gcl).value.timeSlices, m.port,
               FindBatch(tas.batchMappings.value, m.port).value.batchId)
  }

  predicate Resolved(tas: Tas, m: GclToPortMapping) {
    && FindGcl(tas.gcls, m.gcl).Some?
    && tas.batchMappings.Some?
    && FindBatch(tas.batchMappings.value, m.port).Some?
  }

  ghost predicate TasRow(r: Request<Gate>, tas: Tas, ms: seq<GclToPortMapping>) {
    exists m :: m in ms && MappingRow(r, tas, m)
  }

  /** The switch knows the port, and its queue maps lead from a queue to one of the traffic
      manager's queues. */
  predicate Located(maps: QueueMaps, port: u8, queue: nat) {
    && port in maps && queue < |maps[port].ingressMap|
    && maps[port].ingressMap[queue] < |maps[port].egressQueues|
  }

  /** Every listed queue of a slice is known, and its range, if any queue is listed, can be
      decomposed without overflow. */
  predicate Installable(s: TimeSlice, port: u8, maps: QueueMaps) {
    && (s.queueStates.Keys == {} || s.low >= s.high || s.high < U32_MAX)
    && forall q :: q in s.queueStates ==> Located(maps, port, q)
  }

  ghost predicate MappingOk(tas: Tas, m: GclToPortMapping, maps: QueueMaps) {
    Resolved(tas, m) && forall s :: s in FindGcl(tas.gcls, m.gcl).value.timeSlices ==> Installable(s, m.port, maps)
  }

  // ----- Flow control of the ports -----

  datatype QueueConfig = QueueConfig(groupId: nat, queue: nat, pipe: nat)

  /** The eight queues of each port are switched to flow control. */
  predicate AllLocated(maps: QueueMaps, port: u8) {
    forall q: nat :: q < 8 ==> Located(maps, port, q)
  }

  /** The i-th port's setting for a queue names the queue that the port's queue maps lead to,
      on the port's pipe. */
  predicate Configures(cs: seq<QueueConfig>, maps: QueueMaps, i: nat, port: u8, queue: nat) {
    && Located(maps, port, queue) && 8 * i + queue < |cs|
    && cs[8 * i + queue] == QueueConfig(maps[port].groupId, maps[port].egressQueues[maps[port].ingressMap[queue]], port / 0x80)
  }

  method ConfigureAfcPorts(tas: Tas, maps: QueueMaps) returns (r: Result<seq<QueueConfig>>)
    ensures r.Ok? <==> forall m :: m in tas.gclToPortMapping ==> AllLocated(maps, m.port)
    ensures r.Ok? ==> |r.value| == 8 * |tas.gclToPortMapping|
    ensures r.Ok? ==> forall i, q: nat :: 0 <= i < |tas.gclToPortMapping| && q < 8 ==>
      Configures(r.value, maps, i, tas.gclToPortMapping[i].port, q)
  {
    var ms := tas.gclToPortMapping;
    var requests: seq<QueueConfig> := [];
    for i := 0 to |ms|
      invariant |requests| == 8 * i
      invariant forall j, q: nat :: 0 <= j < i && q < 8 ==> Configures(requests, maps, j, ms[j].port, q)
    {
      var port := ms[i].port;
      assert ms[i] in ms;
      for qid := 0 to 8
        invariant |requests| == 8 * i + qid
        invariant forall j, q: nat :: (0 <= j < i && q < 8) || (j == i && q < qid) ==>
          Configures(requests, maps, j, ms[j].port, q)
      {
        if !Located(maps, port, qid) {
          return Panic;
        }
        var pgQueue := maps[port].egressQueues[maps[port].ingressMap[qid]];
        var more := requests + [QueueConfig(maps[port].groupId, pgQueue, PipeOf(port))];
        forall j, q: nat | (0 <= j < i && q < 8) || (j == i && q < qid) ensures Configures(more, maps, j, ms[j].port, q) {
          assert Configures(requests, maps, j, ms[j].port, q);
        }
        requests := more;
      }
    }
    forall m, q: nat | m in ms && q < 8 ensures Located(maps, m.port, q) {
      var j :| 0 <= j < |ms| && ms[j] == m;
      assert Configures(requests, maps, j, ms[j].port, q);
    }
    return Ok(requests);
  }

  // ----- Rows with equal keys -----

  predicate SameKey(r: Request<Gate>, r': Request<Gate>) {
    r.entry == r'.entry && r.payload.pipeId == r'.payload.pipeId && r.payload.queueId == r'.payload.queueId
    && r.payload.batchId == r'.payload.batchId
  }

  /** No key is written twice. */
  ghost predicate KeysDiffer(rows: seq<Request<Gate>>) {
    forall a, b :: 0 <= a < b < |rows| ==> !SameKey(rows[a], rows[b])
  }

  lemma KeysDifferConcat(xs: seq<Request<Gate>>, ys: seq<Request<Gate>>)
    ensures KeysDiffer(xs + ys)
       <==> KeysDiffer(xs) && KeysDiffer(ys) && forall x, y :: x in xs && y in ys ==> !SameKey(x, y)
  {
    var rows := xs + ys;
    if KeysDiffer(rows) {
      forall a, b | 0 <= a < b < |xs| ensures !SameKey(xs[a], xs[b]) {
        assert rows[a] == xs[a] && rows[b] == xs[b];
      }
      forall a, b | 0 <= a < b < |ys| ensures !SameKey(ys[a], ys[b]) {
        assert rows[|xs| + a] == ys[a] && rows[|xs| + b] == ys[b];
      }
      forall x, y | x in xs && y in ys ensures !SameKey(x, y) {
        var a :| 0 <= a < |xs| && xs[a] == x;
        var b :| 0 <= b < |ys| && ys[b] == y;
        assert rows[a] == x && rows[|xs| + b] == y;
      }
    }
  }

  lemma EntryRowsDiffer(low: u32, high: u32, gate: Gate)
    ensures KeysDiffer(Requests(Entries(low, high), gate))
  {
    hide Entries;
    var rows := Requests(Entries(low, high), gate);
    forall a, b | 0 <= a < b < |rows| ensures !SameKey(rows[a], rows[b]) {
      EntriesDiffer(low, high, a, b);
    }
  }

  /** Two slices of a list ask for the same key. */
  ghost predicate Clash(s: TimeSlice, s': TimeSlice) {
    CommonQueue(s, s') && SharedEntry(s.low, s.high, s'.low, s'.high)
  }

  ghost predicate CommonQueue(s: TimeSlice, s': TimeSlice) {
    exists q :: q in s.queueStates && q in s'.queueStates
  }

  ghost predicate SlicesApart(slices: seq<TimeSlice>) {
    forall j, k :: 0 <= j < k < |slices| ==> !Clash(slices[j], slices[k])
  }

  lemma SlicesApartSnoc(slices: seq<TimeSlice>, s: TimeSlice)
    ensures SlicesApart(slices + [s]) <==> SlicesApart(slices) && forall s' :: s' in slices ==> !Clash(s', s)
  {
    hide Clash;
    var all := slices + [s];
    if SlicesApart(all) {
      forall j, k | 0 <= j < k < |slices| ensures !Clash(slices[j], slices[k]) {
        assert all[j] == slices[j] && all[k] == slices[k];
      }
      forall s' | s' in slices ensures !Clash(s', s) {
        var j :| 0 <= j < |slices| && slices[j] == s';
        assert all[j] == s' && all[|slices|] == s;
      }
    }
  }

  /** Rows of one slice clash with rows of others exactly when the slices do. */
  lemma RowsClash(slices: seq<TimeSlice>, s: TimeSlice, port: u8, batch: u8, xs: seq<Request<Gate>>, ys: seq<Request<Gate>>)
    requires forall q :: q in xs <==> ListRow(q, slices, port, batch)
    requires forall q :: q in ys <==> SliceRow(q, s, port, batch)
    ensures (forall x, y :: x in xs && y in ys ==> !SameKey(x, y)) <==> forall s' :: s' in slices ==> !Clash(s', s)
  {
    hide Entries;
    if x, y :| x in xs && y in ys && SameKey(x, y) {
      var s' :| s' in slices && SliceRow(x, s', port, batch);
      assert x.payload.queueId in s'.queueStates && x.payload.queueId in s.queueStates;
      assert Clash(s', s);
    }
    if s' :| s' in slices && Clash(s', s) {
      var q :| q in s'.queueStates && q in s.queueStates;
      var e :| e in Entries(s'.low, s'.high) && e in Entries(s.low, s.high);
      var x := Request(e, GateFor(q, s'.queueStates[q], port, batch));
      var y := Request(e, GateFor(q, s.queueStates[q], port, batch));
      assert SliceRow(x, s', port, batch) && ListRow(x, slices, port, batch) && SliceRow(y, s, port, batch);
      assert SameKey(x, y);
    }
  }

  /** In a contiguous list two slices clash iff they list a common queue, meet in a value,
      the first has an exact row for it as its end and the second as its start. */
  lemma ClashExact(slices: seq<TimeSlice>, low: nat, j: nat, k: nat)
    requires Contiguous(slices, low) && j < k < |slices|
    ensures Clash(slices[j], slices[k])
       <==> CommonQueue(slices[j], slices[k]) && slices[j].high == slices[k].low
            && (slices[j].low == slices[j].high || slices[j].high % 2 == 0)
            && (slices[k].low == slices[k].high || slices[k].low % 2 == 1)
  {
    hide CommonQueue, SharedEntry;
    SlicesOrdered(slices, low, j, k);
    SharedEntryExact(slices[j].low, slices[j].high, slices[k].low, slices[k].high);
  }

  /** So without empty slices no key is written twice. */
  lemma WideSlicesApart(slices: seq<TimeSlice>, low: nat)
    requires Contiguous(slices, low) && forall s :: s in slices ==> s.low < s.high
    ensures SlicesApart(slices)
  {
    hide Clash, Entries;
    forall j, k | 0 <= j < k < |slices| ensures !Clash(slices[j], slices[k]) {
      ClashExact(slices, low, j, k);
    }
  }

  // ----- Building the rows -----

  /** Number of rows a list of slices needs. */
  function RowCount(slices: seq<TimeSlice>): nat {
    if slices == [] then 0
    else |slices[0].queueStates.Keys| * |Entries(slices[0].low, slices[0].high)| + RowCount(slices[1..])
  }

  function TableCount(tas: Tas, ms: seq<GclToPortMapping>): nat {
    if ms == [] then 0
    else (if Resolved(tas, ms[0]) then RowCount(FindGcl(tas.gcls, ms[0].gcl).value.timeSlices) else 0)
         + TableCount(tas, ms[1..])
  }

  /** The queues of a slice are visited in an unspecified order. */
  method SliceRequests(s: TimeSlice, port: u8, batch: u8, maps: QueueMaps) returns (r: Result<seq<Request<Gate>>>)
    ensures r.Ok? <==> Installable(s, port, maps)
    ensures r.Ok? ==> forall q :: q in r.value <==> SliceRow(q, s, port, batch)
    ensures r.Ok? ==> |r.value| == |s.queueStates.Keys| * |Entries(s.low, s.high)|
    ensures r.Ok? ==> KeysDiffer(r.value)
  {
    hide Entries, Located, KeysDiffer;
    assert KeysDiffer([]) by { NoRows(); }
    var requests: seq<Request<Gate>> := [];
    var todo := s.queueStates.Keys;
    var n: nat := 0;
    while todo != {}
      invariant todo <= s.queueStates.Keys && n + |todo| == |s.queueStates.Keys|
      invariant n > 0 ==> s.low >= s.high || s.high < U32_MAX
      invariant forall q :: q in s.queueStates.Keys - todo ==> Located(maps, port, q)
      invariant forall q :: q in requests <==> SliceRow(q, s, port, batch) && q.payload.queueId !in todo
      invariant |requests| == n * |Entries(s.low, s.high)|
      invariant KeysDiffer(requests)
      decreases todo
    {
      var queue :| queue in todo;
      if !Located(maps, port, queue) {
        return Panic;
      }
      var gate := GateFor(queue, s.queueStates[queue], port, batch);
      var ternaryEntries :- RangeToTernaryEntries(s.low, s.high, gate);
      forall q ensures q in ternaryEntries <==> q.payload == gate && q.entry in Entries(s.low, s.high) {
        RequestsHave(Entries(s.low, s.high), gate, q);
      }
      OneMore(n, |Entries(s.low, s.high)|);
      EntryRowsDiffer(s.low, s.high, gate);
      KeysDifferConcat(requests, ternaryEntries);
      requests := requests + ternaryEntries;
      todo := todo - {queue};
      n := n + 1;
    }
    return Ok(requests);
  }

  lemma NoRows()
    ensures KeysDiffer([]) && SlicesApart([])
  {
  }

  method ListRequests(slices: seq<TimeSlice>, port: u8, batch: u8, maps: QueueMaps) returns (r: Result<seq<Request<Gate>>>)
    ensures r.Ok? <==> forall s :: s in slices ==> Installable(s, port, maps)
    ensures r.Ok? ==> forall q :: q in r.value <==> ListRow(q, slices, port, batch)
    ensures r.Ok? ==> |r.value| == RowCount(slices)
    ensures r.Ok? ==> (KeysDiffer(r.value) <==> SlicesApart(slices))
  {
    hide Entries, Installable, SliceRow, KeysDiffer, SlicesApart, Clash;
    NoRows();
    var requests: seq<Request<Gate>> := [];
    for i := 0 to |slices|
      invariant forall s :: s in slices[..i] ==> Installable(s, port, maps)
      invariant forall q :: q in requests <==> ListRow(q, slices[..i], port, batch)
      invariant |requests| + RowCount(slices[i..]) == RowCount(slices)
      invariant KeysDiffer(requests) <==> SlicesApart(slices[..i])
    {
      assert slices[..i + 1] == slices[..i] + [slices[i]];
      assert slices[i..][1..] == slices[i + 1..];
      var more :- SliceRequests(slices[i], port, batch, maps);
      forall q ensures ListRow(q, slices[..i + 1], port, batch)
                   <==> ListRow(q, slices[..i], port, batch) || SliceRow(q, slices[i], port, batch) {
        assert slices[i] in slices[..i + 1];
      }
      KeysDifferConcat(requests, more);
      RowsClash(slices[..i], slices[i], port, batch, requests, more);
      SlicesApartSnoc(slices[..i], slices[i]);
      requests := requests + more;
    }
    assert slices[..|slices|] == slices;
    return Ok(requests);
  }

  /** No two ports share a batch. */
  ghost predicate BatchesDiffer(tas: Tas) {
    forall i, j :: 0 <= i < j < |tas.gclToPortMapping|
                   && Resolved(tas, tas.gclToPortMapping[i]) && Resolved(tas, tas.gclToPortMapping[j]) ==>
      FindBatch(tas.batchMappings.value, tas.gclToPortMapping[i].port).value.batchId
      != FindBatch(tas.batchMappings.value, tas.gclToPortMapping[j].port).value.batchId
  }

  ghost predicate ListsApart(tas: Tas, ms: seq<GclToPortMapping>) {
    forall m :: m in ms && Resolved(tas, m) ==> SlicesApart(FindGcl(tas.gcls, m.gcl).value.timeSlices)
  }

  lemma ListRowsApart(tas: Tas, i: nat, xs: seq<Request<Gate>>, ys: seq<Request<Gate>>)
    requires BatchesDiffer(tas) && i < |tas.gclToPortMapping|
    requires forall q :: q in xs <==> TasRow(q, tas, tas.gclToPortMapping[..i])
    requires forall q :: q in ys <==> MappingRow(q, tas, tas.gclToPortMapping[i])
    ensures forall x, y :: x in xs && y in ys ==> !SameKey(x, y)
  {
    hide First, Entries;
    var ms := tas.gclToPortMapping;
    forall x, y | x in xs && y in ys ensures !SameKey(x, y) {
      var m :| m in ms[..i] && MappingRow(x, tas, m);
      var j :| 0 <= j < i && ms[j] == m;
    }
  }

  /** The whole table; a missing list or batch, or a queue the switch does not know, aborts
      the controller. */
  method ConfigureTasQueueId(tas: Tas, maps: QueueMaps) returns (r: Result<seq<Request<Gate>>>)
    ensures r.Ok? <==> forall m :: m in tas.gclToPortMapping ==> MappingOk(tas, m, maps)
    ensures r.Ok? ==> forall q :: q in r.value <==> TasRow(q, tas, tas.gclToPortMapping)
    ensures r.Ok? ==> |r.value| == TableCount(tas, tas.gclToPortMapping)
    ensures r.Ok? && BatchesDiffer(tas) ==> (KeysDiffer(r.value) <==> ListsApart(tas, tas.gclToPortMapping))
  {
    hide RowCount, ListRow, Installable, KeysDiffer, SlicesApart, SameKey, BatchesDiffer, First;
    NoRows();
    var tableRequests: seq<Request<Gate>> := [];
    var ms := tas.gclToPortMapping;
    for i := 0 to |ms|
      invariant forall m :: m in ms[..i] ==> MappingOk(tas, m, maps)
      invariant forall q :: q in tableRequests <==> TasRow(q, tas, ms[..i])
      invariant |tableRequests| + TableCount(tas, ms[i..]) == TableCount(tas, ms)
      invariant BatchesDiffer(tas) ==> (KeysDiffer(tableRequests) <==> ListsApart(tas, ms[..i]))
    {
      var mapping := ms[i];
      assert ms[..i + 1] == ms[..i] + [mapping];
      assert ms[i..][1..] == ms[i + 1..];
      assert mapping in ms && (MappingOk(tas, mapping, maps) ==> Resolved(tas, mapping));
      var gcl := FindGcl(tas.gcls, mapping.gcl);
      if gcl.None? || tas.batchMappings.None? {
        return Panic;
      }
      var batch := FindBatch(tas.batchMappings.value, mapping.port);
      if batch.None? {
        return Panic;
      }
      var more :- ListRequests(gcl.value.timeSlices, mapping.port, batch.value.batchId, maps);
      assert mapping in ms[..i + 1];
      forall q ensures TasRow(q, tas, ms[..i + 1]) <==> TasRow(q, tas, ms[..i]) || q in more {
        assert MappingRow(q, tas, mapping) <==> q in more;
      }
      KeysDifferConcat(tableRequests, more);
      if BatchesDiffer(tas) { ListRowsApart(tas, i, tableRequests, more); }
      tableRequests := tableRequests + more;
    }
    assert ms[..|ms|] == ms;
    return Ok(tableRequests);
  }

  // ----- Looking a position up -----

  /** The lookup of a control packet, which carries application 0: the generator emits every
      batch on every pipe. */
  function Lookup(table: seq<Request<Gate>>, position: nat, pipe: nat, queue: u8, batch: u8): seq<Request<Gate>> {
    Rows(table, position, (g: Gate) =>
      g.appId == 0 && g.pipeId == pipe && g.queueId == queue && g.batchId == batch)
  }

  ghost predicate Installed(table: seq<Request<Gate>>, tas: Tas) {
    forall r :: r in table <==> TasRow(r, tas, tas.gclToPortMapping)
  }

  ghost predicate DistinctPorts(tas: Tas) {
    forall i, j :: 0 <= i < j < |tas.gclToPortMapping| ==> tas.gclToPortMapping[i].port != tas.gclToPortMapping[j].port
  }

  lemma FirstBatch(bs: seq<BatchIdMapping>, i: nat)
    requires i < |bs| && forall j, k :: 0 <= j < k < |bs| ==> bs[j].egressDevPort != bs[k].egressDevPort
    ensures FindBatch(bs, bs[i].egressDevPort) == Some(bs[i])
  {
    FirstOfDistinct(bs, (b: BatchIdMapping) => b.egressDevPort, bs[i]);
  }

  /** With distinct ports, the rows of batch i are those of the i-th port's list. */
  lemma BatchRows(tas: Tas, first: u8, i: nat, r: Request<Gate>)
    requires PortsNumberable(tas, first) && tas.batchMappings == Some(BatchIds(tas, first)) && DistinctPorts(tas)
    requires i < |tas.gclToPortMapping|
    ensures var m := tas.gclToPortMapping[i];
      && Resolved(tas, m) && FindBatch(tas.batchMappings.value, m.port).value.batchId == i
      && (TasRow(r, tas, tas.gclToPortMapping) && r.payload.batchId == i
          <==> ListRow(r, FindGcl(tas.gcls, m.gcl).value.timeSlices, m.port, i))
  {
    hide RowCount, First;
    var ms, bs := tas.gclToPortMapping, tas.batchMappings.value;
    assert forall j :: 0 <= j < |ms| ==> bs[j].egressDevPort == ms[j].port && bs[j].batchId == j;
    FirstBatch(bs, i);
    assert ms[i] in ms;
    if TasRow(r, tas, ms) && r.payload.batchId == i {
      var m :| m in ms && MappingRow(r, tas, m);
      var j :| 0 <= j < |ms| && ms[j] == m;
      FirstBatch(bs, j);
    }
  }

  ghost predicate CanTrigger(rows: seq<Request<Gate>>, a: Action) {
    exists r :: r in rows && r.payload.action == a
  }

  /** Slices are closed at both ends: a shared end point belongs to both neighbours. */
  predicate Contains(s: TimeSlice, position: nat) {
    s.low <= position <= s.high
  }

  /** State 0 opens the queue, any other closes it; the flow-control value names the queue,
      the port and its pipe, of 128 ports each, and the state. */
  predicate Does(a: Action, queue: u8, port: u8, state: u8) {
    (a.OpenQueue? <==> state == 0) && a.afc == Afc(queue, port / 0x80, port, state)
  }

  /** The action is that of the queue's state in a slice that contains the position. */
  ghost predicate Configured(slices: seq<TimeSlice>, position: nat, queue: u8, port: u8, a: Action) {
    exists s :: s in slices && Contains(s, position) && queue in s.queueStates && Does(a, queue, port, s.queueStates[queue])
  }

  lemma RowDoes(queue: u8, state: u8, port: u8, batch: u8)
    ensures forall a: Action :: Does(a, queue, port, state) <==> a == GateFor(queue, state, port, batch).action
  {
  }

  /** The matching rows of a lookup act exactly as the slices that contain the position,
      on the pipe of the port; on the other pipes nothing matches. */
  lemma LookupFindsSlices(table: seq<Request<Gate>>, tas: Tas, first: u8, i: nat, pipe: nat, queue: u8, position: nat, a: Action)
    requires Installed(table, tas)
    requires PortsNumberable(tas, first) && tas.batchMappings == Some(BatchIds(tas, first)) && DistinctPorts(tas)
    requires i < |tas.gclToPortMapping| && position < TWO_32
    requires FindGcl(tas.gcls, tas.gclToPortMapping[i].gcl).Some?
    ensures var m := tas.gclToPortMapping[i];
      var slices := FindGcl(tas.gcls, m.gcl).value.timeSlices;
      CanTrigger(Lookup(table, position, pipe, queue, i), a)
      <==> pipe == m.port / 0x80 && Configured(slices, position, queue, m.port, a)
  {
    hide Entries, Matches, TasRow;
    var m := tas.gclToPortMapping[i];
    var slices := FindGcl(tas.gcls, m.gcl).value.timeSlices;
    if r :| r in Lookup(table, position, pipe, queue, i) && r.payload.action == a {
      BatchRows(tas, first, i, r);
      var s :| s in slices && SliceRow(r, s, m.port, i);
      RowDoes(queue, s.queueStates[queue], m.port, i);
      CoverHit(s.low, s.high, position);
      ModSmall(position, TWO_32);
    }
    if pipe == m.port / 0x80 {
      if s :| s in slices && Contains(s, position) && queue in s.queueStates
              && Does(a, queue, m.port, s.queueStates[queue]) {
        RowDoes(queue, s.queueStates[queue], m.port, i);
        CoverHit(s.low, s.high, position);
        ModSmall(position, TWO_32);
        var e :| e in Entries(s.low, s.high) && Matches(e, position);
        var r := Request(e, GateFor(queue, s.queueStates[queue], m.port, i));
        assert SliceRow(r, s, m.port, i);
        BatchRows(tas, first, i, r);
        assert r in Lookup(table, position, pipe, queue, i);
      }
    }
  }

  lemma {:induction false} TilesCover(slices: seq<TimeSlice>, low: nat, position: nat) returns (k: nat)
    requires slices != [] && Contiguous(slices, low) && low <= position <= slices[|slices| - 1].high
    ensures k < |slices| && Contains(slices[k], position)
  {
    if position <= slices[0].high {
      k := 0;
    } else {
      assert forall j :: 0 <= j < |slices[1..]| ==> slices[1..][j] == slices[j + 1];
      var k' := TilesCover(slices[1..], slices[0].high, position);
      k := k' + 1;
    }
  }

  lemma {:induction false} SlicesOrdered(slices: seq<TimeSlice>, low: nat, j: nat, k: nat)
    requires Contiguous(slices, low) && j < k < |slices|
    ensures slices[j].high <= slices[k].low
    decreases k
  {
    if j < k - 1 { SlicesOrdered(slices, low, j, k - 1); }
  }

  // ----- End to end -----

  lemma {:induction false} FindGuarded(gcls: seq<GateControlList>, name: string)
    requires forall g :: g in gcls ==> Guardable(g)
    ensures FindGcl(GuardAll(gcls), name).Some? <==> FindGcl(gcls, name).Some?
    ensures FindGcl(gcls, name).Some? ==>
      && FindGcl(gcls, name).value in gcls
      && FindGcl(GuardAll(gcls), name) == Some(WithGuards(FindGcl(gcls, name).value))
  {
    hide Guardable;
    if gcls != [] {
      FindGuarded(gcls[1..], name);
      assert GuardAll(gcls)[1..] == GuardAll(gcls[1..]);
    }
  }

  /** After the guard-band rewrite of slices that are all wider than 0 no key is written twice. */
  lemma GuardedApart(gcl: GateControlList)
    requires Guardable(gcl) && gcl.guardBandWidth > 0 && forall s :: s in gcl.timeSlices ==> s.low < s.high
    ensures SlicesApart(WithGuards(gcl).timeSlices)
  {
    hide Guardable, Contiguous, SlicesApart;
    GuardBandRewrite(gcl);
    hide WithGuards;
    var slices := WithGuards(gcl).timeSlices;
    forall k | 0 <= k < |slices| ensures slices[k].low < slices[k].high {
      assert k == 2 * (k / 2) + k % 2 && PairAt(slices, k / 2, gcl.timeSlices[k / 2], gcl.guardBandWidth);
      assert gcl.timeSlices[k / 2] in gcl.timeSlices;
    }
    WideSlicesApart(slices, 0);
  }

  /** Completed with distinct ports, no two ports share a batch. */
  lemma DistinctBatches(tas: Tas, first: u8)
    requires PortsNumberable(tas, first) && tas.batchMappings == Some(BatchIds(tas, first)) && DistinctPorts(tas)
    ensures BatchesDiffer(tas)
  {
    hide First;
    var ms, bs := tas.gclToPortMapping, tas.batchMappings.value;
    forall i | 0 <= i < |ms| ensures FindBatch(bs, ms[i].port) == Some(bs[i]) {
      assert forall j :: 0 <= j < |ms| ==> bs[j].egressDevPort == ms[j].port && bs[j].batchId == j;
      FirstBatch(bs, i);
    }
  }

  /** A list as the configuration file gives it: slices that add up to the period (or,
      without a guard band, already tile it), all listing the queue. */
  ghost predicate WellFormed(gcl: GateControlList, queue: u8) {
    && gcl.timeSlices != []
    && (forall s :: s in gcl.timeSlices ==> queue in s.queueStates)
    && if gcl.guardBandWidth == 0 then Tiles(gcl) else TotalWidth(gcl.timeSlices) == gcl.period
  }

  /** The configuration after the three completion steps the controller runs at start. */
  ghost function Completed(tas: Tas, first: u8): Tas
    requires forall g :: g in tas.gcls ==> Guardable(g)
    requires PortsNumberable(tas.(gcls := GuardAll(tas.gcls)), first)
  {
    var guarded := tas.(gcls := GuardAll(tas.gcls));
    guarded.(batchMappings := Some(BatchIds(guarded, first)))
  }

  lemma CompletedTiles(gcl: GateControlList, queue: u8)
    requires Guardable(gcl) && WellFormed(gcl, queue)
    ensures Tiles(WithGuards(gcl))
    ensures forall s :: s in WithGuards(gcl).timeSlices ==> queue in s.queueStates
  {
    hide Guardable, Contiguous, PairAt;
    if gcl.guardBandWidth > 0 {
      GuardedTiles(gcl);
      GuardedStates(gcl);
      hide WithGuards;
      var slices := WithGuards(gcl).timeSlices;
      forall k | 0 <= k < |slices| ensures queue in slices[k].queueStates {
        assert gcl.timeSlices[k / 2] in gcl.timeSlices;
      }
    }
  }

  /** Content slices keep their states; guard bands close every listed queue. */
  lemma GuardedStates(gcl: GateControlList)
    requires Guardable(gcl) && gcl.guardBandWidth > 0
    ensures var slices := WithGuards(gcl).timeSlices;
      && |slices| == 2 * |gcl.timeSlices|
      && forall k :: 0 <= k < |slices| ==>
           slices[k].queueStates == if k % 2 == 0 then gcl.timeSlices[k / 2].queueStates
                                    else AllClosed(gcl.timeSlices[k / 2].queueStates)
  {
    hide Guardable, Contiguous, PairAt, AllClosed;
    GuardBandRewrite(gcl);
    hide WithGuards;
    var slices := WithGuards(gcl).timeSlices;
    forall k | 0 <= k < |slices|
      ensures slices[k].queueStates == if k % 2 == 0 then gcl.timeSlices[k / 2].queueStates
                                       else AllClosed(gcl.timeSlices[k / 2].queueStates)
    {
      PairStates(slices, k, gcl.timeSlices[k / 2], gcl.guardBandWidth);
    }
  }

  lemma PairStates(r: seq<TimeSlice>, k: nat, s: TimeSlice, guard: u32)
    requires 2 * (k / 2) + 1 < |r| && PairAt(r, k / 2, s, guard)
    ensures r[k].queueStates == if k % 2 == 0 then s.queueStates else AllClosed(s.queueStates)
  {
    assert k == 2 * (k / 2) + k % 2;
  }

  /** For every list in the configuration, every pair of ingress and period-start
      stamps, every pipe and every listed queue: the control packet hits the gate table
      iff it was generated on the pipe of its port, and the actions it can trigger there
      are exactly the states of the guarded slices that contain its position. */
  lemma ControlPacketActsOnSchedule(tas: Tas, first: u8, table: seq<Request<Gate>>,
                                    i: nat, pipe: nat, queue: u8, ingress: u48, start: u48)
    requires forall g :: g in tas.gcls ==> Guardable(g)
    requires PortsNumberable(tas.(gcls := GuardAll(tas.gcls)), first) && DistinctPorts(tas)
    requires Installed(table, Completed(tas, first))
    requires i < |tas.gclToPortMapping| && FindGcl(tas.gcls, tas.gclToPortMapping[i].gcl).Some?
    requires WellFormed(FindGcl(tas.gcls, tas.gclToPortMapping[i].gcl).value, queue)
    ensures var m := tas.gclToPortMapping[i];
      var gcl := FindGcl(tas.gcls, m.gcl).value;
      Guardable(gcl) &&
      var slices := WithGuards(gcl).timeSlices;
      var position := DeltaAdjustment.Position(WithGuards(gcl).period, DeltaAdjustment.Since(ingress, start));
      var hits := Lookup(table, position, pipe, queue, i);
      && (hits != [] <==> pipe == m.port / 0x80)
      && (forall a :: CanTrigger(hits, a) <==> pipe == m.port / 0x80 && Configured(slices, position, queue, m.port, a))
      && (forall open :: HitsState(hits, open) <==> pipe == m.port / 0x80 && InState(slices, position, queue, open))
      && FollowsFile(hits, gcl, position, queue)
  {
    hide Installed, Lookup, Guardable, Contiguous, AllClosed, WellFormed, First, FindGcl, FindBatch, Does, HitsState, InState,
      FollowsFile, DeltaAdjustment.Unwrapped, DeltaAdjustment.Since;
    var m := tas.gclToPortMapping[i];
    var gcl := FindGcl(tas.gcls, m.gcl).value;
    FindGuarded(tas.gcls, m.gcl);
    CompletedTiles(gcl, queue);
    var guarded := WithGuards(gcl);
    var position := DeltaAdjustment.Position(guarded.period, DeltaAdjustment.Since(ingress, start));
    assert position <= guarded.period;
    hide WithGuards, DeltaAdjustment.Position;
    var port := m.port;
    var hits := Lookup(table, position, pipe, queue, i);
    forall a: Action
      ensures CanTrigger(hits, a) <==> pipe == port / 0x80 && Configured(guarded.timeSlices, position, queue, port, a)
    {
      LookupFindsSlices(table, Completed(tas, first), first, i, pipe, queue, position, a);
    }
    HitsStates(hits, guarded.timeSlices, position, queue, port, pipe == port / 0x80);
    SomeState(guarded, position, queue);
    HitsFollowFile(hits, gcl, position, queue);
  }

  /** A hit opens the queue, or one closes it. */
  ghost predicate HitsState(hits: seq<Request<Gate>>, open: bool) {
    exists r :: r in hits && r.payload.action.OpenQueue? == open
  }

  /** Some slice that contains the position has the queue open (state 0), or closed. */
  ghost predicate InState(slices: seq<TimeSlice>, position: nat, queue: u8, open: bool) {
    exists s :: s in slices && Contains(s, position) && queue in s.queueStates && (s.queueStates[queue] == 0) == open
  }

  /** Strictly inside the j-th slice of the file, after the rewrite. */
  ghost predicate InsideContent(gcl: GateControlList, j: nat, position: nat)
    requires Guardable(gcl)
  {
    var slices := WithGuards(gcl).timeSlices;
    var k := if gcl.guardBandWidth == 0 then j else 2 * j;
    j < |gcl.timeSlices| && k < |slices| && slices[k].low < position < slices[k].high
  }

  /** Strictly inside the guard band after the j-th slice. */
  ghost predicate InsideGuard(gcl: GateControlList, j: nat, position: nat)
    requires Guardable(gcl)
  {
    var slices := WithGuards(gcl).timeSlices;
    gcl.guardBandWidth > 0 && j < |gcl.timeSlices| && 2 * j + 1 < |slices|
    && slices[2 * j + 1].low < position < slices[2 * j + 1].high
  }

  /** Strictly inside a slice of the file, every hit opens the queue if its state there is 0
      and closes it otherwise; strictly inside a guard band, every hit closes it. */
  ghost predicate FollowsFile(hits: seq<Request<Gate>>, gcl: GateControlList, position: nat, queue: u8)
    requires Guardable(gcl)
  {
    && (forall j: nat :: InsideContent(gcl, j, position) ==>
         queue in gcl.timeSlices[j].queueStates
         && forall r :: r in hits ==> (r.payload.action.OpenQueue? <==> gcl.timeSlices[j].queueStates[queue] == 0))
    && (forall j: nat :: InsideGuard(gcl, j, position) ==> forall r :: r in hits ==> r.payload.action.CloseQueue?)
  }

  lemma HitsStates(hits: seq<Request<Gate>>, slices: seq<TimeSlice>, position: nat, queue: u8, port: u8, onPipe: bool)
    requires forall a :: CanTrigger(hits, a) <==> onPipe && Configured(slices, position, queue, port, a)
    ensures forall open :: HitsState(hits, open) <==> onPipe && InState(slices, position, queue, open)
    ensures hits != [] <==> HitsState(hits, true) || HitsState(hits, false)
  {
    forall open: bool ensures HitsState(hits, open) <==> onPipe && InState(slices, position, queue, open) {
      if r :| r in hits && r.payload.action.OpenQueue? == open {
        assert CanTrigger(hits, r.payload.action);
        var s :| s in slices && Contains(s, position) && queue in s.queueStates
                 && Does(r.payload.action, queue, port, s.queueStates[queue]);
      }
      if onPipe {
        if s :| s in slices && Contains(s, position) && queue in s.queueStates && (s.queueStates[queue] == 0) == open {
          var afc := Afc(queue, port / 0x80, port, s.queueStates[queue]);
          var a := if open then OpenQueue(afc) else CloseQueue(afc);
          assert Does(a, queue, port, s.queueStates[queue]) && Configured(slices, position, queue, port, a);
          var r :| r in hits && r.payload.action == a;
        }
      }
    }
    if hits != [] { assert hits[0] in hits && HitsState(hits, hits[0].payload.action.OpenQueue?); }
  }

  lemma SomeState(gcl: GateControlList, position: nat, queue: u8)
    requires Tiles(gcl) && position <= gcl.period && forall s :: s in gcl.timeSlices ==> queue in s.queueStates
    ensures InState(gcl.timeSlices, position, queue, true) || InState(gcl.timeSlices, position, queue, false)
  {
    var k := TilesCover(gcl.timeSlices, 0, position);
    var s := gcl.timeSlices[k];
    assert InState(gcl.timeSlices, position, queue, s.queueStates[queue] == 0);
  }

  /** Inside a slice no other slice contains the position. */
  lemma OnlyState(slices: seq<TimeSlice>, k: nat, position: nat, queue: u8)
    requires Contiguous(slices, 0) && k < |slices| && slices[k].low < position < slices[k].high
    requires queue in slices[k].queueStates
    ensures forall open :: InState(slices, position, queue, open) ==> open == (slices[k].queueStates[queue] == 0)
  {
    forall open | InState(slices, position, queue, open) ensures open == (slices[k].queueStates[queue] == 0) {
      var s :| s in slices && Contains(s, position) && queue in s.queueStates && (s.queueStates[queue] == 0) == open;
      var j :| 0 <= j < |slices| && slices[j] == s;
      OnlySliceAround(slices, position, k, j);
    }
  }

  /** Inside a slice all hits have its state. */
  lemma HitsInside(hits: seq<Request<Gate>>, slices: seq<TimeSlice>, k: nat, position: nat, queue: u8)
    requires Contiguous(slices, 0) && k < |slices| && slices[k].low < position < slices[k].high
    requires queue in slices[k].queueStates
    requires forall open :: HitsState(hits, open) ==> InState(slices, position, queue, open)
    ensures forall r :: r in hits ==> (r.payload.action.OpenQueue? <==> slices[k].queueStates[queue] == 0)
  {
    OnlyState(slices, k, position, queue);
    hide InState, HitsState, Contiguous;
    forall r | r in hits ensures r.payload.action.OpenQueue? <==> slices[k].queueStates[queue] == 0 {
      HitHasState(hits, r);
    }
  }

  lemma HitsFollowFile(hits: seq<Request<Gate>>, gcl: GateControlList, position: nat, queue: u8)
    requires Guardable(gcl) && WellFormed(gcl, queue)
    requires forall open :: HitsState(hits, open) ==> InState(WithGuards(gcl).timeSlices, position, queue, open)
    ensures FollowsFile(hits, gcl, position, queue)
  {
    hide Guardable, Contiguous, AllClosed, InState, HitsState;
    forall j: nat | InsideContent(gcl, j, position)
      ensures queue in gcl.timeSlices[j].queueStates
      ensures forall r :: r in hits ==> (r.payload.action.OpenQueue? <==> gcl.timeSlices[j].queueStates[queue] == 0)
    {
      HitsContent(hits, gcl, position, queue, j);
    }
    forall j: nat | InsideGuard(gcl, j, position) ensures forall r :: r in hits ==> r.payload.action.CloseQueue? {
      HitsGuard(hits, gcl, position, queue, j);
    }
    hide InsideContent, InsideGuard, WithGuards, WellFormed;
  }

  lemma HitsContent(hits: seq<Request<Gate>>, gcl: GateControlList, position: nat, queue: u8, j: nat)
    requires Guardable(gcl) && WellFormed(gcl, queue) && InsideContent(gcl, j, position)
    requires forall open :: HitsState(hits, open) ==> InState(WithGuards(gcl).timeSlices, position, queue, open)
    ensures queue in gcl.timeSlices[j].queueStates
    ensures forall r :: r in hits ==> (r.payload.action.OpenQueue? <==> gcl.timeSlices[j].queueStates[queue] == 0)
  {
    hide Guardable, Contiguous, AllClosed, InState, HitsState;
    CompletedTiles(gcl, queue);
    ContentState(gcl, j, position);
    hide WithGuards;
    HitsInside(hits, WithGuards(gcl).timeSlices, if gcl.guardBandWidth == 0 then j else 2 * j, position, queue);
  }

  lemma HitsGuard(hits: seq<Request<Gate>>, gcl: GateControlList, position: nat, queue: u8, j: nat)
    requires Guardable(gcl) && WellFormed(gcl, queue) && InsideGuard(gcl, j, position)
    requires forall open :: HitsState(hits, open) ==> InState(WithGuards(gcl).timeSlices, position, queue, open)
    ensures forall r :: r in hits ==> r.payload.action.CloseQueue?
  {
    hide Guardable, Contiguous, AllClosed, InState, HitsState;
    CompletedTiles(gcl, queue);
    GuardBandState(gcl, j);
    ClosedState(gcl.timeSlices[j].queueStates, queue);
    hide WithGuards;
    HitsInside(hits, WithGuards(gcl).timeSlices, 2 * j + 1, position, queue);
  }

  lemma HitHasState(hits: seq<Request<Gate>>, r: Request<Gate>)
    requires r in hits
    ensures HitsState(hits, r.payload.action.OpenQueue?)
  {
  }

  lemma ContentState(gcl: GateControlList, j: nat, position: nat)
    requires Guardable(gcl) && InsideContent(gcl, j, position)
    ensures var k := if gcl.guardBandWidth == 0 then j else 2 * j;
      WithGuards(gcl).timeSlices[k].queueStates == gcl.timeSlices[j].queueStates
  {
    if gcl.guardBandWidth > 0 {
      hide Guardable, AllClosed;
      GuardedStates(gcl);
      assert (2 * j) / 2 == j && (2 * j) % 2 == 0;
    }
  }

  /** Strictly inside a guard band only close actions match, on every pipe. */
  lemma GuardBandCloses(tas: Tas, first: u8, table: seq<Request<Gate>>, i: nat, pipe: nat, queue: u8, position: nat, j: nat)
    requires forall g :: g in tas.gcls ==> Guardable(g)
    requires PortsNumberable(tas.(gcls := GuardAll(tas.gcls)), first) && DistinctPorts(tas)
    requires Installed(table, Completed(tas, first))
    requires i < |tas.gclToPortMapping| && FindGcl(tas.gcls, tas.gclToPortMapping[i].gcl).Some?
    requires var gcl := FindGcl(tas.gcls, tas.gclToPortMapping[i].gcl).value;
      && gcl.guardBandWidth > 0 && Guardable(gcl) && WellFormed(gcl, queue) && j < |gcl.timeSlices|
      && |WithGuards(gcl).timeSlices| == 2 * |gcl.timeSlices|
      && WithGuards(gcl).timeSlices[2 * j + 1].low < position < WithGuards(gcl).timeSlices[2 * j + 1].high
    ensures forall r :: r in Lookup(table, position, pipe, queue, i) ==> r.payload.action.CloseQueue?
  {
    hide Installed, Lookup, Guardable, WellFormed, Tiles, WithGuards, PipeOf;
    var m := tas.gclToPortMapping[i];
    var gcl := FindGcl(tas.gcls, m.gcl).value;
    FindGuarded(tas.gcls, m.gcl);
    var slices := WithGuards(gcl).timeSlices;
    forall r | r in Lookup(table, position, pipe, queue, i) ensures r.payload.action.CloseQueue? {
      var a := r.payload.action;
      LookupFindsSlices(table, Completed(tas, first), first, i, pipe, queue, position, a);
      assert CanTrigger(Lookup(table, position, pipe, queue, i), a);
      var s :| s in slices && Contains(s, position) && queue in s.queueStates
               && Does(a, queue, m.port, s.queueStates[queue]);
      OnlyGuardBand(gcl, queue, position, j, s);
    }
  }

  /** A position strictly inside a guard band lies in no other slice. */
  lemma OnlyGuardBand(gcl: GateControlList, queue: u8, position: nat, j: nat, s: TimeSlice)
    requires gcl.guardBandWidth > 0 && Guardable(gcl) && WellFormed(gcl, queue) && j < |gcl.timeSlices|
    requires |WithGuards(gcl).timeSlices| == 2 * |gcl.timeSlices|
    requires WithGuards(gcl).timeSlices[2 * j + 1].low < position < WithGuards(gcl).timeSlices[2 * j + 1].high
    requires s in WithGuards(gcl).timeSlices && Contains(s, position) && queue in s.queueStates
    ensures s.queueStates[queue] == 1
  {
    hide Guardable, Contiguous, WellFormed, AllClosed;
    CompletedTiles(gcl, queue);
    GuardBandState(gcl, j);
    hide WithGuards;
    var slices := WithGuards(gcl).timeSlices;
    var k :| 0 <= k < |slices| && slices[k] == s;
    OnlySliceAround(slices, position, 2 * j + 1, k);
    ClosedState(gcl.timeSlices[j].queueStates, queue);
  }

  lemma GuardBandState(gcl: GateControlList, j: nat)
    requires gcl.guardBandWidth > 0 && Guardable(gcl) && j < |gcl.timeSlices|
    ensures var slices := WithGuards(gcl).timeSlices;
      2 * j + 1 < |slices| && slices[2 * j + 1].queueStates == AllClosed(gcl.timeSlices[j].queueStates)
  {
    hide Guardable, AllClosed;
    GuardedStates(gcl);
    hide WithGuards;
    assert (2 * j + 1) / 2 == j && (2 * j + 1) % 2 == 1;
  }

  lemma OnlySliceAround(slices: seq<TimeSlice>, position: nat, j: nat, k: nat)
    requires Contiguous(slices, 0) && j < |slices| && k < |slices|
    requires slices[j].low < position < slices[j].high && Contains(slices[k], position)
    ensures k == j
  {
    if k < j { SlicesOrdered(slices, 0, k, j); }
    if k > j { SlicesOrdered(slices, 0, j, k); }
  }

  lemma ClosedState(qs: map<u8, u8>, queue: u8)
    ensures queue in AllClosed(qs) ==> AllClosed(qs)[queue] == 1
  {
  }
}
