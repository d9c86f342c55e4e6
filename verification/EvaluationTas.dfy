/** The evaluation program predicts how many gate-table rows an equal-width list
    needs; this relates the prediction to the rows the controller installs. */
module EvaluationTas {
  import opened Bits
  import opened TernaryCover
  import opened Config
  import TimeAwareShaper

  datatype EvalSlice = EvalSlice(low: u32, high: u32, numQueueStates: nat)

  function CountTasEntriesOptimized(slices: seq<EvalSlice>): nat {
    if slices == [] then 0
    else slices[0].numQueueStates * |Entries(slices[0].low, slices[0].high)| + CountTasEntriesOptimized(slices[1..])
  }

  ghost predicate EqualFits(width: u32, n: nat, guard: u32, low: nat) {
    low + n * (width + guard) <= U32_MAX
  }

  lemma EqualFitsNext(width: u32, n: nat, guard: u32, low: nat)
    requires n > 0
    ensures EqualFits(width, n, guard, low) <==> EqualFits(width, n - 1, guard, low + width + guard)
    ensures EqualFits(width, n, guard, low) ==> low + width + guard <= U32_MAX
  {
    OneMore(n - 1, width + guard);
    NonNegativeProduct(n - 1, width + guard);
  }

  /** n slices of one width, each followed by a guard band unless its width is 0. */
  ghost function EqualSlices(width: u32, n: nat, guard: u32, low: nat, queues: nat): seq<EvalSlice>
    requires EqualFits(width, n, guard, low)
  {
    if n == 0 then []
    else
      EqualFitsNext(width, n, guard, low);
      var mid := low + width;
      [EvalSlice(low, mid, queues)]
      + (if guard > 0 then [EvalSlice(mid, mid + guard, queues)] else [])
      + EqualSlices(width, n - 1, guard, mid + guard, queues)
  }

  method MakeEqualTasSlices(period: u32, numSlices: u32, guardBand: u32, queues: nat) returns (r: Result<seq<EvalSlice>>)
    ensures r.Ok? <==> numSlices > 0 && EqualFits(period / numSlices, numSlices, guardBand, 0)
    ensures r.Ok? ==> r.value == EqualSlices(period / numSlices, numSlices, guardBand, 0, queues)
  {
    hide EqualFits;
    if numSlices == 0 {
      return Panic;
    }
    DivAtMost(period, numSlices);
    var sliceWidth: u32 := period / numSlices;
    var slices: seq<EvalSlice> := [];
    var cursor: u32 := 0;
    for i := 0 to numSlices
      invariant EqualFits(sliceWidth, numSlices - i, guardBand, cursor)
           <==> EqualFits(sliceWidth, numSlices, guardBand, 0)
      invariant EqualFits(sliceWidth, numSlices, guardBand, 0) ==>
        slices + EqualSlices(sliceWidth, numSlices - i, guardBand, cursor, queues)
        == EqualSlices(sliceWidth, numSlices, guardBand, 0, queues)
    {
      EqualFitsNext(sliceWidth, numSlices - i, guardBand, cursor);
      if cursor + sliceWidth > U32_MAX {
        return Panic;
      }
      var contentLow: u32, contentHigh: u32 := cursor, cursor + sliceWidth;
      slices := slices + [EvalSlice(contentLow, contentHigh, queues)];
      cursor := contentHigh;
      if guardBand > 0 {
        if cursor + guardBand > U32_MAX {
          return Panic;
        }
        var gbLow: u32, gbHigh: u32 := cursor, cursor + guardBand;
        slices := slices + [EvalSlice(gbLow, gbHigh, queues)];
        cursor := gbHigh;
      }
    }
    NothingLeft(sliceWidth, guardBand, cursor);
    return Ok(slices);
  }

  lemma DivAtMost(a: nat, b: nat)
    requires b > 0
    ensures a / b <= a
  {
    var q := a / b;
    assert a == b * q + a % b;
    OneMore(b - 1, q);
    NonNegativeProduct(b - 1, q);
  }

  lemma NothingLeft(width: u32, guard: u32, low: u32)
    ensures EqualFits(width, 0, guard, low)
  {
  }

  /** Slices of one width that list the same number of queues. */
  ghost predicate EqualWidth(slices: seq<TimeSlice>, width: u32, queues: nat) {
    forall s :: s in slices ==> s.high - s.low == width && |s.queueStates.Keys| == queues
  }

  lemma {:induction false} GuardedCount(slices: seq<TimeSlice>, width: u32, guard: u32, low: nat, queues: nat)
    requires guard > 0 && EqualWidth(slices, width, queues) && GuardFits(slices, guard, low)
    ensures EqualFits(width, |slices|, guard, low)
    ensures TimeAwareShaper.RowCount(Guarded(slices, guard, low))
         == CountTasEntriesOptimized(EqualSlices(width, |slices|, guard, low, queues))
  {
    hide Entries, GuardFits, EqualFits;
    if slices != [] {
      GuardFitsNext(slices, guard, low);
      var s := slices[0];
      var mid := low + width;
      GuardedCount(slices[1..], width, guard, mid + guard, queues);
      EqualFitsNext(width, |slices|, guard, low);
      var rest := Guarded(slices[1..], guard, mid + guard);
      var rest' := EqualSlices(width, |slices| - 1, guard, mid + guard, queues);
      assert AllClosed(s.queueStates).Keys == s.queueStates.Keys;
      RowCountTwo(TimeSlice(low, mid, s.queueStates), TimeSlice(mid, mid + guard, AllClosed(s.queueStates)), rest);
      CountTwo(EvalSlice(low, mid, queues), EvalSlice(mid, mid + guard, queues), rest');
    } else {
      GuardFitsLow(slices, guard, low);
      NothingLeft(width, guard, low);
    }
  }

  lemma GuardFitsLow(slices: seq<TimeSlice>, guard: u32, low: nat)
    requires slices == [] && GuardFits(slices, guard, low)
    ensures low <= U32_MAX
  {
  }

  lemma RowCountTwo(a: TimeSlice, b: TimeSlice, rest: seq<TimeSlice>)
    ensures TimeAwareShaper.RowCount([a, b] + rest)
         == |a.queueStates.Keys| * |Entries(a.low, a.high)| + |b.queueStates.Keys| * |Entries(b.low, b.high)|
            + TimeAwareShaper.RowCount(rest)
  {
    hide Entries;
    assert ([a, b] + rest)[1..] == [b] + rest;
    assert ([b] + rest)[1..] == rest;
  }

  lemma CountTwo(a: EvalSlice, b: EvalSlice, rest: seq<EvalSlice>)
    ensures CountTasEntriesOptimized([a] + [b] + rest)
         == a.numQueueStates * |Entries(a.low, a.high)| + b.numQueueStates * |Entries(b.low, b.high)|
            + CountTasEntriesOptimized(rest)
  {
    hide Entries;
    assert ([a] + [b] + rest)[1..] == [b] + rest;
    assert ([b] + rest)[1..] == rest;
  }

  lemma {:induction false} PlainCount(slices: seq<TimeSlice>, width: u32, low: nat, queues: nat)
    requires EqualWidth(slices, width, queues) && Contiguous(slices, low) && EqualFits(width, |slices|, 0, low)
    ensures TimeAwareShaper.RowCount(slices) == CountTasEntriesOptimized(EqualSlices(width, |slices|, 0, low, queues))
  {
    hide Entries, EqualFits;
    if slices != [] {
      var s := slices[0];
      EqualFitsNext(width, |slices|, 0, low);
      assert forall j :: 0 <= j < |slices[1..]| ==> slices[1..][j] == slices[j + 1];
      PlainCount(slices[1..], width, low + width, queues);
      var rest := EqualSlices(width, |slices| - 1, 0, low + width, queues);
      var head := EvalSlice(low, low + width, queues);
      assert EqualSlices(width, |slices|, 0, low, queues) == [head] + rest;
      assert ([head] + rest)[1..] == rest;
    }
  }

  /** For every list of equal-width slices and every guard width, the evaluation
      program counts exactly the rows the controller installs for it. */
  lemma EvaluationCountsInstalledRows(gcl: GateControlList, width: u32, queues: nat)
    requires Guardable(gcl) && EqualWidth(gcl.timeSlices, width, queues)
    requires gcl.guardBandWidth == 0 ==>
      Contiguous(gcl.timeSlices, 0) && EqualFits(width, |gcl.timeSlices|, 0, 0)
    ensures EqualFits(width, |gcl.timeSlices|, gcl.guardBandWidth, 0)
    ensures TimeAwareShaper.RowCount(WithGuards(gcl).timeSlices)
         == CountTasEntriesOptimized(EqualSlices(width, |gcl.timeSlices|, gcl.guardBandWidth, 0, queues))
  {
    hide EqualFits, GuardFits;
    if gcl.guardBandWidth > 0 {
      GuardedCount(gcl.timeSlices, width, gcl.guardBandWidth, 0, queues);
    } else {
      PlainCount(gcl.timeSlices, width, 0, queues);
    }
  }
}
