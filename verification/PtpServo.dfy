/** The clock servo: offset and path delay of a sample, the correction applied to the
    hardware clock, and the adjustment of its increment. */
module PtpServo {
  import opened Bits
  import opened PtpClock
  import opened PtpExchange

  const I64_MAX: int := 0x7FFF_FFFF_FFFF_FFFF
  const I64_MIN: int := -0x8000_0000_0000_0000
  const I32_MAX: int := 0x7FFF_FFFF
  const I32_MIN: int := -0x8000_0000

  /** Truncating casts. */
  function AsI64(x: int): int {
    (x + 0x8000_0000_0000_0000) % TWO_64 - 0x8000_0000_0000_0000
  }

  function AsI32(x: int): int {
    (x + 0x8000_0000) % TWO_32 - 0x8000_0000
  }

  function Abs(x: int): int {
    if x < 0 then -x else x
  }

  /** Division that truncates toward zero. */
  function TruncDiv(a: int, b: int): int
    requires b > 0
  {
    if a >= 0 then a / b else -((-a) / b)
  }

  // ----- Moving average -----

  function Sum(xs: seq<int>): int {
    if xs == [] then 0 else xs[0] + Sum(xs[1..])
  }

  predicate InI64(x: int) {
    I64_MIN <= x <= I64_MAX
  }

  predicate InI32(x: int) {
    I32_MIN <= x <= I32_MAX
  }

  /** Summing from the left stays within 64 bits. */
  predicate SumFits(xs: seq<int>, from: int) {
    InI64(from) && (xs == [] || SumFits(xs[1..], from + xs[0]))
  }

  function Average(xs: seq<int>): int
    requires xs != []
  {
    TruncDiv(Sum(xs), |xs|)
  }

  function Pushed(xs: seq<int>, x: int): seq<int> {
    (if |xs| >= HISTORY then xs[1..] else xs) + [x]
  }

  const HISTORY := 3

  class OffsetHistory {
    var values: seq<int>

    constructor ()
      ensures values == []
    {
      values := [];
    }

    method Push(offset: int)
      modifies this
      ensures values == Pushed(old(values), offset)
    {
      if |values| >= HISTORY {
        values := values[1..];
      }
      values := values + [offset];
    }

    /** The checked sum of the stored offsets, divided by their number. */
    method GetAverage() returns (r: Result<Option<int>>)
      ensures r.Panic? <==> !SumFits(values, 0)
      ensures r.Ok? ==> r.value == if values == [] then None else Some(Average(values))
    {
      if values == [] {
        return Ok(None);
      }
      var sum := 0;
      assert values[0..] == values;
      for i := 0 to |values|
        invariant InI64(sum) && sum + Sum(values[i..]) == Sum(values)
        invariant SumFits(values[i..], sum) <==> SumFits(values, 0)
      {
        assert values[i..][1..] == values[i + 1..];
        sum := sum + values[i];
        if !InI64(sum) {
          return Panic;
        }
      }
      assert values[|values|..] == [];
      return Ok(Some(TruncDiv(sum, |values|)));
    }
  }

  // ----- One sample -----

  datatype Status = Synchronized(offsetNs: int, ptpTimeNs: u64) | Syncing(offsetNs: int, ptpTimeNs: u64)

  datatype Servo = Servo(syncCounter: u32, appliedCorrection: int, baseEpochOffset: Option<int>,
                         currentIncrement: int, history: seq<int>)

  function PathDelay(s: Sample): int {
    TruncDiv((s.t2.rawNs - s.t1.rawNs - s.cfFollowupNs) + (s.t4.rawNs - s.t3.rawNs - s.cfDelayrespNs), 2)
  }

  function RawOffset(s: Sample): int {
    (s.t2.rawNs - s.t1.rawNs - s.cfFollowupNs) - PathDelay(s)
  }

  function MasterTime(s: Sample): u64 {
    var estimate := s.t2.rawNs - RawOffset(s);
    if estimate <= 0 then 0 else if estimate >= TWO_64 - 1 then TWO_64 - 1 else estimate
  }

  const EPOCH_THRESHOLD := 1_000_000_000
  const OUTLIER_THRESHOLD_NS := 150
  const WARMUP_SAMPLES := 100

  /** The first sample of a foreign time domain becomes the base and nothing else. */
  predicate SetsBase(v: Servo, s: Sample) {
    v.baseEpochOffset.None? && Abs(RawOffset(s)) > EPOCH_THRESHOLD
  }

  function Offset(v: Servo, s: Sample): int {
    if v.baseEpochOffset.Some? then RawOffset(s) - v.baseEpochOffset.value else RawOffset(s)
  }

  predicate IsOutlier(v: Servo, s: Sample) {
    v.syncCounter >= WARMUP_SAMPLES && Abs(Offset(v, s)) > OUTLIER_THRESHOLD_NS
  }

  function Adjustment(average: int): int {
    var a := AsI32(Abs(average));
    if a > 1000 then 50 else if a > 500 then 20 else if a > 100 then 10 else if a > 50 then 5 else 1
  }

  function Steered(increment: int, average: int): int {
    if average < 0 then increment + Adjustment(average)
    else if average > 0 then increment - Adjustment(average)
    else increment
  }

  function StatusOf(offset: int, ptpTime: u64): Status {
    if Abs(offset) < 100 then Synchronized(AsI64(offset), ptpTime) else Syncing(AsI64(offset), ptpTime)
  }

  /** Whether the checked arithmetic of an adjustment goes through. */
  predicate AdjustFits(v: Servo, offset: int, writeOk: bool) {
    && InI64(v.appliedCorrection - AsI64(offset))
    && v.syncCounter < U32_MAX
    && (writeOk ==>
         var h := Pushed(v.history, AsI64(offset));
         SumFits(h, 0) && Average(h) != I64_MIN && InI32(Steered(v.currentIncrement, Average(h))))
  }

  function Adjusted(v: Servo, offset: int, writeOk: bool): Servo
    requires AdjustFits(v, offset, writeOk)
  {
    var counted := v.(syncCounter := v.syncCounter + 1);
    if !writeOk then counted
    else
      var h := Pushed(v.history, AsI64(offset));
      counted.(appliedCorrection := v.appliedCorrection - AsI64(offset), history := h,
               currentIncrement := Steered(v.currentIncrement, Average(h)))
  }

  function Process(v: Servo, s: Sample, writeOk: bool): Result<(Servo, Option<Status>)> {
    if SetsBase(v, s) then Ok((v.(baseEpochOffset := Some(RawOffset(s))), None))
    else if IsOutlier(v, s) then
      if v.syncCounter == U32_MAX then Panic else Ok((v.(syncCounter := v.syncCounter + 1), None))
    else
      var offset := Offset(v, s);
      if !AdjustFits(v, offset, writeOk) then Panic
      else Ok((Adjusted(v, offset, writeOk), if writeOk then Some(StatusOf(offset, MasterTime(s))) else None))
  }

  class ClockServo {
    var syncCounter: u32
    var appliedCorrection: int
    var baseEpochOffset: Option<int>
    var currentIncrement: int
    const offsetHistory: OffsetHistory

    ghost function Contents(): Servo
      reads this, offsetHistory
    {
      Servo(syncCounter, appliedCorrection, baseEpochOffset, currentIncrement, offsetHistory.values)
    }

    constructor ()
      ensures fresh(offsetHistory) && Contents() == INITIAL
    {
      syncCounter, appliedCorrection, baseEpochOffset, currentIncrement := 0, 0, None, DEFAULT_INCREMENT;
      offsetHistory := new OffsetHistory();
    }

    /** `writeOk` is the outcome of writing the correction to the switch. */
    method ProcessServoSample(s: Sample, writeOk: bool) returns (r: Result<Option<Status>>)
      modifies this, offsetHistory
      ensures r.Ok? <==> Process(old(Contents()), s, writeOk).Ok?
      ensures r.Ok? ==> Ok((Contents(), r.value)) == Process(old(Contents()), s, writeOk)
    {
      hide SumFits, AsI64, AsI32, TruncDiv;
      var t1: int, t2: int, t3: int, t4: int := s.t1.rawNs, s.t2.rawNs, s.t3.rawNs, s.t4.rawNs;
      var cfFwd, cfRev := s.cfFollowupNs, s.cfDelayrespNs;
      var pathDelay := TruncDiv((t2 - t1 - cfFwd) + (t4 - t3 - cfRev), 2);
      var rawOffset := (t2 - t1 - cfFwd) - pathDelay;
      var ptpTimeNs := MasterTime(s);
      if baseEpochOffset.None? && Abs(rawOffset) > EPOCH_THRESHOLD {
        baseEpochOffset := Some(rawOffset);
        return Ok(None);
      }
      var offset := if baseEpochOffset.Some? then rawOffset - baseEpochOffset.value else rawOffset;
      if syncCounter >= WARMUP_SAMPLES && Abs(offset) > OUTLIER_THRESHOLD_NS {
        if syncCounter == U32_MAX {
          return Panic;
        }
        syncCounter := syncCounter + 1;
        return Ok(None);
      }
      r := AdjustSlaveClock(offset, ptpTimeNs, writeOk);
    }

    method AdjustSlaveClock(offsetNs: int, ptpTimeNs: u64, writeOk: bool) returns (r: Result<Option<Status>>)
      modifies this, offsetHistory
      ensures r.Ok? <==> AdjustFits(old(Contents()), offsetNs, writeOk)
      ensures r.Ok? ==> Contents() == Adjusted(old(Contents()), offsetNs, writeOk)
      ensures r.Ok? ==> r.value == if writeOk then Some(StatusOf(offsetNs, ptpTimeNs)) else None
    {
      hide SumFits, AsI64, AsI32, TruncDiv;
      var newCorrection := appliedCorrection - AsI64(offsetNs);
      if !InI64(newCorrection) {
        return Panic;
      }
      var status := None;
      if writeOk {
        appliedCorrection := newCorrection;
        offsetHistory.Push(AsI64(offsetNs));
        var average :- offsetHistory.GetAverage();
        var avgOffset := if average.Some? then average.value else AsI64(offsetNs);
        if avgOffset == I64_MIN {
          return Panic;
        }
        var adjustment := Adjustment(avgOffset);
        var increment := currentIncrement;
        if avgOffset < 0 {
          increment := increment + adjustment;
        } else if avgOffset > 0 {
          increment := increment - adjustment;
        }
        if !InI32(increment) {
          return Panic;
        }
        currentIncrement := increment;
        status := Some(StatusOf(offsetNs, ptpTimeNs));
      }
      if syncCounter == U32_MAX {
        return Panic;
      }
      syncCounter := syncCounter + 1;
      return Ok(status);
    }
  }

  const DEFAULT_INCREMENT: int := 0x0C30_BB0F
  const INITIAL: Servo := Servo(0, 0, None, DEFAULT_INCREMENT, [])

  // ----- What the offset measures -----

  /** With a forward delay, a reverse delay and a clock offset, the computed offset is
      off by half the asymmetry, rounded; on a symmetric path it is exact, and so is the
      estimate of the master's time. */
  lemma OffsetMeasures(s: Sample, offset: int, forward: int, reverse: int)
    requires s.t2.rawNs == s.t1.rawNs + s.cfFollowupNs + forward + offset
    requires s.t4.rawNs == s.t3.rawNs + s.cfDelayrespNs + reverse - offset
    ensures -1 <= 2 * (RawOffset(s) - offset) - (forward - reverse) <= 1
    ensures forward == reverse ==> RawOffset(s) == offset && PathDelay(s) == forward
    ensures forward == reverse && 0 <= s.t2.rawNs - offset < TWO_64 ==> MasterTime(s) == s.t2.rawNs - offset
  {
    HalfTruncated(forward + reverse);
  }

  lemma HalfTruncated(a: int)
    ensures -1 <= 2 * TruncDiv(a, 2) - a <= 1
    ensures a % 2 == 0 ==> 2 * TruncDiv(a, 2) == a
  {
  }

  // ----- Over every sample sequence -----

  datatype Input = Input(sample: Sample, writeOk: bool)

  /** The servo after all inputs, unless an overflow stopped it. */
  function Run(inputs: seq<Input>): Result<Servo> {
    if inputs == [] then Ok(INITIAL)
    else
      var n := |inputs| - 1;
      var v := Run(inputs[..n]);
      if v.Panic? then Panic
      else
        var r := Process(v.value, inputs[n].sample, inputs[n].writeOk);
        if r.Panic? then Panic else Ok(r.value.0)
  }

  /** A sample whose correction reached the hardware. */
  predicate Applied(v: Servo, i: Input) {
    !SetsBase(v, i.sample) && !IsOutlier(v, i.sample) && i.writeOk
  }

  /** The offsets written so far, oldest first. */
  function WrittenOffsets(inputs: seq<Input>): seq<int>
    requires Run(inputs).Ok?
  {
    if inputs == [] then []
    else
      var n := |inputs| - 1;
      var v := Run(inputs[..n]).value;
      WrittenOffsets(inputs[..n]) + (if Applied(v, inputs[n]) then [AsI64(Offset(v, inputs[n].sample))] else [])
  }

  lemma {:induction false} SumConcat(xs: seq<int>, x: int)
    ensures Sum(xs + [x]) == Sum(xs) + x
  {
    if xs != [] {
      SumConcat(xs[1..], x);
      assert (xs + [x])[1..] == xs[1..] + [x];
    }
  }

  function LastOf(xs: seq<int>, n: nat): seq<int> {
    if |xs| <= n then xs else xs[|xs| - n..]
  }

  /** The correction in the hardware is minus the sum of all offsets written; the history
      holds the last three of them; the increment drifted at most 50 per written offset. */
  lemma {:induction false} ServoInvariant(inputs: seq<Input>)
    requires Run(inputs).Ok?
    ensures var v, w := Run(inputs).value, WrittenOffsets(inputs);
      && v.appliedCorrection == -Sum(w)
      && v.history == LastOf(w, HISTORY)
      && Abs(v.currentIncrement - DEFAULT_INCREMENT) <= 50 * |w|
  {
    hide SetsBase, IsOutlier, Offset, AdjustFits, AsI64, Steered, Average;
    if inputs != [] {
      var n := |inputs| - 1;
      ServoInvariant(inputs[..n]);
      var v, v' := Run(inputs[..n]).value, Run(inputs).value;
      if Applied(v, inputs[n]) {
        var w, x := WrittenOffsets(inputs[..n]), AsI64(Offset(v, inputs[n].sample));
        SumConcat(w, x);
        PushedLast(w, x);
        SteeredStep(v.currentIncrement, Average(v'.history));
      } else {
        assert WrittenOffsets(inputs[..n]) + [] == WrittenOffsets(inputs[..n]);
      }
    }
  }

  lemma PushedLast(xs: seq<int>, x: int)
    ensures Pushed(LastOf(xs, HISTORY), x) == LastOf(xs + [x], HISTORY)
  {
  }

  lemma SteeredStep(increment: int, average: int)
    ensures average < 0 ==> 1 <= Steered(increment, average) - increment <= 50
    ensures average > 0 ==> 1 <= increment - Steered(increment, average) <= 50
    ensures average == 0 ==> Steered(increment, average) == increment
  {
  }

  /** Each written sample steers the increment by 1 to 50 against the sign of the mean of
      the last offsets, by 0 when that mean is 0; every other sample leaves correction,
      history and increment alone. */
  lemma StepSteersAgainstMean(v: Servo, i: Input)
    requires Process(v, i.sample, i.writeOk).Ok?
    ensures var v' := Process(v, i.sample, i.writeOk).value.0;
      if Applied(v, i) then
        var mean := Average(v'.history);
        && v'.history == Pushed(v.history, AsI64(Offset(v, i.sample)))
        && (mean < 0 ==> 1 <= v'.currentIncrement - v.currentIncrement <= 50)
        && (mean > 0 ==> 1 <= v.currentIncrement - v'.currentIncrement <= 50)
        && (mean == 0 ==> v'.currentIncrement == v.currentIncrement)
      else
        v'.appliedCorrection == v.appliedCorrection && v'.history == v.history && v'.currentIncrement == v.currentIncrement
  {
    hide AsI64, AsI32, TruncDiv, SumFits, RawOffset;
  }

  // ----- The mean and the step, without their definitions -----

  /** The mean a of n values lies between the mean proper and 0, less than 1 from it. */
  predicate IsMean(a: int, sum: int, n: nat) {
    n * Abs(a) <= Abs(sum) < n * (Abs(a) + 1) && (a == 0 || (a > 0 <==> sum > 0))
  }

  lemma MeanExact(xs: seq<int>)
    requires xs != []
    ensures IsMean(Average(xs), Sum(xs), |xs|)
  {
    hide Sum;
    var sum, n := Sum(xs), |xs|;
    var q := Abs(sum) / n;
    assert Abs(sum) == n * q + Abs(sum) % n;
    assert n * (q + 1) == n * q + n;
  }

  /** Over every run: a written sample whose last three offsets (or fewer, at the start) add
      up to less than their number, in size, leaves the increment alone; any other steers
      it by 1 to 50 against the sign of that sum, by as much as the size of the mean asks. */
  lemma RunSteersAgainstSum(inputs: seq<Input>, i: Input)
    requires Run(inputs + [i]).Ok?
    ensures Run(inputs).Ok?
    ensures Applied(Run(inputs).value, i) ==>
      var last := LastOf(WrittenOffsets(inputs + [i]), 3);
      var step := Run(inputs + [i]).value.currentIncrement - Run(inputs).value.currentIncrement;
      && last != []
      && (Abs(Sum(last)) < |last| ==> step == 0)
      && (Sum(last) >= |last| ==> -50 <= step <= -1)
      && (-Sum(last) >= |last| ==> 1 <= step <= 50)
      && exists a :: IsMean(a, Sum(last), |last|)
                     && (0 < Abs(a) <= I32_MAX ==> Abs(step) == Bracket(Abs(a)))
  {
    hide SetsBase, IsOutlier, Offset, AsI64, AsI32, Steered, Average, WrittenOffsets, Adjustment, Bracket, IsMean;
    assert (inputs + [i])[..|inputs|] == inputs;
    var v := Run(inputs).value;
    if Applied(v, i) {
      ServoInvariant(inputs + [i]);
      var last := LastOf(WrittenOffsets(inputs + [i]), 3);
      var v' := Run(inputs + [i]).value;
      assert v'.history == last == Pushed(v.history, AsI64(Offset(v, i.sample)));
      MeanExact(last);
      StepOfMean(v.currentIncrement, Average(last), Sum(last), |last|);
    }
  }

  lemma StepOfMean(increment: int, a: int, sum: int, n: nat)
    requires IsMean(a, sum, n) && n > 0
    ensures var step := Steered(increment, a) - increment;
      && (Abs(sum) < n ==> step == 0)
      && (sum >= n ==> -50 <= step <= -1)
      && (-sum >= n ==> 1 <= step <= 50)
      && (0 < Abs(a) <= I32_MAX ==> Abs(step) == Bracket(Abs(a)))
  {
    hide Adjustment, Bracket, AsI32;
    SteeredStep(increment, a);
    AdjustmentExact(a);
    if a != 0 { assert n * Abs(a) >= n; }
    AdjustmentSize(a);
  }

  lemma AdjustmentSize(a: int)
    ensures 1 <= Adjustment(a) <= 50
  {
  }

  // ----- Which samples are written -----

  /** Raw offset of the first sample more than a second off: it becomes the base. */
  function FirstForeign(inputs: seq<Input>): Option<int> {
    if inputs == [] then None
    else
      var before := FirstForeign(inputs[..|inputs| - 1]);
      var raw := RawOffset(inputs[|inputs| - 1].sample);
      if before.Some? then before else if raw > 1_000_000_000 || raw < -1_000_000_000 then Some(raw) else None
  }

  /** Over every run: the base is that raw offset, and every other sample has been counted. */
  lemma {:induction false} BaseExact(inputs: seq<Input>)
    requires Run(inputs).Ok?
    ensures var v := Run(inputs).value;
      && v.baseEpochOffset == FirstForeign(inputs)
      && v.syncCounter == |inputs| - (if FirstForeign(inputs).Some? then 1 else 0)
  {
    hide RawOffset, AdjustFits, AsI64, Steered, Average;
    if inputs != [] { BaseExact(inputs[..|inputs| - 1]); }
  }

  /** Over every run: the last sample reaches the hardware iff its write succeeds, it is not
      the base, and fewer than 100 samples besides the base came before or its offset from
      the base is at most 150 ns. Its offset is its raw one less the base, if there is one. */
  lemma WrittenExactly(inputs: seq<Input>, i: Input)
    requires Run(inputs + [i]).Ok?
    ensures Run(inputs).Ok?
    ensures var base, raw := FirstForeign(inputs), RawOffset(i.sample);
      var counted := |inputs| - (if base.Some? then 1 else 0);
      var offset := if base.Some? then raw - base.value else raw;
      && Offset(Run(inputs).value, i.sample) == offset
      && (Applied(Run(inputs).value, i) <==>
           && i.writeOk
           && (base.Some? || -1_000_000_000 <= raw <= 1_000_000_000)
           && (counted < 100 || -150 <= offset <= 150))
  {
    hide RawOffset, AdjustFits, AsI64, Steered, Average;
    assert (inputs + [i])[..|inputs|] == inputs;
    BaseExact(inputs);
  }

  // ----- Published states -----

  /** What the servo publishes for the last sample. */
  function PublishedBy(inputs: seq<Input>, i: Input): Option<Status>
    requires Run(inputs + [i]).Ok? && Run(inputs).Ok?
  {
    var r := Process(Run(inputs).value, i.sample, i.writeOk);
    if r.Ok? then r.value.1 else None
  }

  /** A state is published exactly for written samples: Synchronized for an offset of less
      than 100 ns, else Syncing, along with the offset, reduced to 64 bits, and the estimate
      of the master's time. */
  lemma PublishedExactly(inputs: seq<Input>, i: Input)
    requires Run(inputs + [i]).Ok?
    ensures Run(inputs).Ok?
    ensures var v, p := Run(inputs).value, PublishedBy(inputs, i);
      && (p.Some? <==> Applied(v, i))
      && (p.Some? ==>
           && (p.value.Synchronized? <==> -100 < Offset(v, i.sample) < 100)
           && IsCast(p.value.offsetNs, Offset(v, i.sample))
           && p.value.ptpTimeNs == MasterTime(i.sample))
  {
    CastExact(Offset(Run(inputs).value, i.sample));
    hide RawOffset, AdjustFits, AsI64, Steered, Average, MasterTime, IsCast;
    assert (inputs + [i])[..|inputs|] == inputs;
  }

  /** The 64-bit number that is equal modulo 2^64. */
  predicate IsCast(y: int, x: int) {
    InI64(y) && (x - y) % TWO_64 == 0
  }

  lemma CastExact(x: int)
    ensures IsCast(AsI64(x), x)
    ensures InI64(x) ==> AsI64(x) == x
  {
  }

  // ----- Aborts -----

  /** Summing from the left overflows iff the sum of some first few values does. */
  lemma {:induction false} SumFitsExact(xs: seq<int>, from: int)
    ensures SumFits(xs, from) <==> forall k :: 0 <= k <= |xs| ==> InI64(from + Sum(xs[..k]))
  {
    if xs == [] {
      assert forall k :: 0 <= k <= |xs| ==> xs[..k] == [];
    } else {
      SumFitsExact(xs[1..], from + xs[0]);
      assert xs[..0] == [];
      forall k | 1 <= k <= |xs| ensures Sum(xs[..k]) == xs[0] + Sum(xs[1..][..k - 1]) {
        assert xs[..k][1..] == xs[1..][..k - 1];
      }
      if forall k :: 0 <= k <= |xs| ==> InI64(from + Sum(xs[..k])) {
        forall k | 0 <= k <= |xs[1..]| ensures InI64(from + xs[0] + Sum(xs[1..][..k])) {
          assert InI64(from + Sum(xs[..k + 1]));
        }
      }
      if SumFits(xs, from) {
        forall k | 0 <= k <= |xs| ensures InI64(from + Sum(xs[..k])) {
          if k > 0 { assert InI64(from + xs[0] + Sum(xs[1..][..k - 1])); }
        }
      }
    }
  }

  /** The sum of some first few values leaves 64 bits. */
  ghost predicate SumOverflows(xs: seq<int>) {
    exists k :: 0 <= k <= |xs| && !InI64(Sum(xs[..k]))
  }

  /** What the history would hold after writing x: the last three written offsets. */
  function Recent(inputs: seq<Input>, x: int): seq<int>
    requires Run(inputs).Ok?
  {
    LastOf(WrittenOffsets(inputs) + [x], 3)
  }

  /** The new correction leaves 64 bits or, when the write succeeds, a sum of some first few
      of the last offsets does, or their mean is -2^63, or the new increment leaves 32 bits. */
  ghost predicate Overflows(correction: int, increment: int, last: seq<int>, writeOk: bool)
    requires last != []
  {
    || !InI64(correction)
    || (writeOk && (SumOverflows(last) || Average(last) == I64_MIN || !InI32(Steered(increment, Average(last)))))
  }

  /** Over every run: a sample aborts the servo iff it is not the base and either 2^32 - 1
      samples have been counted or, unless it is an outlier, its offset overflows minus the
      sum of all written offsets, or what depends on the last three. */
  lemma AbortsExactly(inputs: seq<Input>, i: Input)
    requires Run(inputs).Ok?
    ensures var base, raw := FirstForeign(inputs), RawOffset(i.sample);
      var counted := |inputs| - (if base.Some? then 1 else 0);
      var offset := if base.Some? then raw - base.value else raw;
      var written := WrittenOffsets(inputs) + [AsI64(offset)];
      Run(inputs + [i]).Panic? <==>
        && (base.Some? || -1_000_000_000 <= raw <= 1_000_000_000)
        && (|| counted == U32_MAX
            || ((counted < 100 || -150 <= offset <= 150)
                && Overflows(-Sum(written), Run(inputs).value.currentIncrement, LastOf(written, 3), i.writeOk)))
  {
    hide Run, RawOffset, AsI64, Sum, WrittenOffsets, LastOf, Pushed, Overflows, FirstForeign, Average, Steered;
    BaseExact(inputs);
    ServoInvariant(inputs);
    RunAborts(inputs, i);
    var v := Run(inputs).value;
    var x := AsI64(Offset(v, i.sample));
    PushedLast(WrittenOffsets(inputs), x);
    SumConcat(WrittenOffsets(inputs), x);
  }

  lemma RunAborts(inputs: seq<Input>, i: Input)
    requires Run(inputs).Ok?
    ensures var v := Run(inputs).value;
      var x := AsI64(Offset(v, i.sample));
      Run(inputs + [i]).Panic? <==>
        && !SetsBase(v, i.sample)
        && (|| v.syncCounter == U32_MAX
            || (!IsOutlier(v, i.sample)
                && Overflows(v.appliedCorrection - x, v.currentIncrement, Pushed(v.history, x), i.writeOk)))
  {
    hide SetsBase, IsOutlier, Offset, AdjustFits, AsI64, Overflows, Pushed, Adjusted;
    assert (inputs + [i])[..|inputs|] == inputs;
    FitsExact(Run(inputs).value, Offset(Run(inputs).value, i.sample), i.writeOk);
  }

  lemma FitsExact(v: Servo, offset: int, writeOk: bool)
    ensures var x := AsI64(offset);
      AdjustFits(v, offset, writeOk)
      <==> v.syncCounter != U32_MAX && !Overflows(v.appliedCorrection - x, v.currentIncrement, Pushed(v.history, x), writeOk)
  {
    hide AsI64, Steered, Average, SumFits, Sum;
    SumFitsExact(Pushed(v.history, AsI64(offset)), 0);
    hide Pushed;
  }

  /** The base is set by at most one sample of a run and kept from then on. */
  lemma {:induction false} BaseSetOnce(inputs: seq<Input>, n: nat)
    requires n <= |inputs| && Run(inputs).Ok?
    ensures Run(inputs[..n]).Ok?
    ensures Run(inputs[..n]).value.baseEpochOffset.Some? ==>
      Run(inputs).value.baseEpochOffset == Run(inputs[..n]).value.baseEpochOffset
    decreases |inputs|
  {
    if n < |inputs| {
      var m := |inputs| - 1;
      assert inputs[..m][..n] == inputs[..n];
      BaseSetOnce(inputs[..m], n);
    } else {
      assert inputs[..n] == inputs;
    }
  }

  function Bracket(a: nat): int {
    if a > 1000 then 50 else if a > 500 then 20 else if a > 100 then 10 else if a > 50 then 5 else 1
  }

  /** The step follows the size of the mean iff the mean is at most 1000 ns or its low 32
      bits lie strictly between 1000 and 2^31; every mean below 2^31 ns does. */
  lemma AdjustmentExact(average: int)
    ensures Adjustment(average) == Bracket(Abs(average)) <==> Abs(average) <= 1000 || 1000 < Abs(average) % TWO_32 < 0x8000_0000
    ensures Abs(average) <= I32_MAX ==> Adjustment(average) == Bracket(Abs(average))
    ensures Adjustment(TWO_32) == 1 && Bracket(TWO_32) == 50
  {
  }

  // ----- A mean that is steered the wrong way -----

  /** A sample whose receive time is ahead of the send time by `offset`. */
  function AheadBy(offset: nat): Sample
    requires offset < TWO_64
  {
    Sample(FromNs(0), FromNs(offset), FromNs(offset), FromNs(0), 0, 0)
  }

  /** The base, and then one sample 2^32 ns further ahead. */
  const JUMP: seq<Input> := [Input(AheadBy(2_000_000_000), true), Input(AheadBy(2_000_000_000 + TWO_32), true)]

  /** A run reaches such a mean: it is steered by 1 instead of 50. */
  lemma JumpIsSteeredByOne()
    ensures Run(JUMP).Ok?
    ensures Run(JUMP).value.history == [TWO_32]
    ensures DEFAULT_INCREMENT - Run(JUMP).value.currentIncrement == 1
    ensures Average([TWO_32]) == TWO_32 && Bracket(TWO_32) == 50
  {
    var first, second := JUMP[0], JUMP[1];
    assert JUMP[..1] == [first] && [first][..0] == [];
    assert RawOffset(first.sample) == 2_000_000_000 && RawOffset(second.sample) == 2_000_000_000 + TWO_32;
    assert Run([]) == Ok(INITIAL) && SetsBase(INITIAL, first.sample);
    var v := Run([first]).value;
    assert v == INITIAL.(baseEpochOffset := Some(2_000_000_000));
    assert Pushed(v.history, TWO_32) == [TWO_32] && Sum([TWO_32]) == TWO_32;
    assert SumFits([TWO_32][1..], TWO_32);
    AdjustmentExact(TWO_32);
    assert AdjustFits(v, TWO_32, true);
    assert Run(JUMP) == Ok(Adjusted(v, TWO_32, true));
  }

  // ----- The servo's loop -----

  /** Processes samples until one aborts the client. */
  method ProcessSamples(inputs: seq<Input>) returns (servo: ClockServo, aborted: bool)
    ensures aborted <==> Run(inputs).Panic?
    ensures !aborted ==> servo.Contents() == Run(inputs).value
  {
    hide Process;
    servo := new ClockServo();
    for n := 0 to |inputs|
      invariant fresh(servo) && fresh(servo.offsetHistory)
      invariant Run(inputs[..n]) == Ok(servo.Contents())
    {
      assert inputs[..n + 1][..n] == inputs[..n];
      var r := servo.ProcessServoSample(inputs[n].sample, inputs[n].writeOk);
      if r.Panic? {
        StaysAborted(inputs, n + 1);
        return servo, true;
      }
    }
    assert inputs[..|inputs|] == inputs;
    aborted := false;
  }

  lemma {:induction false} StaysAborted(inputs: seq<Input>, n: nat)
    requires n <= |inputs| && Run(inputs[..n]).Panic?
    ensures Run(inputs).Panic?
    decreases |inputs|
  {
    if n < |inputs| {
      assert inputs[..|inputs| - 1][..n] == inputs[..n];
      StaysAborted(inputs[..|inputs| - 1], n);
    } else {
      assert inputs[..n] == inputs;
    }
  }
}
