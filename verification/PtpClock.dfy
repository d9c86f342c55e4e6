/** Time values of the PTP client and the tracker that extends the 48-bit hardware
    timestamps to 64 bits. */
module PtpClock {
  import opened Bits

  const BILLION: nat := 1_000_000_000

  datatype PtpTime = PtpTime(rawNs: u64, seconds: u64, nanoseconds: u32)

  function FromNs(ns: u64): PtpTime {
    PtpTime(ns, ns / BILLION, ns % BILLION)
  }

  /** Seconds and nanoseconds of a message; the total saturates at 64 bits. */
  function FromComponents(seconds: u64, nanoseconds: u32): PtpTime {
    PtpTime(Min(Min(seconds * BILLION, TWO_64 - 1) + nanoseconds, TWO_64 - 1), seconds, nanoseconds)
  }

  // ----- Extending 48-bit timestamps -----

  /** Upper 16 bits kept in software and the last lower 48 bits seen. */
  datatype Tracker = Tracker(swTsNs: u16, lastHwTs: Option<u48>) {
    /** The wrap is detected by the lower bits going down. */
    function Combine(hwTs: u64): (Tracker, u64) {
      var hw := hwTs % TWO_48;
      var sw := if lastHwTs.Some? && hw < lastHwTs.value then (swTsNs + 1) % 0x1_0000 else swTsNs;
      (Tracker(sw, Some(hw)), sw * TWO_48 + hw)
    }
    /** The last extended value. */
    function Full(): u64
      requires lastHwTs.Some?
    {
      swTsNs * TWO_48 + lastHwTs.value
    }
  }

  class TimestampTracker {
    var swTsNs: u16
    var lastHwTs: Option<u48>

    ghost function Contents(): Tracker
      reads this
    {
      Tracker(swTsNs, lastHwTs)
    }

    /** `initial` is the upper 16 bits of the system clock at start. */
    constructor (initial: u16)
      ensures Contents() == Tracker(initial, None)
    {
      swTsNs, lastHwTs := initial, None;
    }

    method Combine(hwTs: u64) returns (full: u64)
      modifies this
      ensures (Contents(), full) == old(Contents()).Combine(hwTs)
    {
      var hw: u48 := hwTs % TWO_48;
      if lastHwTs.Some? {
        var prev := lastHwTs.value;
        if hw < prev {
          swTsNs := (swTsNs + 1) % 0x1_0000;
        }
      }
      lastHwTs := Some(hw);
      full := swTsNs * TWO_48 + hw;
    }
  }

  /** All combined timestamps of a run. */
  function Unwrap(t: Tracker, hws: seq<u64>): (r: seq<u64>)
    ensures |r| == |hws|
    decreases |hws|
  {
    if hws == [] then []
    else
      var (t', full) := t.Combine(hws[0]);
      [full] + Unwrap(t', hws[1..])
  }

  /** The tracker after a run. */
  function TrackerAfter(t: Tracker, hws: seq<u64>): Tracker
    decreases |hws|
  {
    if hws == [] then t else TrackerAfter(t.Combine(hws[0]).0, hws[1..])
  }

  lemma {:induction false} UnwrapSnoc(t: Tracker, hws: seq<u64>, hw: u64)
    ensures Unwrap(t, hws + [hw]) == Unwrap(t, hws) + [TrackerAfter(t, hws).Combine(hw).1]
    ensures TrackerAfter(t, hws + [hw]) == TrackerAfter(t, hws).Combine(hw).0
    decreases |hws|
  {
    if hws == [] {
      assert Unwrap(t.Combine(hw).0, []) == [];
      assert ([hw])[1..] == [];
    } else {
      UnwrapSnoc(t.Combine(hws[0]).0, hws[1..], hw);
      assert (hws + [hw])[1..] == hws[1..] + [hw];
    }
  }

  // ----- One step -----

  /** How far two values lie apart on the 64-bit clock. */
  function Ahead(from: int, to: int): u64 {
    (to - from) % TWO_64
  }

  /** A step adds the distance of the lower 48 bits, whichever way they moved. */
  lemma CombineAdvances(t: Tracker, hw: u64)
    requires t.lastHwTs.Some?
    ensures t.Combine(hw).1 == (t.Full() + (hw - t.lastHwTs.value) % TWO_48) % TWO_64
    ensures t.Combine(hw).0.lastHwTs == Some(hw % TWO_48) && t.Combine(hw).0.Full() == t.Combine(hw).1
  {
    var low, prev := hw % TWO_48, t.lastHwTs.value;
    LowDistance(hw, prev);
    if low < prev && t.swTsNs == 0xFFFF {
      assert t.Full() + (low - prev + TWO_48) == TWO_64 + low;
    }
  }

  lemma LowDistance(hw: u64, prev: u48)
    ensures (hw - prev) % TWO_48 == if hw % TWO_48 < prev then hw % TWO_48 - prev + TWO_48 else hw % TWO_48 - prev
  {
    var q, low := hw / TWO_48, hw % TWO_48;
    ModShift(low - prev, q);
  }

  lemma ModShift(a: int, q: int)
    ensures (a + q * TWO_48) % TWO_48 == a % TWO_48
  {
    var r := a / TWO_48;
    assert a + q * TWO_48 == TWO_48 * (r + q) + a % TWO_48;
  }

  /** A distance is kept by its low 48 bits iff it is, modulo 2^64, shorter than one wrap. */
  lemma DistanceKept(d: int)
    ensures (d - d % TWO_48) % TWO_64 == 0 <==> d % TWO_64 < TWO_48
  {
    var q := d / TWO_48;
    var high, low := q / 0x1_0000, q % 0x1_0000;
    assert d == TWO_64 * high + (TWO_48 * low + d % TWO_48);
    assert d - d % TWO_48 == TWO_64 * high + TWO_48 * low;
    assert d % TWO_64 == TWO_48 * low + d % TWO_48;
  }

  lemma Congruent(a: int, b: int)
    ensures a % TWO_64 == b % TWO_64 <==> (b - a) % TWO_64 == 0
  {
  }

  lemma SameDistance(a: int, b: int, a': int, b': int)
    requires a % TWO_48 == a' % TWO_48 && b % TWO_48 == b' % TWO_48
    ensures (b - a) % TWO_48 == (b' - a') % TWO_48
  {
    var d := (b / TWO_48 - b' / TWO_48) - (a / TWO_48 - a' / TWO_48);
    assert b - a == (b' - a') + d * TWO_48;
    ModShift(b' - a', d);
  }

  /** The value of a step lies as far from the value before as the true times do iff the
      pause is, modulo 2^64, shorter than one wrap. In particular a reading older than
      the last one by less than a wrap is always mistaken for a wrap. */
  lemma PauseExact(t: Tracker, hw: u64, before: int, time: int)
    requires t.lastHwTs == Some(before % TWO_48) && hw % TWO_48 == time % TWO_48
    ensures Ahead(t.Full(), t.Combine(hw).1) == Ahead(before, time) <==> (time - before) % TWO_64 < TWO_48
  {
    hide Ahead;
    CombineAdvances(t, hw);
    SameDistance(before, time, t.lastHwTs.value, hw);
    hide Tracker.Combine;
    AheadExact(t.Full(), before, time);
  }

  lemma AheadExact(full: u64, before: int, time: int)
    ensures Ahead(full, (full + (time - before) % TWO_48) % TWO_64) == Ahead(before, time)
       <==> (time - before) % TWO_64 < TWO_48
  {
    var d := time - before;
    Congruent((full + d % TWO_48) % TWO_64 - full, d % TWO_48);
    Congruent(d % TWO_48, d);
    DistanceKept(d);
  }

  /** What a reading older than the last one by less than a wrap does: the result is one
      wrap too late. */
  lemma GoingBackAddsWrap(t: Tracker, hw: u64, before: int, time: int)
    requires t.lastHwTs == Some(before % TWO_48) && hw % TWO_48 == time % TWO_48
    requires before - TWO_48 < time < before
    ensures t.Combine(hw).1 == (t.Full() + (time - before) + TWO_48) % TWO_64
  {
    CombineAdvances(t, hw);
    SameDistance(before, time, t.lastHwTs.value, hw);
    ModShift(time - before, 1);
  }

  // ----- Over runs -----

  /** The hardware reported the lower 48 bits of the true times. */
  ghost predicate Observes(hws: seq<u64>, times: seq<int>) {
    && |hws| == |times|
    && (forall i :: 0 <= i < |hws| ==> hws[i] % TWO_48 == times[i] % TWO_48)
  }

  /** All values are off by the same amount, modulo 2^64. */
  ghost predicate OneShift(values: seq<int>, times: seq<int>)
    requires |values| == |times|
  {
    forall i :: 0 <= i < |times| ==> Ahead(times[0], values[0]) == Ahead(times[i], values[i])
  }

  /** No pause between neighbours is, modulo 2^64, a whole wrap or more. */
  ghost predicate ShortPauses(times: seq<int>) {
    forall i :: 0 < i < |times| ==> (times[i] - times[i - 1]) % TWO_64 < TWO_48
  }

  lemma SameShift(a: int, b: int, a': int, b': int)
    ensures Ahead(a, a') == Ahead(b, b') <==> Ahead(a, b) == Ahead(a', b')
  {
    Congruent(a' - a, b' - b);
    Congruent(b - a, b' - a');
  }

  /** Tracker values from a known last value on: neighbours keep their distance exactly
      over short pauses. */
  lemma {:induction false} NeighboursKept(t: Tracker, hws: seq<u64>, times: seq<int>, i: nat)
    requires Observes(hws, times) && 0 < i < |times|
    ensures var r := Unwrap(t, hws);
      Ahead(times[i - 1], r[i - 1]) == Ahead(times[i], r[i]) <==> (times[i] - times[i - 1]) % TWO_64 < TWO_48
    decreases i
  {
    var t' := t.Combine(hws[0]).0;
    if i == 1 {
      assert t'.Full() == t.Combine(hws[0]).1;
      PauseExact(t', hws[1], times[0], times[1]);
      SameShift(times[0], times[1], Unwrap(t, hws)[0], Unwrap(t, hws)[1]);
    } else {
      NeighboursKept(t', hws[1..], times[1..], i - 1);
    }
  }

  lemma {:induction false} Chain(values: seq<int>, times: seq<int>, i: nat)
    requires |values| == |times| && i < |times|
    requires forall k :: 0 < k < |times| ==> Ahead(times[k - 1], values[k - 1]) == Ahead(times[k], values[k])
    ensures Ahead(times[0], values[0]) == Ahead(times[i], values[i])
  {
    if i > 0 { Chain(values, times, i - 1); }
  }

  /** Over every run, times going back included: all combined timestamps are off by one
      and the same amount iff every pause is, modulo 2^64, shorter than one wrap. */
  lemma UnwrapExact(t: Tracker, hws: seq<u64>, times: seq<int>)
    requires Observes(hws, times)
    ensures OneShift(Unwrap(t, hws), times) <==> ShortPauses(times)
  {
    hide Unwrap, Ahead;
    var r := Unwrap(t, hws);
    forall i | 0 < i < |times|
      ensures Ahead(times[i - 1], r[i - 1]) == Ahead(times[i], r[i]) <==> (times[i] - times[i - 1]) % TWO_64 < TWO_48
    {
      NeighboursKept(t, hws, times, i);
    }
    if ShortPauses(times) {
      forall i | 0 <= i < |times| ensures Ahead(times[0], r[0]) == Ahead(times[i], r[i]) {
        Chain(r, times, i);
      }
    }
  }

  /** That amount is a whole number of wraps: the one by which the first value is off. */
  lemma UnwrapIsConstantShift(sw: u16, hws: seq<u64>, times: seq<int>)
    requires Observes(hws, times) && ShortPauses(times)
    ensures times != [] ==>
      var wraps := sw - times[0] / TWO_48;
      forall i :: 0 <= i < |times| ==> Unwrap(Tracker(sw, None), hws)[i] == (times[i] + wraps * TWO_48) % TWO_64
  {
    if times != [] {
      var r, wraps := Unwrap(Tracker(sw, None), hws), sw - times[0] / TWO_48;
      UnwrapExact(Tracker(sw, None), hws, times);
      assert r[0] == sw * TWO_48 + hws[0] % TWO_48 == times[0] + wraps * TWO_48;
      forall i | 0 <= i < |times| ensures r[i] == (times[i] + wraps * TWO_48) % TWO_64 {
        ShiftBy(times[0], r[0], times[i], r[i], wraps * TWO_48);
      }
    }
  }

  lemma ShiftBy(a: int, a': int, b: int, b': u64, shift: int)
    requires Ahead(a, a') == Ahead(b, b') && a' == a + shift
    ensures b' == (b + shift) % TWO_64
  {
    Congruent(shift, b' - b);
    Congruent(b + shift, b');
  }
}
