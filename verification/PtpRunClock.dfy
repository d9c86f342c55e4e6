/** How the receive and send times of a run relate to true time. Both go through the same
    tracker, in the order in which the client handles them. */
module PtpRunClock {
  import opened Bits
  import opened PtpClock
  import opened PtpPacket
  import opened PtpExchange
  import opened PtpPairing
  import opened PtpCaptures

  /** The hardware value the client extends while it handles the event at position i. */
  function RawAt(own: seq<u8>, sw: u16, es: seq<Event>, i: nat): Option<u64>
    requires i < |es|
  {
    if es[i].Sync? then es[i].rawT2
    else
      var ts := CaptureAt(own, sw, es, i);
      if ts.Some? then Some(ts.value.rawHwNs) else None
  }

  /** The time it stores: T2 of a Sync, T3 of a request. */
  function StampAt(own: seq<u8>, sw: u16, es: seq<Event>, i: nat): Option<PtpTime>
    requires i < |es|
  {
    if es[i].Sync? then T2At(own, sw, es, i) else T3At(own, sw, es, i)
  }

  lemma StampIsCombined(own: seq<u8>, sw: u16, es: seq<Event>, i: nat)
    requires i < |es|
    ensures var raw, tracker := RawAt(own, sw, es, i), RunTo(own, sw, es, i).x.tracker;
      && StampAt(own, sw, es, i) == (if raw.Some? then Some(FromNs(tracker.Combine(raw.value).1)) else None)
      && RunTo(own, sw, es, i + 1).x.tracker == (if raw.Some? then tracker.Combine(raw.value).0 else tracker)
  {
    hide Pick, FromComponents, FromNs, Tracker.Combine;
  }

  /** Positions of the events that extend a timestamp, among the first k. */
  function Fed(own: seq<u8>, sw: u16, es: seq<Event>, k: nat): (r: seq<nat>)
    requires k <= |es|
    ensures forall n :: 0 <= n < |r| ==> r[n] < k && RawAt(own, sw, es, r[n]).Some?
  {
    if k == 0 then []
    else Fed(own, sw, es, k - 1) + (if RawAt(own, sw, es, k - 1).Some? then [k - 1] else [])
  }

  lemma {:induction false} FedComplete(own: seq<u8>, sw: u16, es: seq<Event>, k: nat, i: nat)
    requires i < k <= |es| && RawAt(own, sw, es, i).Some?
    ensures i in Fed(own, sw, es, k)
  {
    hide RawAt;
    if i < k - 1 { FedComplete(own, sw, es, k - 1, i); }
  }

  function Raws(own: seq<u8>, sw: u16, es: seq<Event>, k: nat): (r: seq<u64>)
    requires k <= |es|
    ensures |r| == |Fed(own, sw, es, k)|
  {
    var f := Fed(own, sw, es, k);
    seq(|f|, n requires 0 <= n < |f| => RawAt(own, sw, es, f[n]).value)
  }

  /** True times of the extended timestamps, in order. */
  function FedTimes(own: seq<u8>, sw: u16, es: seq<Event>, k: nat, times: seq<int>): (r: seq<int>)
    requires k <= |es| && |times| == |es|
    ensures |r| == |Fed(own, sw, es, k)|
  {
    var f := Fed(own, sw, es, k);
    seq(|f|, n requires 0 <= n < |f| => times[f[n]])
  }

  /** The tracker of a run has seen exactly the fed values. */
  lemma {:induction false} TrackerOfRun(own: seq<u8>, sw: u16, es: seq<Event>, k: nat)
    requires k <= |es|
    ensures RunTo(own, sw, es, k).x.tracker == TrackerAfter(Tracker(sw, None), Raws(own, sw, es, k))
  {
    hide *;
    if k == 0 {
      StartTracker(own, sw, es);
    } else {
      TrackerOfRun(own, sw, es, k - 1);
      StampIsCombined(own, sw, es, k - 1);
      RawsNext(own, sw, es, k);
      var raw := RawAt(own, sw, es, k - 1);
      if raw.Some? { UnwrapSnoc(Tracker(sw, None), Raws(own, sw, es, k - 1), raw.value); }
    }
  }

  /** The stored times are the extensions of those values. */
  lemma {:induction false} StampsOfRun(own: seq<u8>, sw: u16, es: seq<Event>, k: nat, n: nat)
    requires k <= |es| && n < |Fed(own, sw, es, k)|
    ensures StampAt(own, sw, es, Fed(own, sw, es, k)[n])
         == Some(FromNs(Unwrap(Tracker(sw, None), Raws(own, sw, es, k))[n]))
  {
    FedEmpty(own, sw, es);
    hide *;
    RawsNext(own, sw, es, k);
    var raw, hws := RawAt(own, sw, es, k - 1), Raws(own, sw, es, k - 1);
    if raw.Some? { UnwrapSnoc(Tracker(sw, None), hws, raw.value); }
    if n < |hws| {
      StampsOfRun(own, sw, es, k - 1, n);
    } else {
      TrackerOfRun(own, sw, es, k - 1);
      StampIsCombined(own, sw, es, k - 1);
    }
  }

  lemma FedEmpty(own: seq<u8>, sw: u16, es: seq<Event>)
    ensures Fed(own, sw, es, 0) == []
  {
  }

  lemma RawsNext(own: seq<u8>, sw: u16, es: seq<Event>, k: nat)
    requires 0 < k <= |es|
    ensures var raw := RawAt(own, sw, es, k - 1);
      && Fed(own, sw, es, k) == (if raw.Some? then Fed(own, sw, es, k - 1) + [k - 1] else Fed(own, sw, es, k - 1))
      && Raws(own, sw, es, k) == (if raw.Some? then Raws(own, sw, es, k - 1) + [raw.value] else Raws(own, sw, es, k - 1))
  {
    hide RawAt;
  }

  lemma StartTracker(own: seq<u8>, sw: u16, es: seq<Event>)
    ensures RunTo(own, sw, es, 0).x.tracker == TrackerAfter(Tracker(sw, None), Raws(own, sw, es, 0))
  {
  }

  /** The hardware reported the lower 48 bits of the true time of every fed event. */
  ghost predicate TrueTimes(own: seq<u8>, sw: u16, es: seq<Event>, times: seq<int>) {
    && |times| == |es|
    && forall i :: 0 <= i < |es| && RawAt(own, sw, es, i).Some? ==>
         RawAt(own, sw, es, i).value % TWO_48 == times[i] % TWO_48
  }

  /** All receive and send times of the run are off by the same amount, modulo 2^64. */
  ghost predicate OneClock(own: seq<u8>, sw: u16, es: seq<Event>, times: seq<int>)
    requires |times| == |es|
  {
    forall i, j :: 0 <= i < |es| && 0 <= j < |es| && StampAt(own, sw, es, i).Some? && StampAt(own, sw, es, j).Some? ==>
      Ahead(times[i], StampAt(own, sw, es, i).value.rawNs) == Ahead(times[j], StampAt(own, sw, es, j).value.rawNs)
  }

  lemma StampOfFed(own: seq<u8>, sw: u16, es: seq<Event>, times: seq<int>, n: nat)
    requires |times| == |es| && n < |Fed(own, sw, es, |es|)|
    ensures var i := Fed(own, sw, es, |es|)[n];
      && i < |es| && FedTimes(own, sw, es, |es|, times)[n] == times[i]
      && StampAt(own, sw, es, i).Some?
      && StampAt(own, sw, es, i).value.rawNs == Unwrap(Tracker(sw, None), Raws(own, sw, es, |es|))[n]
  {
    hide RawAt, StampAt;
    StampsOfRun(own, sw, es, |es|, n);
  }

  lemma StampIsFed(own: seq<u8>, sw: u16, es: seq<Event>, i: nat) returns (n: nat)
    requires i < |es| && StampAt(own, sw, es, i).Some?
    ensures n < |Fed(own, sw, es, |es|)| && Fed(own, sw, es, |es|)[n] == i
  {
    StampIsCombined(own, sw, es, i);
    hide StampAt, RawAt;
    FedComplete(own, sw, es, |es|, i);
    n :| 0 <= n < |Fed(own, sw, es, |es|)| && Fed(own, sw, es, |es|)[n] == i;
  }

  /** Over every run, stale reads and messages handled out of order included: all T2 and
      T3 are on one clock iff, from each handled timestamp to the next, true time
      advances, modulo 2^64, by less than one wrap. */
  lemma RunClockExact(own: seq<u8>, sw: u16, es: seq<Event>, times: seq<int>)
    requires TrueTimes(own, sw, es, times)
    ensures OneClock(own, sw, es, times) <==> ShortPauses(FedTimes(own, sw, es, |es|, times))
  {
    hide RawAt, StampAt, Ahead;
    var hws, fed := Raws(own, sw, es, |es|), FedTimes(own, sw, es, |es|, times);
    var values := Unwrap(Tracker(sw, None), hws);
    UnwrapExact(Tracker(sw, None), hws, fed);
    if OneClock(own, sw, es, times) {
      forall n | 0 <= n < |fed| ensures Ahead(fed[0], values[0]) == Ahead(fed[n], values[n]) {
        StampOfFed(own, sw, es, times, 0);
        StampOfFed(own, sw, es, times, n);
      }
    }
    if OneShift(values, fed) {
      forall i, j | 0 <= i < |es| && 0 <= j < |es| && StampAt(own, sw, es, i).Some? && StampAt(own, sw, es, j).Some?
        ensures Ahead(times[i], StampAt(own, sw, es, i).value.rawNs) == Ahead(times[j], StampAt(own, sw, es, j).value.rawNs)
      {
        var m := StampIsFed(own, sw, es, i);
        var n := StampIsFed(own, sw, es, j);
        StampOfFed(own, sw, es, times, m);
        StampOfFed(own, sw, es, times, n);
      }
    }
  }

  /** Then T2 and T3 of every sample lie as far apart as the true receive and send times. */
  lemma SampleTimesAgree(own: seq<u8>, sw: u16, es: seq<Event>, times: seq<int>, em: Emission)
    requires TrueTimes(own, sw, es, times) && ShortPauses(FedTimes(own, sw, es, |es|, times))
    requires em in RunTo(own, sw, es, |es|).out
    ensures em.origin.t2 < |es| && em.origin.request < |es|
    ensures Ahead(em.sample.t2.rawNs, em.sample.t3.rawNs) == Ahead(times[em.origin.t2], times[em.origin.request])
  {
    RunClockExact(own, sw, es, times);
    SamplesStayTogether(own, sw, es);
    hide RunTo, T2At, CaptureAt, RawAt, Ahead, SameSync, Completes, ShortPauses;
    var o := em.origin;
    assert Genuine(own, sw, es, em);
    assert es[o.t2].Sync? && !es[o.request].Sync? by { SenderAndReceiver(own, sw, es, o.t2, o.request); }
    assert StampAt(own, sw, es, o.t2) == Some(em.sample.t2) && StampAt(own, sw, es, o.request) == Some(em.sample.t3);
    SameShift(times[o.t2], times[o.request], em.sample.t2.rawNs, em.sample.t3.rawNs);
  }

  lemma SenderAndReceiver(own: seq<u8>, sw: u16, es: seq<Event>, i: nat, j: nat)
    requires i < |es| && j < |es| && T2At(own, sw, es, i).Some? && T3At(own, sw, es, j).Some?
    ensures es[i].Sync? && es[j].FollowUp?
  {
    hide RunTo;
  }

  /** A timestamp older than the one handled before it, by less than a wrap, is stored one
      wrap too late, whatever it is; so is a send time read stale after a newer receive time. */
  lemma OlderStampJumpsWrap(own: seq<u8>, sw: u16, es: seq<Event>, times: seq<int>, n: nat)
    requires TrueTimes(own, sw, es, times) && 0 < n < |Fed(own, sw, es, |es|)|
    requires var f := Fed(own, sw, es, |es|); times[f[n - 1]] - TWO_48 < times[f[n]] < times[f[n - 1]]
    ensures var f := Fed(own, sw, es, |es|);
      var before, now := StampAt(own, sw, es, f[n - 1]), StampAt(own, sw, es, f[n]);
      && before.Some? && now.Some?
      && now.value.rawNs == (before.value.rawNs + (times[f[n]] - times[f[n - 1]]) + TWO_48) % TWO_64
  {
    hide RawAt, StampAt;
    StampOfFed(own, sw, es, times, n - 1);
    StampOfFed(own, sw, es, times, n);
    UnwrapGoesBack(Tracker(sw, None), Raws(own, sw, es, |es|), FedTimes(own, sw, es, |es|, times), n);
  }

  /** The client can receive such a timestamp: a stale send time after a newer receive time.
      The second sample's T3 is a wrap ahead of its T2, and the run's times are not on one
      clock. */
  lemma StaleSendTimeJumps(own: seq<u8>, sw: u16)
    ensures var es, times := TwoExchanges(500, 2000), [500, 1000, 0, 2000, 1000, 0];
      && TrueTimes(own, sw, es, times) && Fed(own, sw, es, 6) == [0, 1, 3, 4] && !OneClock(own, sw, es, times)
    ensures var out := RunTo(own, sw, TwoExchanges(500, 2000), 6).out;
      && |out| == 2 && out[1].sample.t2 == FromNs(sw * TWO_48 + 2000)
      && out[1].sample.t3 == FromNs(((sw + 1) % 0x1_0000) * TWO_48 + 1000)
  {
    hide RunTo, Fed, TrueTimes, OneClock, TwoExchanges, FromNs;
    FedOfTwoExchanges(own, sw);
    SecondExchange(own, sw, 500, 2000);
    NotOneClock(own, sw);
  }

  lemma RawsOfTwoExchanges(own: seq<u8>, sw: u16, i: nat)
    requires i < 6
    ensures RawAt(own, sw, TwoExchanges(500, 2000), i)
         == [Some(500), Some(1000), None, Some(2000), Some(1000), None][i]
  {
    hide RunTo, RequestsAt, CaptureAt;
    var es := TwoExchanges(500, 2000);
    if i == 1 { FirstExchange(own, sw, 500, 2000); }
    if i == 4 { SecondRequest(own, sw, 500, 2000); }
    if i == 2 || i == 5 { NotARequest(own, sw, es, i); }
  }

  lemma FedOfTwoExchanges(own: seq<u8>, sw: u16)
    ensures var es := TwoExchanges(500, 2000);
      Fed(own, sw, es, 6) == [0, 1, 3, 4] && TrueTimes(own, sw, es, [500, 1000, 0, 2000, 1000, 0])
  {
    hide RawAt;
    var es := TwoExchanges(500, 2000);
    forall i: nat | i < 6
      ensures RawAt(own, sw, es, i) == [Some(500), Some(1000), None, Some(2000), Some(1000), None][i]
    {
      RawsOfTwoExchanges(own, sw, i);
    }
    assert Fed(own, sw, es, 1) == [0];
    assert Fed(own, sw, es, 2) == [0, 1];
    assert Fed(own, sw, es, 3) == [0, 1];
    assert Fed(own, sw, es, 4) == [0, 1, 3];
    assert Fed(own, sw, es, 5) == [0, 1, 3, 4];
  }

  lemma NotOneClock(own: seq<u8>, sw: u16)
    ensures !OneClock(own, sw, TwoExchanges(500, 2000), [500, 1000, 0, 2000, 1000, 0])
  {
    hide RawAt, OneClock, TrueTimes, Fed;
    var es, times := TwoExchanges(500, 2000), [500, 1000, 0, 2000, 1000, 0];
    FedOfTwoExchanges(own, sw);
    var fed := FedTimes(own, sw, es, 6, times);
    assert fed[2] == 2000 && fed[3] == 1000;
    RunClockExact(own, sw, es, times);
  }

  lemma NotARequest(own: seq<u8>, sw: u16, es: seq<Event>, i: nat)
    requires i < |es| && !es[i].FollowUp?
    ensures CaptureAt(own, sw, es, i) == None
  {
  }

  lemma {:induction false} UnwrapGoesBack(t: Tracker, hws: seq<u64>, times: seq<int>, n: nat)
    requires Observes(hws, times) && 0 < n < |times| && times[n - 1] - TWO_48 < times[n] < times[n - 1]
    ensures Unwrap(t, hws)[n] == (Unwrap(t, hws)[n - 1] + (times[n] - times[n - 1]) + TWO_48) % TWO_64
    decreases n
  {
    var t' := t.Combine(hws[0]).0;
    if n == 1 {
      assert t'.Full() == t.Combine(hws[0]).1;
      GoingBackAddsWrap(t', hws[1], times[0], times[1]);
    } else {
      UnwrapGoesBack(t', hws[1..], times[1..], n - 1);
    }
  }
}
