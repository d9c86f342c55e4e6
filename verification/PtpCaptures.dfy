/** Where the send times of a run come from, and when one register content serves twice. */
module PtpCaptures {
  import opened Bits
  import opened PtpClock
  import opened PtpPacket
  import opened PtpExchange
  import opened PtpPairing

  // ----- Captures used more than once -----

  /** Number of the capture used last before position k. */
  function LastUsed(own: seq<u8>, sw: u16, es: seq<Event>, k: nat): Option<u32>
    requires k <= |es|
  {
    if k == 0 then None
    else
      var ts := CaptureAt(own, sw, es, k - 1);
      if ts.Some? then Some(ts.value.id) else LastUsed(own, sw, es, k - 1)
  }

  lemma {:induction false} LastUsedIsStored(own: seq<u8>, sw: u16, es: seq<Event>, k: nat)
    requires k <= |es|
    ensures RunTo(own, sw, es, k).x.times.lastEgressTsId == LastUsed(own, sw, es, k)
  {
    hide Pick, FromComponents, FromNs;
    if k > 0 { LastUsedIsStored(own, sw, es, k - 1); }
  }

  /** The request at position i used a capture, and it was the one used before. */
  predicate Repeats(own: seq<u8>, sw: u16, es: seq<Event>, i: nat)
    requires i < |es|
  {
    && CaptureAt(own, sw, es, i).Some? && LastUsed(own, sw, es, i).Some?
    && CaptureAt(own, sw, es, i).value.id == LastUsed(own, sw, es, i).value
  }

  /** Over every run: a request repeats the capture used before it iff its five reads are
      stale with respect to it. */
  lemma RepeatsExact(own: seq<u8>, sw: u16, es: seq<Event>, i: nat)
    requires i < |es|
    ensures Repeats(own, sw, es, i)
       <==> RequestsAt(own, sw, es, i) && LastUsed(own, sw, es, i).Some?
            && Stale(es[i].tx.readings, LastUsed(own, sw, es, i).value)
  {
    hide Pick, RunTo;
    LastUsedIsStored(own, sw, es, i);
    if RequestsAt(own, sw, es, i) && LastUsed(own, sw, es, i).Some? {
      StaleCaptureExact(es[i].tx.readings, LastUsed(own, sw, es, i).value);
    }
  }

  predicate ReadsAt(es: seq<Event>, i: nat, a: nat, id: u32)
    requires i < |es| && a < ATTEMPTS
  {
    es[i].FollowUp? && es[i].tx.Sent? && Holds(es[i].tx.readings[a], id)
  }

  /** The register numbers its captures upwards: a later transmission reads no smaller number. */
  ghost predicate NumbersRise(es: seq<Event>) {
    forall i, j, a, b, m, n | 0 <= i < j < |es| && 0 <= a < ATTEMPTS && 0 <= b < ATTEMPTS ::
      ReadsAt(es, i, a, m) && ReadsAt(es, j, b, n) ==> m <= n
  }

  lemma CaptureWasRead(own: seq<u8>, sw: u16, es: seq<Event>, i: nat) returns (a: nat)
    requires i < |es| && CaptureAt(own, sw, es, i).Some?
    ensures a < ATTEMPTS && ReadsAt(es, i, a, CaptureAt(own, sw, es, i).value.id)
  {
    hide RunTo;
    PickedWasRead(es[i].tx.readings, RunTo(own, sw, es, i).x.times.lastEgressTsId, 0);
    a :| 0 <= a < ATTEMPTS && Holds(es[i].tx.readings[a], CaptureAt(own, sw, es, i).value.id);
  }

  lemma CapturesRise(own: seq<u8>, sw: u16, es: seq<Event>, i: nat, j: nat)
    requires NumbersRise(es) && i < j < |es| && CaptureAt(own, sw, es, i).Some? && CaptureAt(own, sw, es, j).Some?
    ensures CaptureAt(own, sw, es, i).value.id <= CaptureAt(own, sw, es, j).value.id
  {
    hide CaptureAt;
    var a := CaptureWasRead(own, sw, es, i);
    var b := CaptureWasRead(own, sw, es, j);
  }

  /** Every request after i up to j that used a capture repeated one. */
  ghost predicate OnlyRepeats(own: seq<u8>, sw: u16, es: seq<Event>, i: nat, j: nat)
    requires j < |es|
  {
    forall k | i < k <= j :: CaptureAt(own, sw, es, k).Some? ==> Repeats(own, sw, es, k)
  }

  /** Two requests use the same capture iff all requests after the first, up to the
      second, repeat. */
  lemma {:induction false} SameCaptureExact(own: seq<u8>, sw: u16, es: seq<Event>, i: nat, j: nat)
    requires NumbersRise(es) && i <= j < |es| && CaptureAt(own, sw, es, i).Some?
    ensures var used := LastUsed(own, sw, es, j + 1);
      used.Some? && CaptureAt(own, sw, es, i).value.id <= used.value
      && (used.value == CaptureAt(own, sw, es, i).value.id <==> OnlyRepeats(own, sw, es, i, j))
    decreases j
  {
    hide CaptureAt;
    var ts := CaptureAt(own, sw, es, j);
    if i < j {
      SameCaptureExact(own, sw, es, i, j - 1);
      if ts.Some? {
        CapturesRise(own, sw, es, i, j);
        LastUsedBelow(own, sw, es, j);
      }
    }
  }

  /** A request uses no capture older than the last one used. */
  lemma {:induction false} LastUsedBelow(own: seq<u8>, sw: u16, es: seq<Event>, j: nat)
    requires NumbersRise(es) && j < |es| && CaptureAt(own, sw, es, j).Some? && LastUsed(own, sw, es, j).Some?
    ensures LastUsed(own, sw, es, j).value <= CaptureAt(own, sw, es, j).value.id
  {
    hide CaptureAt;
    var i := UsedAt(own, sw, es, j);
    CapturesRise(own, sw, es, i, j);
  }

  lemma {:induction false} UsedAt(own: seq<u8>, sw: u16, es: seq<Event>, k: nat) returns (i: nat)
    requires k <= |es| && LastUsed(own, sw, es, k).Some?
    ensures i < k && CaptureAt(own, sw, es, i).Some? && CaptureAt(own, sw, es, i).value.id == LastUsed(own, sw, es, k).value
  {
    if CaptureAt(own, sw, es, k - 1).Some? {
      i := k - 1;
    } else {
      i := UsedAt(own, sw, es, k - 1);
    }
  }

  /** Over every run whose register numbers rise: a later sample uses no older capture,
      and two samples use the same one iff all requests in between, the later sample's
      included, read stale. So captures are used at most once iff none of them does. */
  lemma CapturesUsedOnce(own: seq<u8>, sw: u16, es: seq<Event>, a: nat, b: nat)
    requires NumbersRise(es) && a < b < |RunTo(own, sw, es, |es|).out|
    ensures var oa, ob := RunTo(own, sw, es, |es|).out[a].origin, RunTo(own, sw, es, |es|).out[b].origin;
      && oa.request < ob.request < |es|
      && oa.capture.id <= ob.capture.id
      && (oa.capture.id == ob.capture.id <==> OnlyRepeats(own, sw, es, oa.request, ob.request))
  {
    hide CaptureAt, RunTo, SameSync, Completes;
    SamplesStayTogether(own, sw, es);
    var out := RunTo(own, sw, es, |es|).out;
    assert Genuine(own, sw, es, out[a]) && Genuine(own, sw, es, out[b]);
    SameCaptureExact(own, sw, es, out[a].origin.request, out[b].origin.request);
  }

  /** The captures of all samples are distinct when no request reads stale. */
  lemma FreshReadsDistinctCaptures(own: seq<u8>, sw: u16, es: seq<Event>)
    requires NumbersRise(es)
    requires forall i :: 0 <= i < |es| && RequestsAt(own, sw, es, i) && LastUsed(own, sw, es, i).Some? ==>
      !Stale(es[i].tx.readings, LastUsed(own, sw, es, i).value)
    ensures var out := RunTo(own, sw, es, |es|).out;
      forall a, b :: 0 <= a < b < |out| ==> out[a].origin.capture.id < out[b].origin.capture.id
  {
    hide CaptureAt, RunTo, RequestsAt, Stale, LastUsed, Genuine;
    var out := RunTo(own, sw, es, |es|).out;
    SamplesStayTogether(own, sw, es);
    forall a, b | 0 <= a < b < |out| ensures out[a].origin.capture.id < out[b].origin.capture.id {
      CapturesUsedOnce(own, sw, es, a, b);
      var j := out[b].origin.request;
      RepeatsExact(own, sw, es, j);
      assert CaptureAt(own, sw, es, j).Some? by { assert Genuine(own, sw, es, out[b]); CapturedFor(own, sw, es, out[b]); }
    }
  }

  lemma CapturedFor(own: seq<u8>, sw: u16, es: seq<Event>, em: Emission)
    requires Genuine(own, sw, es, em)
    ensures em.origin.request < em.at < |es| && CaptureAt(own, sw, es, em.origin.request) == Some(em.origin.capture)
  {
    hide CaptureAt, RunTo;
  }

  /** The pick is a given capture other than the last used one iff some read holds it and
      every valid read before that repeats the last used one. */
  lemma {:induction false} PickExact(readings: Readings, last: Option<u32>, mine: u32, from: nat)
    requires last != Some(mine) && from <= ATTEMPTS
    ensures var ts := Pick(readings, last, from);
      (ts.Some? && ts.value.id == mine)
      <==> exists a :: from <= a < ATTEMPTS && Holds(readings[a], mine) && OnlyLast(readings, last, from, a)
    decreases ATTEMPTS - from
  {
    var ts := Pick(readings, last, from);
    if from < ATTEMPTS {
      if Acceptable(readings[from], last, from) {
        assert ts == Some(readings[from].capture);
        if ts.value.id == mine {
          assert Holds(readings[from], mine) && OnlyLast(readings, last, from, from);
        }
      } else {
        PickExact(readings, last, mine, from + 1);
        if a :| from + 1 <= a < ATTEMPTS && Holds(readings[a], mine) && OnlyLast(readings, last, from + 1, a) {
          assert OnlyLast(readings, last, from, a);
        }
        if a :| from <= a < ATTEMPTS && Holds(readings[a], mine) && OnlyLast(readings, last, from, a) {
          assert a > from && OnlyLast(readings, last, from + 1, a);
        }
      }
    }
  }

  /** A capture is taken iff some read is valid and not the last used one, or the fifth is valid. */
  lemma {:induction false} PicksExactly(readings: Readings, last: Option<u32>, from: nat)
    requires from <= ATTEMPTS
    ensures Pick(readings, last, from).Some?
       <==> exists a :: from <= a < ATTEMPTS && readings[a].Reading? && readings[a].valid
                        && (last != Some(readings[a].capture.id) || a == 4)
    decreases ATTEMPTS - from
  {
    if from < ATTEMPTS && !Acceptable(readings[from], last, from) { PicksExactly(readings, last, from + 1); }
  }

  /** The valid reads from one position up to another all hold the last used capture. */
  predicate OnlyLast(readings: Readings, last: Option<u32>, from: nat, to: nat)
    requires to <= ATTEMPTS
  {
    forall b :: from <= b < to ==> readings[b].Reading? && readings[b].valid ==> last == Some(readings[b].capture.id)
  }

  /** Over every run: let `mine` be the number of the capture of the request at position i,
      not used before. T3 is the request's own send time iff some read shows it and every
      valid read before that still shows the capture used last. */
  lemma OwnCaptureExact(own: seq<u8>, sw: u16, es: seq<Event>, i: nat, mine: u32)
    requires i < |es| && LastUsed(own, sw, es, i) != Some(mine)
    ensures var ts := CaptureAt(own, sw, es, i);
      (ts.Some? && ts.value.id == mine)
      <==> RequestsAt(own, sw, es, i)
           && exists a :: 0 <= a < ATTEMPTS && Holds(es[i].tx.readings[a], mine)
                          && OnlyLast(es[i].tx.readings, LastUsed(own, sw, es, i), 0, a)
  {
    hide Pick, RunTo, LastUsed, OnlyLast, Holds;
    LastUsedIsStored(own, sw, es, i);
    if RequestsAt(own, sw, es, i) {
      PickExact(es[i].tx.readings, LastUsed(own, sw, es, i), mine, 0);
    }
  }

  // ----- Runs in which a send time is not the request's own -----

  /** A register content that every read of both requests shows. */
  const CAPTURE: Capture := Capture(1000, 7)
  const OLD: Reading := Reading(true, CAPTURE)
  const STALE: Transmission := Sent([OLD, OLD, OLD, OLD, OLD])

  const PORT: seq<u8> := [0, 0, 0, 0, 0, 0, 0, 0, 0, 1]

  function Message(msgType: u8, flags: u16, seqId: u16): PtpHeader {
    PtpHeader(msgType, 2, 44, 0, flags, 0, PORT, seqId, 0, 0, 0, None)
  }

  /** Two complete exchanges with the given receive times of the Syncs. */
  function TwoExchanges(first: u64, second: u64): seq<Event> {
    [Event.Sync(Message(0, 0x200, 5), Some(first)), FollowUp(Message(8, 0, 5), STALE), DelayResp(Message(9, 0, 1)),
     Event.Sync(Message(0, 0x200, 6), Some(second)), FollowUp(Message(8, 0, 6), STALE), DelayResp(Message(9, 0, 2))]
  }

  lemma PickedOld()
    ensures Pick(STALE.readings, None, 0) == Some(CAPTURE) && Pick(STALE.readings, Some(7), 0) == Some(CAPTURE)
  {
    var readings := STALE.readings;
    assert Pick(readings, Some(7), 4) == Some(CAPTURE);
    assert Pick(readings, Some(7), 3) == Pick(readings, Some(7), 4);
    assert Pick(readings, Some(7), 2) == Pick(readings, Some(7), 3);
    assert Pick(readings, Some(7), 1) == Pick(readings, Some(7), 2);
  }

  /** The first exchange, with a receive time not after the capture. */
  lemma FirstExchange(own: seq<u8>, sw: u16, first: u64, second: u64)
    requires first <= 1000
    ensures var s := RunTo(own, sw, TwoExchanges(first, second), 3);
      && |s.out| == 1 && s.out[0].origin.request == 1 && s.out[0].origin.capture == CAPTURE
      && s.out[0].sample.t3 == FromNs(sw * TWO_48 + 1000)
      && s.x.tracker == Tracker(sw, Some(1000)) && s.x.times.lastEgressTsId == Some(7)
      && s.x.delayReqSeq == 2 && s.x.times.lastHeader.Some? && s.x.times.t1 == None
    ensures RequestsAt(own, sw, TwoExchanges(first, second), 1)
      && CaptureAt(own, sw, TwoExchanges(first, second), 1) == Some(CAPTURE)
  {
    var es := TwoExchanges(first, second);
    assert Message(0, 0x200, 5).TwoStep();
    PickedOld();
    var s0, s1 := RunTo(own, sw, es, 0), RunTo(own, sw, es, 1);
    assert s1 == Advance(own, s0, es[0], 0);
    assert s1.x.tracker == Tracker(sw, Some(first)) && s1.x.sync.WaitingFollowUp? && s1.x.times.lastEgressTsId == None;
    hide Pick;
    var s2, s3 := RunTo(own, sw, es, 2), RunTo(own, sw, es, 3);
    assert s2 == Advance(own, s1, es[1], 1);
    assert s2.x.tracker == Tracker(sw, Some(1000)) && s2.x.times.delayReqSeq == Some(1) && s2.x.delayReqSeq == 2;
    assert s3 == Advance(own, s2, es[2], 2);
  }

  lemma NewerRead(sw: u16, last: u48, hw: u48)
    requires last <= hw
    ensures Tracker(sw, Some(last)).Combine(hw) == (Tracker(sw, Some(hw)), sw * TWO_48 + hw)
  {
  }

  lemma SecondSync(own: seq<u8>, sw: u16, first: u64, second: u64)
    requires first <= 1000 <= second < TWO_48
    ensures var es := TwoExchanges(first, second);
      var s3, s4 := RunTo(own, sw, es, 3), RunTo(own, sw, es, 4);
      && s4.out == s3.out && s4.o.pending == 3
      && s4.x.tracker == Tracker(sw, Some(second)) && s4.x.times.lastEgressTsId == Some(7)
      && s4.x.delayReqSeq == 2 && s4.x.times.lastHeader.Some?
      && s4.x.sync == WaitingFollowUp(6, PORT, Some(FromNs(sw * TWO_48 + second)))
  {
    var es := TwoExchanges(first, second);
    assert Message(0, 0x200, 6).TwoStep();
    FirstExchange(own, sw, first, second);
    NewerRead(sw, 1000, second);
    hide Pick, FromNs, Tracker.Combine;
    var s3, s4 := RunTo(own, sw, es, 3), RunTo(own, sw, es, 4);
    assert s4 == Advance(own, s3, es[3], 3);
    hide RunTo;
  }

  /** The second request: all five reads give the old capture, after a receive time that
      is or is not newer than it. */
  lemma SecondRequest(own: seq<u8>, sw: u16, first: u64, second: u64)
    requires first <= 1000 <= second < TWO_48
    ensures var es := TwoExchanges(first, second);
      var s3, s5 := RunTo(own, sw, es, 3), RunTo(own, sw, es, 5);
      && s5.out == s3.out && s5.o.request == 4 && s5.o.capture == CAPTURE && s5.o.t2 == 3
      && s5.x.times.delayReqSeq == Some(2) && s5.x.times.t1.Some?
      && s5.x.times.t2 == Some(FromNs(sw * TWO_48 + second))
      && s5.x.times.t3 == Some(FromNs((if second > 1000 then (sw + 1) % 0x1_0000 else sw) * TWO_48 + 1000))
    ensures RequestsAt(own, sw, TwoExchanges(first, second), 4)
      && CaptureAt(own, sw, TwoExchanges(first, second), 4) == Some(CAPTURE)
  {
    var es := TwoExchanges(first, second);
    PickedOld();
    SecondSync(own, sw, first, second);
    hide Pick, FromNs;
    var s4, s5 := RunTo(own, sw, es, 4), RunTo(own, sw, es, 5);
    assert s5 == Advance(own, s4, es[4], 4);
    hide RunTo;
  }

  lemma SecondExchange(own: seq<u8>, sw: u16, first: u64, second: u64)
    requires first <= 1000 <= second < TWO_48
    ensures var out := RunTo(own, sw, TwoExchanges(first, second), 6).out;
      && |out| == 2 && out[0].origin.request == 1 && out[1].origin.request == 4
      && out[0].origin.capture == out[1].origin.capture == CAPTURE
      && out[0].sample.t3 == FromNs(sw * TWO_48 + 1000)
      && out[1].origin.t2 == 3 && out[1].sample.t2 == FromNs(sw * TWO_48 + second)
      && out[1].sample.t3 == FromNs((if second > 1000 then (sw + 1) % 0x1_0000 else sw) * TWO_48 + 1000)
  {
    var es := TwoExchanges(first, second);
    FirstExchange(own, sw, first, second);
    SecondRequest(own, sw, first, second);
    hide FromNs;
    var s5, s6 := RunTo(own, sw, es, 5), RunTo(own, sw, es, 6);
    assert s6 == Advance(own, s5, es[5], 5);
    hide RunTo;
    assert OnDelayResp(s5.x, es[5].h, own).1.Some?;
  }

  /** On this run both samples carry the send time of the first Delay_Req. */
  lemma StaleCaptureUsedTwice(own: seq<u8>, sw: u16)
    ensures var out := RunTo(own, sw, TwoExchanges(1000, 1000), 6).out;
      && |out| == 2 && out[0].origin.request == 1 && out[1].origin.request == 4
      && out[0].origin.capture == out[1].origin.capture == CAPTURE
      && out[0].sample.t3 == out[1].sample.t3
  {
    hide RunTo;
    SecondExchange(own, sw, 1000, 1000);
  }

  /** A sample whose halves come from two exchanges: T1 and T2 of the second, T3 and T4 of
      the first, because no read of the second request was valid. */
  const MIXED: seq<Event> :=
    [Event.Sync(Message(0, 0x200, 5), Some(500)), FollowUp(Message(8, 0, 5), STALE),
     Event.Sync(Message(0, 0x200, 6), Some(2000)),
     FollowUp(Message(8, 0, 6), Sent([Unavailable, Unavailable, Unavailable, Unavailable, Unavailable])),
     DelayResp(Message(9, 0, 1))]

  lemma NothingPicked(last: Option<u32>)
    ensures Pick([Unavailable, Unavailable, Unavailable, Unavailable, Unavailable], last, 0) == None
  {
    var readings := [Unavailable, Unavailable, Unavailable, Unavailable, Unavailable];
    assert Pick(readings, last, 5) == None;
    assert Pick(readings, last, 4) == None && Pick(readings, last, 3) == None && Pick(readings, last, 2) == None;
    assert Pick(readings, last, 1) == None;
  }

  lemma HalvesOfTwoExchanges(own: seq<u8>, sw: u16)
    ensures var out := RunTo(own, sw, MIXED, 5).out;
      && |out| == 1
      && out[0].origin.sync == out[0].origin.t2 == 2 && out[0].origin.followUp == 3
      && out[0].origin.request == 1 && out[0].at == 4 && !OneExchange(out[0].origin)
  {
    var es := MIXED;
    assert Message(0, 0x200, 5).TwoStep() && Message(0, 0x200, 6).TwoStep();
    PickedOld();
    NothingPicked(Some(7));
    hide Pick, FromNs, FromComponents;
    var s0, s1 := RunTo(own, sw, es, 0), RunTo(own, sw, es, 1);
    assert s1 == Advance(own, s0, es[0], 0);
    assert s1.x.sync.WaitingFollowUp? && s1.x.times.lastEgressTsId == None;
    var s2 := RunTo(own, sw, es, 2);
    assert s2 == Advance(own, s1, es[1], 1);
    assert s2.x.times.delayReqSeq == Some(1) && s2.x.times.lastEgressTsId == Some(7) && s2.o.request == 1;
    var s3 := RunTo(own, sw, es, 3);
    assert s3 == Advance(own, s2, es[2], 2);
    assert s3.x.sync.WaitingFollowUp? && s3.o.pending == 2;
    var s4 := RunTo(own, sw, es, 4);
    assert s4 == Advance(own, s3, es[3], 3);
    assert s4.x.times.delayReqSeq == Some(1) && s4.o.request == 1 && s4.o.followUp == 3;
    var s5 := RunTo(own, sw, es, 5);
    assert s5 == Advance(own, s4, es[4], 4);
  }
}
