/** The message exchange of the PTP client (clause 11.3 of IEEE 1588-2008): a Sync and
    its Follow_Up give T2 and T1, the Delay_Req sent upon the Follow_Up gives T3, and
    its Delay_Resp gives T4. */
module PtpExchange {
  import opened Bits
  import opened PtpClock
  import opened PtpPacket

  datatype SyncState =
    | Idle
    | WaitingFollowUp(seqId: u16, src: seq<u8>, t2: Option<PtpTime>)

  datatype SyncTimes = SyncTimes(
    t1: Option<PtpTime>, t2: Option<PtpTime>, lastHeader: Option<PtpHeader>, t3: Option<PtpTime>, t4: Option<PtpTime>,
    cfFollowupNs: int, cfDelayrespNs: int, delayReqSeq: Option<u16>, lastEgressTsId: Option<u32>)

  datatype Sample = Sample(t1: PtpTime, t2: PtpTime, t3: PtpTime, t4: PtpTime, cfFollowupNs: int, cfDelayrespNs: int)

  /** What the egress timestamp register holds: a send time and its number. */
  datatype Capture = Capture(rawHwNs: u64, id: u32)

  /** One read of the register. */
  datatype Reading = Unavailable | Reading(valid: bool, capture: Capture)

  const ATTEMPTS := 5

  type Readings = s: seq<Reading> | |s| == ATTEMPTS
    witness [Unavailable, Unavailable, Unavailable, Unavailable, Unavailable]

  /** Whether the Delay_Req could be built and sent, and the five reads that follow. */
  datatype Transmission = NotSent | Sent(readings: Readings)

  /** Everything the client keeps between messages. */
  datatype Exchange = Exchange(sync: SyncState, times: SyncTimes, tracker: Tracker, delayReqSeq: u16)

  // ----- Step functions -----

  function OnSync(x: Exchange, h: PtpHeader, rawT2: Option<u64>): Exchange {
    var tracker := if rawT2.Some? then x.tracker.Combine(rawT2.value).0 else x.tracker;
    var t2 := if rawT2.Some? then Some(FromNs(x.tracker.Combine(rawT2.value).1)) else None;
    x.(tracker := tracker,
       times := x.times.(t2 := if t2.Some? then t2 else x.times.t2, lastHeader := Some(h)),
       sync := if h.TwoStep() then WaitingFollowUp(h.sequenceId, h.sourcePortIdentity, t2) else Idle)
  }

  predicate Accepts(x: Exchange, h: PtpHeader) {
    x.sync.WaitingFollowUp? && h.sequenceId == x.sync.seqId && h.sourcePortIdentity == x.sync.src
  }

  function OnFollowUp(x: Exchange, h: PtpHeader): Exchange {
    if !Accepts(x, h) then x
    else
      x.(sync := Idle,
         times := x.times.(t1 := Some(h.OriginTime()), cfFollowupNs := h.CorrectionNs(),
                           t2 := if x.sync.t2.Some? then x.sync.t2 else x.times.t2))
  }

  /** A valid timestamp that is not the previous one; the last attempt takes any. */
  predicate Acceptable(r: Reading, last: Option<u32>, attempt: nat) {
    r.Reading? && r.valid && (last != Some(r.capture.id) || attempt == ATTEMPTS - 1)
  }

  function Pick(readings: seq<Reading>, last: Option<u32>, attempt: nat): Option<Capture>
    decreases |readings| - attempt
  {
    if attempt >= |readings| then None
    else if Acceptable(readings[attempt], last, attempt) then Some(readings[attempt].capture)
    else Pick(readings, last, attempt + 1)
  }

  /** Whether the Delay_Req of a transmission goes out at all. */
  predicate GoesOut(x: Exchange, tx: Transmission) {
    x.tracker.lastHwTs.Some? && x.times.lastHeader.Some? && tx.Sent?
  }

  function CaptureFor(x: Exchange, tx: Transmission): Option<Capture> {
    if GoesOut(x, tx) then Pick(tx.readings, x.times.lastEgressTsId, 0) else None
  }

  function SendDelayRequest(x: Exchange, tx: Transmission): Exchange {
    if !GoesOut(x, tx) then x
    else
      var next := x.(delayReqSeq := (x.delayReqSeq + 1) % 0x1_0000);
      var ts := CaptureFor(x, tx);
      if ts.None? then next
      else
        var (tracker, full) := x.tracker.Combine(ts.value.rawHwNs);
        next.(tracker := tracker,
              times := x.times.(t3 := Some(FromNs(full)), delayReqSeq := Some(x.delayReqSeq),
                                lastEgressTsId := Some(ts.value.id)))
  }

  /** A response to another clock is ignored; one without the field is not filtered. */
  predicate Addressed(h: PtpHeader, own: seq<u8>) {
    h.requestingPortIdentity.Some? ==>
      |h.requestingPortIdentity.value| >= 8 && h.requestingPortIdentity.value[..8] == own
  }

  function TakeCompleteSample(t: SyncTimes): (SyncTimes, Option<Sample>) {
    if t.t1.Some? && t.t2.Some? && t.t3.Some? && t.t4.Some? then
      (t.(t1 := None, t2 := None, t3 := None, t4 := None, cfFollowupNs := 0, cfDelayrespNs := 0, delayReqSeq := None),
       Some(Sample(t.t1.value, t.t2.value, t.t3.value, t.t4.value, t.cfFollowupNs, t.cfDelayrespNs)))
    else (t, None)
  }

  function OnDelayResp(x: Exchange, h: PtpHeader, own: seq<u8>): (Exchange, Option<Sample>) {
    if !Addressed(h, own) || x.times.delayReqSeq != Some(h.sequenceId) then (x, None)
    else
      var (times, sample) :=
        TakeCompleteSample(x.times.(t4 := Some(h.OriginTime()), cfDelayrespNs := h.CorrectionNs()));
      (x.(times := times), sample)
  }

  function OnTick(x: Exchange, expired: bool): Exchange {
    if x.sync.WaitingFollowUp? && expired then x.(sync := Idle) else x
  }

  // ----- The client -----

  class PtpClient {
    var state: SyncState
    var syncTimes: SyncTimes
    var delayReqSeq: u16
    const tsTracker: TimestampTracker

    ghost function Contents(): Exchange
      reads this, tsTracker
    {
      Exchange(state, syncTimes, tsTracker.Contents(), delayReqSeq)
    }

    constructor (initialSwTs: u16)
      ensures fresh(tsTracker)
      ensures Contents() == InitialExchange(initialSwTs)
    {
      state := Idle;
      syncTimes := SyncTimes(None, None, None, None, None, 0, 0, None, None);
      delayReqSeq := 1;
      tsTracker := new TimestampTracker(initialSwTs);
    }

    /** The ticker drops a pending Sync whose deadline has passed. */
    method Tick(expired: bool)
      modifies this`state
      ensures Contents() == OnTick(old(Contents()), expired)
    {
      if state.WaitingFollowUp? && expired {
        state := Idle;
      }
    }

    method ReconstructT2(rawT2: Option<u64>) returns (t2: Option<PtpTime>)
      modifies tsTracker
      ensures rawT2.None? ==> t2.None? && tsTracker.Contents() == old(tsTracker.Contents())
      ensures rawT2.Some? ==>
        var (tracker, full) := old(tsTracker.Contents()).Combine(rawT2.value);
        t2 == Some(FromNs(full)) && tsTracker.Contents() == tracker
    {
      if rawT2.None? {
        return None;
      }
      var full := tsTracker.Combine(rawT2.value);
      t2 := Some(FromNs(full));
    }

    method HandleSync(h: PtpHeader, rawT2: Option<u64>)
      modifies this`state, this`syncTimes, tsTracker
      ensures Contents() == OnSync(old(Contents()), h, rawT2)
    {
      var t2 := ReconstructT2(rawT2);
      if t2.Some? {
        syncTimes := syncTimes.(t2 := t2);
      }
      syncTimes := syncTimes.(lastHeader := Some(h));
      if h.TwoStep() {
        state := WaitingFollowUp(h.sequenceId, h.sourcePortIdentity, t2);
      } else {
        state := Idle;
      }
    }

    method HandleFollowUp(h: PtpHeader) returns (matched: bool)
      modifies this`state, this`syncTimes
      ensures matched == Accepts(old(Contents()), h)
      ensures Contents() == OnFollowUp(old(Contents()), h)
    {
      if state.WaitingFollowUp? {
        if h.sequenceId == state.seqId && h.sourcePortIdentity == state.src {
          syncTimes := syncTimes.(t1 := Some(h.OriginTime()));
          syncTimes := syncTimes.(cfFollowupNs := h.CorrectionNs());
          if state.t2.Some? {
            syncTimes := syncTimes.(t2 := state.t2);
          }
          state := Idle;
          return true;
        }
      }
      return false;
    }

    /** Up to five reads of the egress timestamp; stale and invalid ones are retried. */
    method ReadEgressTimestamp(readings: Readings, last: Option<u32>) returns (ts: Option<Capture>)
      ensures ts == Pick(readings, last, 0)
    {
      ts := None;
      for attempt := 0 to ATTEMPTS
        invariant ts == None && Pick(readings, last, 0) == Pick(readings, last, attempt)
      {
        var r := readings[attempt];
        if r.Reading? && r.valid {
          if last == Some(r.capture.id) {
            if attempt < ATTEMPTS - 1 {
              continue;
            }
          }
          return Some(r.capture);
        }
      }
    }

    method SendDelayReq(tx: Transmission)
      modifies this`syncTimes, this`delayReqSeq, tsTracker
      ensures Contents() == SendDelayRequest(old(Contents()), tx)
    {
      if tsTracker.lastHwTs.None? || syncTimes.lastHeader.None? || tx.NotSent? {
        return;
      }
      var ts := ReadEgressTimestamp(tx.readings, syncTimes.lastEgressTsId);
      if ts.Some? {
        var fullT3 := tsTracker.Combine(ts.value.rawHwNs);
        syncTimes := syncTimes.(t3 := Some(FromNs(fullT3)));
        syncTimes := syncTimes.(delayReqSeq := Some(delayReqSeq));
        syncTimes := syncTimes.(lastEgressTsId := Some(ts.value.id));
      }
      delayReqSeq := (delayReqSeq + 1) % 0x1_0000;
    }

    method HandleDelayResp(h: PtpHeader, own: seq<u8>) returns (sample: Option<Sample>)
      modifies this`syncTimes
      ensures (Contents(), sample) == OnDelayResp(old(Contents()), h, own)
    {
      sample := None;
      if h.requestingPortIdentity.Some? {
        var rpi := h.requestingPortIdentity.value;
        if |rpi| < 8 || rpi[..8] != own {
          return;
        }
      }
      if syncTimes.delayReqSeq.Some? {
        if h.sequenceId != syncTimes.delayReqSeq.value {
          return;
        }
      } else {
        return;
      }
      syncTimes := syncTimes.(t4 := Some(h.OriginTime()));
      syncTimes := syncTimes.(cfDelayrespNs := h.CorrectionNs());
      var (times, complete) := TakeCompleteSample(syncTimes);
      syncTimes, sample := times, complete;
    }
  }

  function InitialExchange(initialSwTs: u16): Exchange {
    Exchange(Idle, SyncTimes(None, None, None, None, None, 0, 0, None, None), Tracker(initialSwTs, None), 1)
  }

  // ----- Stale egress timestamps -----

  predicate Holds(r: Reading, id: u32) {
    r.Reading? && r.valid && r.capture.id == id
  }

  /** None of the first four reads gave a new timestamp, and the fifth gave the old one. */
  predicate Stale(readings: Readings, last: u32) {
    && Holds(readings[4], last)
    && forall i :: 0 <= i < 4 ==> readings[i].Reading? && readings[i].valid ==> Holds(readings[i], last)
  }

  /** The capture taken for a Delay_Req is a repetition of the previous one iff the reads
      are stale. */
  lemma StaleCaptureExact(readings: Readings, last: u32)
    ensures var ts := Pick(readings, Some(last), 0);
      (ts.Some? && ts.value.id == last) <==> Stale(readings, last)
  {
    var p4, p3, p2, p1 := Pick(readings, Some(last), 4), Pick(readings, Some(last), 3),
                          Pick(readings, Some(last), 2), Pick(readings, Some(last), 1);
    assert Pick(readings, Some(last), 5) == None;
    assert p4 == if Acceptable(readings[4], Some(last), 4) then Some(readings[4].capture) else None;
    assert p3 == if Acceptable(readings[3], Some(last), 3) then Some(readings[3].capture) else p4;
    assert p2 == if Acceptable(readings[2], Some(last), 2) then Some(readings[2].capture) else p3;
    assert p1 == if Acceptable(readings[1], Some(last), 1) then Some(readings[1].capture) else p2;
  }

  /** Whatever is taken was read. */
  lemma {:induction false} PickedWasRead(readings: seq<Reading>, last: Option<u32>, attempt: nat)
    ensures var ts := Pick(readings, last, attempt);
      ts.Some? ==> exists a :: 0 <= a < |readings| && Holds(readings[a], ts.value.id)
    decreases |readings| - attempt
  {
    if attempt < |readings| && !Acceptable(readings[attempt], last, attempt) {
      PickedWasRead(readings, last, attempt + 1);
    } else if attempt < |readings| {
      assert Holds(readings[attempt], readings[attempt].capture.id);
    }
  }
}
