/** When the client acts at all: which Follow_Ups it accepts, when it sends a request, and
    which responses complete a sample. The conditions speak of the events of the run. */
module PtpProgress {
  import opened Bits
  import opened PtpClock
  import opened PtpPacket
  import opened PtpExchange
  import opened PtpPairing

  // ----- Pending Syncs -----

  /** Position of the two-step Sync that waits for its Follow_Up: the last Sync, unless it has
      been followed up or has expired. */
  function Pending(es: seq<Event>, k: nat): (p: Option<nat>)
    requires k <= |es|
    ensures p.Some? ==> p.value < k && es[p.value].Sync?
  {
    if k == 0 then None
    else
      var before := Pending(es, k - 1);
      match es[k - 1]
      case Sync(h, _) => if h.TwoStep() then Some(k - 1) else None
      case FollowUp(h, _) => if before.Some? && Completes(es, before.value, k - 1) then None else before
      case DelayResp(_) => before
      case Tick(expired) => if expired then None else before
  }

  lemma {:induction false} PendingIsStored(own: seq<u8>, sw: u16, es: seq<Event>, k: nat)
    requires k <= |es|
    ensures var p, sync := Pending(es, k), RunTo(own, sw, es, k).x.sync;
      && (sync.WaitingFollowUp? <==> p.Some?)
      && (p.Some? ==>
           && es[p.value].h.TwoStep() && sync.seqId == es[p.value].h.sequenceId
           && sync.src == es[p.value].h.sourcePortIdentity && sync.t2 == T2At(own, sw, es, p.value))
  {
    hide Pick, FromComponents;
    if k > 0 { PendingIsStored(own, sw, es, k - 1); }
  }

  predicate AcceptedAt(own: seq<u8>, sw: u16, es: seq<Event>, j: nat)
    requires j < |es|
  {
    es[j].FollowUp? && Accepts(RunTo(own, sw, es, j).x, es[j].h)
  }

  /** Over every run: a Follow_Up is accepted iff it completes the pending Sync. */
  lemma AcceptedExactly(own: seq<u8>, sw: u16, es: seq<Event>, j: nat)
    requires j < |es|
    ensures AcceptedAt(own, sw, es, j) <==> Pending(es, j).Some? && Completes(es, Pending(es, j).value, j)
  {
    PendingIsStored(own, sw, es, j);
    hide RunTo, Pending, T2At;
  }

  // ----- Requests -----

  /** Some Sync among the first k events carried a receive time. */
  function HadT2(own: seq<u8>, sw: u16, es: seq<Event>, k: nat): bool
    requires k <= |es|
  {
    k > 0 && (T2At(own, sw, es, k - 1).Some? || HadT2(own, sw, es, k - 1))
  }

  lemma {:induction false} StartsWithT2(own: seq<u8>, sw: u16, es: seq<Event>, k: nat)
    requires k <= |es|
    ensures var x := RunTo(own, sw, es, k).x;
      && (x.tracker.lastHwTs.Some? <==> HadT2(own, sw, es, k))
      && (x.sync.WaitingFollowUp? ==> x.times.lastHeader.Some?)
      && (x.times.t1.Some? ==> x.times.lastHeader.Some?)
  {
    hide Pick, FromComponents, FromNs;
    if k > 0 { StartsWithT2(own, sw, es, k - 1); }
  }

  /** The last Sync among the first k events. */
  function LastSync(es: seq<Event>, k: nat): (p: Option<nat>)
    requires k <= |es|
    ensures p.Some? ==> p.value < k && es[p.value].Sync?
  {
    if k == 0 then None else if es[k - 1].Sync? then Some(k - 1) else LastSync(es, k - 1)
  }

  /** Over every run: requests are built from the last Sync, one- or two-step. */
  lemma {:induction false} TemplateIsLastSync(own: seq<u8>, sw: u16, es: seq<Event>, k: nat)
    requires k <= |es|
    ensures RunTo(own, sw, es, k).x.times.lastHeader
         == if LastSync(es, k).Some? then Some(es[LastSync(es, k).value].h) else None
  {
    hide Pick, FromComponents, FromNs;
    if k > 0 { TemplateIsLastSync(own, sw, es, k - 1); }
  }

  /** Over every run: an accepted Follow_Up sends a request iff the packet can be built and
      sent and some Sync of the run carried a receive time. */
  lemma RequestsExactly(own: seq<u8>, sw: u16, es: seq<Event>, j: nat)
    requires j < |es|
    ensures RequestsAt(own, sw, es, j) <==> AcceptedAt(own, sw, es, j) && es[j].tx.Sent? && HadT2(own, sw, es, j)
  {
    StartsWithT2(own, sw, es, j);
    hide RunTo, HadT2;
  }

  // ----- Samples -----

  /** The event at position k emits a sample. */
  predicate EmitsAt(own: seq<u8>, sw: u16, es: seq<Event>, k: nat)
    requires k < |es|
  {
    RunTo(own, sw, es, k + 1).out != RunTo(own, sw, es, k).out
  }

  /** The last request since the last sample for which a capture was taken. */
  function LastRequest(own: seq<u8>, sw: u16, es: seq<Event>, k: nat): (r: Option<nat>)
    requires k <= |es|
    ensures r.Some? ==> r.value < k
  {
    if k == 0 || EmitsAt(own, sw, es, k - 1) then None
    else if CaptureAt(own, sw, es, k - 1).Some? then Some(k - 1)
    else LastRequest(own, sw, es, k - 1)
  }

  /** Since the last sample, a Sync with a receive time was handled, or a Follow_Up of one. */
  function HasT2(own: seq<u8>, sw: u16, es: seq<Event>, k: nat): bool
    requires k <= |es|
  {
    && k > 0 && !EmitsAt(own, sw, es, k - 1)
    && (|| T2At(own, sw, es, k - 1).Some?
        || (AcceptedAt(own, sw, es, k - 1) && T2At(own, sw, es, CompletedSync(own, sw, es, k - 1)).Some?)
        || HasT2(own, sw, es, k - 1))
  }

  /** The Sync an accepted Follow_Up completes. */
  function CompletedSync(own: seq<u8>, sw: u16, es: seq<Event>, j: nat): (p: nat)
    requires j < |es| && AcceptedAt(own, sw, es, j)
    ensures p < |es|
  {
    AcceptedExactly(own, sw, es, j);
    Pending(es, j).value
  }

  lemma {:induction false} StoredExactly(own: seq<u8>, sw: u16, es: seq<Event>, k: nat)
    requires k <= |es|
    ensures var x, r := RunTo(own, sw, es, k).x, LastRequest(own, sw, es, k);
      && x.times.delayReqSeq == (if r.Some? then Some(SeqAt(own, sw, es, r.value)) else None)
      && (r.Some? ==> x.times.t1.Some? && x.times.t3.Some?)
      && (x.times.t2.Some? <==> HasT2(own, sw, es, k))
  {
    if k > 0 {
      hide Pick, FromComponents, FromNs, CaptureAt, T2At, SeqAt;
      StoredExactly(own, sw, es, k - 1);
      StoredStep(own, sw, es, k - 1);
      hide RunTo, AcceptedAt, EmitsAt;
    }
  }

  lemma StoredStep(own: seq<u8>, sw: u16, es: seq<Event>, k: nat)
    requires k < |es|
    ensures var x, x' := RunTo(own, sw, es, k).x, RunTo(own, sw, es, k + 1).x;
      if EmitsAt(own, sw, es, k) then x'.times.delayReqSeq == None && x'.times.t2 == None
      else
        && x'.times.delayReqSeq
           == (if CaptureAt(own, sw, es, k).Some? then Some(SeqAt(own, sw, es, k)) else x.times.delayReqSeq)
        && (x.times.t1.Some? || AcceptedAt(own, sw, es, k) ==> x'.times.t1.Some?)
        && (x.times.t3.Some? || CaptureAt(own, sw, es, k).Some? ==> x'.times.t3.Some?)
        && (CaptureAt(own, sw, es, k).Some? ==> AcceptedAt(own, sw, es, k))
        && (x'.times.t2.Some? <==>
             || x.times.t2.Some? || T2At(own, sw, es, k).Some?
             || (AcceptedAt(own, sw, es, k) && T2At(own, sw, es, CompletedSync(own, sw, es, k)).Some?))
  {
    hide Pick, FromComponents, Pending;
    PendingIsStored(own, sw, es, k);
    if AcceptedAt(own, sw, es, k) { AcceptedExactly(own, sw, es, k); }
  }

  /** Over every run: an event emits a sample iff it is a Delay_Resp for this clock, or for
      none, with the number of the last request since the last sample for which a capture
      was taken, and a receive time is at hand. */
  lemma EmitsExactly(own: seq<u8>, sw: u16, es: seq<Event>, k: nat)
    requires k < |es|
    ensures var r := LastRequest(own, sw, es, k);
      EmitsAt(own, sw, es, k) <==>
        && es[k].DelayResp? && ForClock(es[k].h, own)
        && r.Some? && es[k].h.sequenceId == SeqAt(own, sw, es, r.value) && HasT2(own, sw, es, k)
  {
    StoredExactly(own, sw, es, k);
    if es[k].DelayResp? { MessageMeans(es[k].h, own); }
    EmitsStep(own, sw, es, k);
    hide RunTo, EmitsAt, Addressed, ForClock, SeqAt;
  }

  lemma EmitsStep(own: seq<u8>, sw: u16, es: seq<Event>, k: nat)
    requires k < |es|
    ensures var t := RunTo(own, sw, es, k).x.times;
      EmitsAt(own, sw, es, k) <==>
        && es[k].DelayResp? && Addressed(es[k].h, own) && t.delayReqSeq == Some(es[k].h.sequenceId)
        && t.t1.Some? && t.t2.Some? && t.t3.Some?
  {
    hide FromComponents;
    var s, s' := RunTo(own, sw, es, k), RunTo(own, sw, es, k + 1);
    assert s'.out == s.out || |s'.out| == |s.out| + 1;
  }
}
