/** Which messages the four timestamps of a servo sample come from, over every
    interleaving of messages, lost messages, timeouts and failed register reads. */
module PtpPairing {
  import opened Bits
  import opened PtpClock
  import opened PtpPacket
  import opened PtpExchange

  datatype Event =
    | Sync(h: PtpHeader, rawT2: Option<u64>)
    | FollowUp(h: PtpHeader, tx: Transmission)
    | DelayResp(h: PtpHeader)
    | Tick(expired: bool)

  /** Positions, in the run, of the events the stored values come from, and the register
      content the stored send time was taken from. */
  datatype Origins = Origins(pending: nat, followUp: nat, sync: nat, t2: nat, request: nat, capture: Capture)

  /** A sample emitted by event `at`, and where its parts come from. */
  datatype Emission = Emission(at: nat, sample: Sample, origin: Origins)

  datatype History = History(x: Exchange, o: Origins, out: seq<Emission>)

  function Advance(own: seq<u8>, s: History, e: Event, k: nat): History {
    match e
    case Sync(h, rawT2) =>
      s.(x := OnSync(s.x, h, rawT2), o := s.o.(pending := k, t2 := if rawT2.Some? then k else s.o.t2))
    case FollowUp(h, tx) =>
      if !Accepts(s.x, h) then s
      else
        var x := OnFollowUp(s.x, h);
        var ts := CaptureFor(x, tx);
        s.(x := SendDelayRequest(x, tx),
           o := s.o.(followUp := k, sync := s.o.pending, t2 := if s.x.sync.t2.Some? then s.o.pending else s.o.t2,
                     request := if ts.Some? then k else s.o.request,
                     capture := if ts.Some? then ts.value else s.o.capture))
    case DelayResp(h) =>
      var (x, sample) := OnDelayResp(s.x, h, own);
      s.(x := x, out := if sample.Some? then s.out + [Emission(k, sample.value, s.o)] else s.out)
    case Tick(expired) =>
      s.(x := OnTick(s.x, expired))
  }

  /** The client after the first k events of a run. */
  function RunTo(own: seq<u8>, sw: u16, es: seq<Event>, k: nat): History
    requires k <= |es|
  {
    if k == 0 then History(InitialExchange(sw), Origins(0, 0, 0, 0, 0, Capture(0, 0)), [])
    else Advance(own, RunTo(own, sw, es, k - 1), es[k - 1], k - 1)
  }

  // ----- What an event of a run carried -----

  /** Receive time of the Sync at position i, when its frame carried one. */
  function T2At(own: seq<u8>, sw: u16, es: seq<Event>, i: nat): Option<PtpTime>
    requires i < |es|
  {
    if es[i].Sync? && es[i].rawT2.Some?
    then Some(FromNs(RunTo(own, sw, es, i).x.tracker.Combine(es[i].rawT2.value).1))
    else None
  }

  /** The Follow_Up at position i sends a Delay_Req. */
  predicate RequestsAt(own: seq<u8>, sw: u16, es: seq<Event>, i: nat)
    requires i < |es|
  {
    && es[i].FollowUp? && Accepts(RunTo(own, sw, es, i).x, es[i].h)
    && GoesOut(OnFollowUp(RunTo(own, sw, es, i).x, es[i].h), es[i].tx)
  }

  /** The register content taken for the Delay_Req sent at position i. */
  function CaptureAt(own: seq<u8>, sw: u16, es: seq<Event>, i: nat): Option<Capture>
    requires i < |es|
  {
    if RequestsAt(own, sw, es, i) then Pick(es[i].tx.readings, RunTo(own, sw, es, i).x.times.lastEgressTsId, 0) else None
  }

  /** The send time stored for it. */
  function T3At(own: seq<u8>, sw: u16, es: seq<Event>, i: nat): Option<PtpTime>
    requires i < |es|
  {
    var ts := CaptureAt(own, sw, es, i);
    if ts.None? then None else Some(FromNs(RunTo(own, sw, es, i).x.tracker.Combine(ts.value.rawHwNs).1))
  }

  /** Sequence identifier of a Delay_Req sent at position i. */
  function SeqAt(own: seq<u8>, sw: u16, es: seq<Event>, i: nat): u16
    requires i < |es|
  {
    RunTo(own, sw, es, i).x.delayReqSeq
  }

  /** The Follow_Up at position j completes the two-step Sync at position p. */
  predicate Completes(es: seq<Event>, p: nat, j: nat) {
    && p < j < |es| && es[p].Sync? && es[j].FollowUp?
    && es[p].h.TwoStep() && es[j].h.sequenceId == es[p].h.sequenceId
    && es[j].h.sourcePortIdentity == es[p].h.sourcePortIdentity
  }

  /** No Sync with a receive time among the events from lo up to hi. */
  ghost predicate NoT2(own: seq<u8>, sw: u16, es: seq<Event>, lo: nat, hi: nat)
    requires hi <= |es|
  {
    forall i :: lo <= i < hi ==> T2At(own, sw, es, i).None?
  }

  ghost predicate SameSync(own: seq<u8>, sw: u16, es: seq<Event>, o: Origins, k: nat)
    requires k <= |es| && o.sync < |es|
  {
    o.t2 == o.sync <==> T2At(own, sw, es, o.sync).Some? && NoT2(own, sw, es, o.followUp + 1, k)
  }

  // ----- Invariant -----

  ghost predicate PendingOk(own: seq<u8>, sw: u16, es: seq<Event>, k: nat)
    requires k <= |es|
  {
    var s := RunTo(own, sw, es, k);
    s.x.sync.WaitingFollowUp? ==>
      var p := s.o.pending;
      && p < k && es[p].Sync? && es[p].h.TwoStep()
      && es[p].h.sequenceId == s.x.sync.seqId && es[p].h.sourcePortIdentity == s.x.sync.src
      && s.x.sync.t2 == T2At(own, sw, es, p)
  }

  ghost predicate T1Ok(own: seq<u8>, sw: u16, es: seq<Event>, k: nat)
    requires k <= |es|
  {
    var s := RunTo(own, sw, es, k);
    s.x.times.t1.Some? ==>
      && s.o.followUp < k && Completes(es, s.o.sync, s.o.followUp)
      && s.x.times.t1.value == es[s.o.followUp].h.OriginTime()
      && s.x.times.cfFollowupNs == es[s.o.followUp].h.CorrectionNs()
  }

  ghost predicate T2Ok(own: seq<u8>, sw: u16, es: seq<Event>, k: nat)
    requires k <= |es|
  {
    var s := RunTo(own, sw, es, k);
    && (s.x.times.t2.Some? ==> s.o.t2 < k && T2At(own, sw, es, s.o.t2) == s.x.times.t2)
    && (s.x.times.t1.Some? && s.x.times.t2.Some? ==> s.o.sync < k && SameSync(own, sw, es, s.o, k))
  }

  ghost predicate ReverseOk(own: seq<u8>, sw: u16, es: seq<Event>, k: nat)
    requires k <= |es|
  {
    var s := RunTo(own, sw, es, k);
    s.x.times.delayReqSeq.Some? ==>
      && s.o.request < k && s.x.times.t3.Some?
      && s.x.times.t3 == T3At(own, sw, es, s.o.request)
      && CaptureAt(own, sw, es, s.o.request) == Some(s.o.capture)
      && s.x.times.delayReqSeq.value == SeqAt(own, sw, es, s.o.request)
  }

  /** The time a message states, in nanoseconds of at most 64 bits. */
  predicate StatedTime(t: PtpTime, h: PtpHeader) {
    && t.seconds == h.originSeconds && t.nanoseconds == h.originNanoseconds
    && t.rawNs == Min(h.originSeconds * 1_000_000_000 + h.originNanoseconds, 0xFFFF_FFFF_FFFF_FFFF)
  }

  /** The correction field counts units of 2^-16 ns, of which whole nanoseconds are kept. */
  predicate Corrects(ns: int, h: PtpHeader) {
    ns * 0x1_0000 <= h.correctionField < (ns + 1) * 0x1_0000
  }

  /** A response names the clock it is for, or none. */
  predicate ForClock(h: PtpHeader, own: seq<u8>) {
    || h.requestingPortIdentity == None
    || (|h.requestingPortIdentity.value| >= 8 && h.requestingPortIdentity.value[..8] == own)
  }

  lemma MessageMeans(h: PtpHeader, own: seq<u8>)
    ensures StatedTime(h.OriginTime(), h) && Corrects(h.CorrectionNs(), h) && (Addressed(h, own) <==> ForClock(h, own))
  {
  }

  /** The sample belongs to the messages named by its origins. */
  ghost predicate Genuine(own: seq<u8>, sw: u16, es: seq<Event>, em: Emission)
  {
    var o, s := em.origin, em.sample;
    && em.at < |es| && es[em.at].DelayResp? && ForClock(es[em.at].h, own)
    && StatedTime(s.t4, es[em.at].h) && Corrects(s.cfDelayrespNs, es[em.at].h)
    && o.request < em.at && T3At(own, sw, es, o.request) == Some(s.t3)
    && CaptureAt(own, sw, es, o.request) == Some(o.capture)
    && es[em.at].h.sequenceId == SeqAt(own, sw, es, o.request)
    && o.followUp < em.at && Completes(es, o.sync, o.followUp)
    && StatedTime(s.t1, es[o.followUp].h) && Corrects(s.cfFollowupNs, es[o.followUp].h)
    && o.t2 < em.at && T2At(own, sw, es, o.t2) == Some(s.t2)
    && SameSync(own, sw, es, o, em.at)
  }

  ghost predicate GenuineOk(own: seq<u8>, sw: u16, es: seq<Event>, k: nat)
    requires k <= |es|
  {
    var out := RunTo(own, sw, es, k).out;
    forall a :: 0 <= a < |out| ==> out[a].at < k && Genuine(own, sw, es, out[a])
  }

  /** Emissions in order, none using a T1 or a T3 from before its predecessor's end. */
  ghost predicate Ordered(out: seq<Emission>) {
    forall a, b :: 0 <= a < b < |out| ==>
      out[a].at < out[b].origin.followUp < out[b].at && out[a].at < out[b].origin.request < out[b].at
  }

  ghost predicate AllBefore(out: seq<Emission>, k: nat) {
    forall a :: 0 <= a < |out| ==> out[a].at < k
  }

  /** The values still stored are newer than all emissions. */
  ghost predicate OrderOk(own: seq<u8>, sw: u16, es: seq<Event>, k: nat)
    requires k <= |es|
  {
    var s := RunTo(own, sw, es, k);
    && AllBefore(s.out, k) && Ordered(s.out)
    && (s.x.times.t1.Some? ==> s.o.followUp < k && AllBefore(s.out, s.o.followUp))
    && (s.x.times.delayReqSeq.Some? ==> s.o.request < k && AllBefore(s.out, s.o.request))
  }

  /** The request is the one of the Follow_Up when that one used a capture, or else an
      earlier one. */
  ghost predicate Halves(own: seq<u8>, sw: u16, es: seq<Event>, o: Origins) {
    && o.request <= o.followUp < |es|
    && (o.request == o.followUp <==> CaptureAt(own, sw, es, o.followUp).Some?)
  }

  ghost predicate HalvesOk(own: seq<u8>, sw: u16, es: seq<Event>, k: nat)
    requires k <= |es|
  {
    var s := RunTo(own, sw, es, k);
    && (s.x.times.t1.Some? ==> s.o.followUp < k)
    && (s.x.times.delayReqSeq.Some? ==> s.o.request < k)
    && (s.x.times.t1.Some? && s.x.times.delayReqSeq.Some? ==> Halves(own, sw, es, s.o))
    && forall a :: 0 <= a < |s.out| ==> Halves(own, sw, es, s.out[a].origin)
  }

  lemma HalvesStep(own: seq<u8>, sw: u16, es: seq<Event>, k: nat)
    requires k < |es| && HalvesOk(own, sw, es, k)
    ensures HalvesOk(own, sw, es, k + 1)
  {
    hide Pick, FromComponents, FromNs;
  }

  lemma {:induction false} HalvesInvariant(own: seq<u8>, sw: u16, es: seq<Event>, k: nat)
    requires k <= |es|
    ensures HalvesOk(own, sw, es, k)
  {
    if k > 0 {
      hide HalvesOk;
      HalvesInvariant(own, sw, es, k - 1);
      HalvesStep(own, sw, es, k - 1);
    }
  }

  lemma PendingStep(own: seq<u8>, sw: u16, es: seq<Event>, k: nat)
    requires k < |es| && PendingOk(own, sw, es, k)
    ensures PendingOk(own, sw, es, k + 1)
  {
    hide Pick;
  }

  lemma T1Step(own: seq<u8>, sw: u16, es: seq<Event>, k: nat)
    requires k < |es| && PendingOk(own, sw, es, k) && T1Ok(own, sw, es, k)
    ensures T1Ok(own, sw, es, k + 1)
  {
    hide Pick, FromComponents, FromNs, T2At;
  }

  lemma T2Step(own: seq<u8>, sw: u16, es: seq<Event>, k: nat)
    requires k < |es| && PendingOk(own, sw, es, k) && T1Ok(own, sw, es, k) && T2Ok(own, sw, es, k)
    ensures T2Ok(own, sw, es, k + 1)
  {
    hide Pick, FromComponents, FromNs, SameSync;
    var s, s' := RunTo(own, sw, es, k), RunTo(own, sw, es, k + 1);
    if s'.x.times.t1.Some? && s'.x.times.t2.Some? {
      if es[k].FollowUp? && Accepts(s.x, es[k].h) {
        SameSyncStart(own, sw, es, s'.o, k);
      } else {
        SameSyncNext(own, sw, es, s.o, s'.o, k);
      }
    }
  }

  lemma SameSyncStart(own: seq<u8>, sw: u16, es: seq<Event>, o: Origins, k: nat)
    requires k < |es| && o.sync < |es| && o.followUp == k && o.t2 < |es| && T2At(own, sw, es, o.t2).Some?
    requires T2At(own, sw, es, o.sync).Some? ==> o.t2 == o.sync
    ensures SameSync(own, sw, es, o, k + 1)
  {
  }

  lemma SameSyncNext(own: seq<u8>, sw: u16, es: seq<Event>, o: Origins, o': Origins, k: nat)
    requires k < |es| && o.sync < k && o'.sync == o.sync && o'.followUp == o.followUp < k
    requires if T2At(own, sw, es, k).Some? then o'.t2 == k else o'.t2 == o.t2 && SameSync(own, sw, es, o, k)
    ensures SameSync(own, sw, es, o', k + 1)
  {
    hide T2At;
  }

  lemma ReverseStep(own: seq<u8>, sw: u16, es: seq<Event>, k: nat)
    requires k < |es| && ReverseOk(own, sw, es, k)
    ensures ReverseOk(own, sw, es, k + 1)
  {
    hide Pick, FromComponents;
  }

  lemma OrderStep(own: seq<u8>, sw: u16, es: seq<Event>, k: nat)
    requires k < |es| && OrderOk(own, sw, es, k)
    ensures OrderOk(own, sw, es, k + 1)
  {
    hide Pick, FromComponents, FromNs, Accepts, GoesOut, AllBefore, Ordered;
    var s, s' := RunTo(own, sw, es, k), RunTo(own, sw, es, k + 1);
    LaterStill(s.out, k);
    if s'.out != s.out {
      var em := s'.out[|s.out|];
      assert s'.out == s.out + [em] && em.at == k && em.origin == s.o;
      OneMoreEmission(s.out, em);
    }
  }

  lemma LaterStill(out: seq<Emission>, k: nat)
    requires AllBefore(out, k)
    ensures AllBefore(out, k + 1)
  {
  }

  lemma OneMoreEmission(out: seq<Emission>, em: Emission)
    requires Ordered(out) && AllBefore(out, em.at) && AllBefore(out, em.origin.followUp) && AllBefore(out, em.origin.request)
    requires em.origin.followUp < em.at && em.origin.request < em.at
    ensures Ordered(out + [em]) && AllBefore(out + [em], em.at + 1)
  {
    var out' := out + [em];
    forall a, b | 0 <= a < b < |out'|
      ensures out'[a].at < out'[b].origin.followUp < out'[b].at && out'[a].at < out'[b].origin.request < out'[b].at
    {
      assert out'[a] == out[a];
      assert b < |out| ==> out'[b] == out[b];
    }
  }

  lemma GenuineStep(own: seq<u8>, sw: u16, es: seq<Event>, k: nat)
    requires k < |es| && T1Ok(own, sw, es, k) && T2Ok(own, sw, es, k) && ReverseOk(own, sw, es, k) && GenuineOk(own, sw, es, k)
    ensures GenuineOk(own, sw, es, k + 1)
  {
    hide Pick, FromComponents, FromNs, T2At, T3At, CaptureAt, SeqAt, SameSync, StatedTime, Corrects, ForClock;
    var s, s' := RunTo(own, sw, es, k), RunTo(own, sw, es, k + 1);
    if s'.out != s.out {
      MessageMeans(es[k].h, own);
      MessageMeans(es[s.o.followUp].h, own);
      assert Genuine(own, sw, es, s'.out[|s.out|]);
    }
  }

  lemma {:induction false} Invariant(own: seq<u8>, sw: u16, es: seq<Event>, k: nat)
    requires k <= |es|
    ensures PendingOk(own, sw, es, k) && T1Ok(own, sw, es, k) && T2Ok(own, sw, es, k) && ReverseOk(own, sw, es, k)
    ensures GenuineOk(own, sw, es, k) && OrderOk(own, sw, es, k)
  {
    if k > 0 {
      hide PendingOk, T1Ok, T2Ok, ReverseOk, GenuineOk, OrderOk;
      Invariant(own, sw, es, k - 1);
      PendingStep(own, sw, es, k - 1);
      T1Step(own, sw, es, k - 1);
      T2Step(own, sw, es, k - 1);
      ReverseStep(own, sw, es, k - 1);
      GenuineStep(own, sw, es, k - 1);
      OrderStep(own, sw, es, k - 1);
    }
  }

  // ----- Sequence numbers of requests -----

  /** Requests sent among the first k events. */
  function Requests(own: seq<u8>, sw: u16, es: seq<Event>, k: nat): nat
    requires k <= |es|
  {
    if k == 0 then 0 else Requests(own, sw, es, k - 1) + (if RequestsAt(own, sw, es, k - 1) then 1 else 0)
  }

  /** The next request's number counts all requests before, from 1 on. */
  lemma {:induction false} NumbersCount(own: seq<u8>, sw: u16, es: seq<Event>, k: nat)
    requires k <= |es|
    ensures RunTo(own, sw, es, k).x.delayReqSeq == (1 + Requests(own, sw, es, k)) % 0x1_0000
  {
    NumberStart(own, sw, es);
    hide *;
    if k > 0 {
      NumbersCount(own, sw, es, k - 1);
      NumberStep(own, sw, es, k - 1);
      NumbersApart(1 + Requests(own, sw, es, k - 1), 1);
    }
  }

  lemma NumberStart(own: seq<u8>, sw: u16, es: seq<Event>)
    ensures RunTo(own, sw, es, 0).x.delayReqSeq == 1 && Requests(own, sw, es, 0) == 0
  {
  }

  lemma NumberStep(own: seq<u8>, sw: u16, es: seq<Event>, k: nat)
    requires k < |es|
    ensures var n := RunTo(own, sw, es, k).x.delayReqSeq;
      RunTo(own, sw, es, k + 1).x.delayReqSeq == if RequestsAt(own, sw, es, k) then (n + 1) % 0x1_0000 else n
    ensures Requests(own, sw, es, k + 1)
         == if RequestsAt(own, sw, es, k) then Requests(own, sw, es, k) + 1 else Requests(own, sw, es, k)
  {
    hide Pick, FromComponents, FromNs;
  }

  lemma NumbersApart(a: nat, d: nat)
    ensures (a + d) % 0x1_0000 == (a % 0x1_0000 + d) % 0x1_0000
    ensures a % 0x1_0000 == (a + d) % 0x1_0000 <==> d % 0x1_0000 == 0
  {
  }

  lemma {:induction false} RequestsRise(own: seq<u8>, sw: u16, es: seq<Event>, i: nat, j: nat)
    requires i <= j <= |es|
    ensures Requests(own, sw, es, i) <= Requests(own, sw, es, j)
    ensures i < j && RequestsAt(own, sw, es, i) ==> Requests(own, sw, es, i) < Requests(own, sw, es, j)
    decreases j
  {
    hide RequestsAt;
    if i < j { RequestsRise(own, sw, es, i, j - 1); }
  }

  /** Over every run: numbers count up by one per request, modulo 2^16, from 1; so two of
      them differ unless a multiple of 2^16 requests lies between. */
  lemma RequestNumbers(own: seq<u8>, sw: u16, es: seq<Event>, i: nat, j: nat)
    requires i < j < |es| && RequestsAt(own, sw, es, i) && RequestsAt(own, sw, es, j)
    ensures var sent := Requests(own, sw, es, j) - Requests(own, sw, es, i);
      && sent > 0
      && SeqAt(own, sw, es, j) == (SeqAt(own, sw, es, i) + sent) % 0x1_0000
      && (SeqAt(own, sw, es, i) == SeqAt(own, sw, es, j) <==> sent % 0x1_0000 == 0)
    ensures Requests(own, sw, es, i) == 0 ==> SeqAt(own, sw, es, i) == 1
  {
    NumbersCount(own, sw, es, i);
    NumbersCount(own, sw, es, j);
    RequestsRise(own, sw, es, i, j);
    FirstNumber(Requests(own, sw, es, i));
    hide RunTo, RequestsAt, Requests;
    NumbersApart(1 + Requests(own, sw, es, i), Requests(own, sw, es, j) - Requests(own, sw, es, i));
  }

  lemma FirstNumber(n: nat)
    ensures n == 0 ==> (1 + n) % 0x1_0000 == 1
  {
  }

  /** The response's number is that of no other request among the last 65535 before it or
      the next 65535 after it. */
  ghost predicate OnlyRequest(own: seq<u8>, sw: u16, es: seq<Event>, em: Emission)
    requires em.at < |es| && es[em.at].DelayResp? && em.origin.request < |es|
  {
    var sent := Requests(own, sw, es, em.origin.request);
    forall i: nat ::
      i < |es| && i != em.origin.request && RequestsAt(own, sw, es, i) && -0x1_0000 < Requests(own, sw, es, i) - sent < 0x1_0000
      ==> SeqAt(own, sw, es, i) != es[em.at].h.sequenceId
  }

  lemma OnlyRequestNumber(own: seq<u8>, sw: u16, es: seq<Event>, em: Emission)
    requires Genuine(own, sw, es, em)
    ensures OnlyRequest(own, sw, es, em)
  {
    hide RunTo, T2At, SameSync, Completes, Requests;
    var r := em.origin.request;
    forall i: nat | i < |es| && i != r && RequestsAt(own, sw, es, i)
                    && -0x1_0000 < Requests(own, sw, es, i) - Requests(own, sw, es, r) < 0x1_0000
      ensures SeqAt(own, sw, es, i) != es[em.at].h.sequenceId
    {
      RequestNumbers(own, sw, es, if i < r then i else r, if i < r then r else i);
    }
  }

  /** Over every run: T4 and the reverse correction of a sample come from the response to
      one request of equal sequence number, which no other request for 65535 before and
      after has, and T3 is what the register gave for that request; T1 and the forward correction come from one Follow_Up that completed a
      pending Sync; no response, request or Follow_Up serves two samples; T2 is the receive
      time of that same Sync exactly when the Sync carried one and no later Sync with one
      was handled between the Follow_Up and the response; and the request is that of the
      Follow_Up exactly when this one used a capture, or else an earlier one. */
  lemma SamplesStayTogether(own: seq<u8>, sw: u16, es: seq<Event>)
    ensures var out := RunTo(own, sw, es, |es|).out;
      && (forall a :: 0 <= a < |out| ==> Genuine(own, sw, es, out[a]))
      && (forall a, b :: 0 <= a < b < |out| ==>
           && out[a].at < out[b].at
           && out[a].origin.followUp < out[b].origin.followUp
           && out[a].origin.request < out[b].origin.request)
      && (forall a :: 0 <= a < |out| ==> Halves(own, sw, es, out[a].origin) && OnlyRequest(own, sw, es, out[a]))
  {
    Invariant(own, sw, es, |es|);
    HalvesInvariant(own, sw, es, |es|);
    hide OnlyRequest;
    var out := RunTo(own, sw, es, |es|).out;
    forall a | 0 <= a < |out| ensures Genuine(own, sw, es, out[a]) && OnlyRequest(own, sw, es, out[a]) {
      OnlyRequestNumber(own, sw, es, out[a]);
    }
    hide T2At, T3At, CaptureAt, SeqAt, RunTo, SameSync;
  }

  /** All four times stem from one Sync and the exchange it started. */
  predicate OneExchange(o: Origins) {
    o.t2 == o.sync && o.request == o.followUp
  }

  /** Over every run: a sample's four times stem from one exchange iff its Sync carried a
      receive time, its Follow_Up's request used a capture, and no Sync with a receive time
      was handled between the Follow_Up and the response. */
  lemma OneExchangeExact(own: seq<u8>, sw: u16, es: seq<Event>, em: Emission)
    requires em in RunTo(own, sw, es, |es|).out
    ensures em.at < |es| && em.origin.sync < em.origin.followUp < em.at
    ensures OneExchange(em.origin)
       <==> T2At(own, sw, es, em.origin.sync).Some? && CaptureAt(own, sw, es, em.origin.followUp).Some?
            && NoT2(own, sw, es, em.origin.followUp + 1, em.at)
  {
    SamplesStayTogether(own, sw, es);
    hide T2At, T3At, CaptureAt, SeqAt, RunTo, NoT2;
    assert Genuine(own, sw, es, em) && Halves(own, sw, es, em.origin);
  }

  // ----- The client's loop -----

  /** The samples of a run, in order. */
  function SamplesOf(out: seq<Emission>): (r: seq<Sample>)
    ensures |r| == |out|
  {
    seq(|out|, a requires 0 <= a < |out| => out[a].sample)
  }

  /** Handles all events of a run; a Follow_Up that completes a Sync sends a Delay_Req. */
  method MonitorPtp(own: seq<u8>, sw: u16, es: seq<Event>) returns (client: PtpClient, samples: seq<Sample>)
    ensures client.Contents() == RunTo(own, sw, es, |es|).x
    ensures samples == SamplesOf(RunTo(own, sw, es, |es|).out)
  {
    hide OnSync, OnFollowUp, SendDelayRequest, OnDelayResp, OnTick;
    client := new PtpClient(sw);
    samples := [];
    for k := 0 to |es|
      invariant fresh(client) && fresh(client.tsTracker)
      invariant client.Contents() == RunTo(own, sw, es, k).x
      invariant samples == SamplesOf(RunTo(own, sw, es, k).out)
    {
      match es[k] {
        case Sync(h, rawT2) =>
          client.HandleSync(h, rawT2);
        case FollowUp(h, tx) =>
          var matched := client.HandleFollowUp(h);
          if matched {
            client.SendDelayReq(tx);
          } else {
            Ignored(RunTo(own, sw, es, k).x, h);
          }
        case DelayResp(h) =>
          var sample := client.HandleDelayResp(h, own);
          if sample.Some? {
            samples := samples + [sample.value];
          }
        case Tick(expired) =>
          client.Tick(expired);
      }
    }
  }

  lemma Ignored(x: Exchange, h: PtpHeader)
    ensures !Accepts(x, h) ==> OnFollowUp(x, h) == x
  {
  }
}
