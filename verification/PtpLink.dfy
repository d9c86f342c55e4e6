/** From the servo to the packet generator: the states the servo publishes are those the
    activation loop consumes. */
module PtpLink {
  import opened Bits
  import opened PtpServo
  import opened PtpActivation

  /** What the loop uses of a published state. */
  function Seen(s: Status): SyncStatus {
    match s
    case Synchronized(_, ptpTimeNs) => SyncStatus.Synchronized(ptpTimeNs)
    case Syncing(_, ptpTimeNs) => SyncStatus.Syncing(ptpTimeNs)
  }

  /** The status was published for the n-th sample. */
  ghost predicate PublishedFor(status: SyncStatus, inputs: seq<Input>, n: nat) {
    && n < |inputs| && PtpServo.Run(inputs[..n] + [inputs[n]]).Ok? && PtpServo.Run(inputs[..n]).Ok?
    && PublishedBy(inputs[..n], inputs[n]).Some? && status == Seen(PublishedBy(inputs[..n], inputs[n]).value)
  }

  /** The loop only ever sees the initial state or published ones, some of which it may miss. */
  ghost predicate Consumes(es: seq<Event>, inputs: seq<Input>) {
    forall k :: 0 <= k < |es| && es[k].Changed? ==>
      es[k].status.Initializing? || exists n: nat :: PublishedFor(es[k].status, inputs, n)
  }

  /** The sample was written, less than 100 ns off, and its time plus the local time since
      its status was consumed reaches the target. */
  ghost predicate GoodSample(inputs: seq<Input>, n: nat, consumed: nat, at: nat, target: u64) {
    && n < |inputs| && PtpServo.Run(inputs[..n]).Ok?
    && Applied(PtpServo.Run(inputs[..n]).value, inputs[n])
    && -100 < Offset(PtpServo.Run(inputs[..n]).value, inputs[n].sample) < 100
    && MasterTime(inputs[n].sample) + (at - consumed) >= target
  }

  lemma {:induction false} LastStatusIsEvent(es: seq<Event>) returns (k: nat)
    requires LastStatus(es).Some?
    ensures k < |es| && es[k].Changed? && LastStatus(es) == Some((es[k].status, es[k].now))
  {
    var n := |es| - 1;
    if es[n].Changed? {
      k := n;
    } else {
      k := LastStatusIsEvent(es[..n]);
    }
  }

  /** Over every run of servo and loop: the generator is enabled only after a written sample
      less than 100 ns off whose status was the last one consumed, and on time. */
  lemma EnabledAfterGoodSample(target: u64, es: seq<Event>, e: Event, inputs: seq<Input>)
    requires Consumes(es + [e], inputs)
    requires PtpActivation.Run(target, es).Waiting? && PtpActivation.Run(target, es + [e]).Enabled?
    ensures LastStatus(es + [e]).Some?
    ensures exists n: nat ::
      PublishedFor(LastStatus(es + [e]).value.0, inputs, n)
      && GoodSample(inputs, n, LastStatus(es + [e]).value.1, PtpActivation.Run(target, es + [e]).at, target)
  {
    hide PtpServo.Run, PtpActivation.Run, LastStatus, Applied, Offset, MasterTime, PublishedBy;
    EnabledOnTime(target, es, e);
    var k := LastStatusIsEvent(es + [e]);
    var n: nat :| PublishedFor((es + [e])[k].status, inputs, n);
    PublishedExactly(inputs[..n], inputs[n]);
  }
}
