/** Enabling the packet generator at a given PTP time: the loop that consumes
    synchronisation states, keeps a deadline on the local clock and spins before it. */
module PtpActivation {
  import opened Bits
  import opened PtpClock

  datatype SyncStatus = Initializing | Syncing(ptpTimeNs: u64) | Synchronized(ptpTimeNs: u64)

  /** What the loop waits for: a status, consumed at a local time; the end of the sleep
      before the deadline, with the clock readings that follow; or a closed channel. */
  datatype Event =
    | Changed(status: SyncStatus, now: nat)
    | Woken(clock: seq<nat>)
    | ChannelClosed

  datatype Wait = Waiting(deadline: Option<nat>) | Enabled(at: nat) | Stopped

  const CHECK_INTERVAL_NS := 10

  // ----- The activation time -----

  predicate IsDigit(c: char) {
    '0' <= c <= '9'
  }

  predicate AllDigits(s: string) {
    forall c :: c in s ==> IsDigit(c)
  }

  /** The number a string of digits stands for. */
  function Decimal(s: string): nat
    requires AllDigits(s)
  {
    if s == "" then 0
    else
      assert s[|s| - 1] in s;
      Decimal(s[..|s| - 1]) * 10 + (s[|s| - 1] - '0') as nat
  }

  /** Parsing a 64-bit number: digits, after an optional plus sign. */
  function ParseU64(s: string): Option<u64> {
    var digits := if s != "" && s[0] == '+' then s[1..] else s;
    if digits == "" || !AllDigits(digits) || Decimal(digits) >= TWO_64 then None else Some(Decimal(digits))
  }

  /** The parts before and after the first point. */
  function SplitOnce(s: string): Option<(string, string)> {
    if s == "" then None
    else if s[0] == '.' then Some(("", s[1..]))
    else
      var rest := SplitOnce(s[1..]);
      if rest.None? then None else Some(([s[0]] + rest.value.0, rest.value.1))
  }

  const TWO_MINUTES: nat := 120_000_000_000

  /** Target in nanoseconds: the part after the point counts as nanoseconds as it stands. A
      text without point or numbers, or an overflow, ends the task. */
  function PtpTimePlus2Min(s: string): Result<u64> {
    var parts := SplitOnce(s);
    if parts.None? then Panic
    else
      var secs, nanos := ParseU64(parts.value.0), ParseU64(parts.value.1);
      if secs.None? || nanos.None? then Panic
      else
        var target := secs.value * BILLION + nanos.value + TWO_MINUTES;
        if target < TWO_64 then Ok(target) else Panic
  }

  /** Digits, perhaps after a plus sign. */
  predicate Stands(text: string, digits: string) {
    (text == digits || text == "+" + digits) && digits != "" && AllDigits(digits)
  }

  /** Two numbers around a point. */
  predicate Time(text: string, a: string, secs: string, b: string, frac: string) {
    text == a + "." + b && Stands(a, secs) && Stands(b, frac)
  }

  predicate Fits(secs: string, frac: string)
    requires AllDigits(secs) && AllDigits(frac)
  {
    Decimal(frac) < TWO_64 && Decimal(secs) * 1_000_000_000 + Decimal(frac) + 120_000_000_000 < TWO_64
  }

  /** Exactly those texts are read that are two numbers around a point whose target fits
      64 bits. */
  lemma TimeReadable(text: string)
    ensures PtpTimePlus2Min(text).Ok? <==>
      exists a, secs, b, frac :: Time(text, a, secs, b, frac) && Fits(secs, frac)
  {
    if a, secs, b, frac :| Time(text, a, secs, b, frac) && Fits(secs, frac) {
      TimeRead(text, a, secs, b, frac);
    }
    if PtpTimePlus2Min(text).Ok? {
      SplitParts(text);
      var (a, b) := SplitOnce(text).value;
      var secs := OnlyNumbers(a);
      var frac := OnlyNumbers(b);
      assert Time(text, a, secs, b, frac);
      TimeRead(text, a, secs, b, frac);
    }
  }

  lemma TimeRead(text: string, a: string, secs: string, b: string, frac: string)
    requires Time(text, a, secs, b, frac)
    ensures PtpTimePlus2Min(text)
         == if Fits(secs, frac) then Ok(Decimal(secs) * BILLION + Decimal(frac) + TWO_MINUTES) else Panic
  {
    NumberRead(a, secs);
    NumberRead(b, frac);
    SplitsAtPoint(a, b);
    hide Decimal, SplitOnce, ParseU64, AllDigits;
    if Decimal(secs) >= TWO_64 { assert Decimal(secs) * BILLION >= TWO_64; }
  }

  lemma NumberRead(text: string, digits: string)
    requires Stands(text, digits)
    ensures '.' !in text
    ensures ParseU64(text) == if Decimal(digits) < TWO_64 then Some(Decimal(digits)) else None
  {
    assert digits[0] in digits;
    if text == "+" + digits { assert text[1..] == digits; }
  }

  lemma OnlyNumbers(text: string) returns (digits: string)
    requires ParseU64(text).Some?
    ensures Stands(text, digits)
  {
    digits := if text != "" && text[0] == '+' then text[1..] else text;
    assert text == digits || text == "+" + digits;
  }

  function Pow10(n: nat): (p: nat)
    ensures p >= 1
  {
    if n == 0 then 1 else 10 * Pow10(n - 1)
  }

  lemma {:induction false} Pow10Rises(a: nat, b: nat)
    requires a < b
    ensures Pow10(a) < Pow10(b)
  {
    if a < b - 1 { Pow10Rises(a, b - 1); }
  }

  lemma {:induction false} SplitsAtPoint(secs: string, frac: string)
    requires '.' !in secs
    ensures SplitOnce(secs + "." + frac) == Some((secs, frac))
  {
    var s := secs + "." + frac;
    if secs == "" {
      assert s[1..] == frac;
    } else {
      assert s[1..] == secs[1..] + "." + frac;
      SplitsAtPoint(secs[1..], frac);
      assert [secs[0]] + secs[1..] == secs;
    }
  }

  lemma {:induction false} SplitParts(text: string)
    requires SplitOnce(text).Some?
    ensures text == SplitOnce(text).value.0 + "." + SplitOnce(text).value.1
  {
    if text[0] != '.' { SplitParts(text[1..]); }
  }

  /** A time of `secs` seconds and the decimal fraction `frac` of a second: the target
      is that time plus two minutes iff the fraction has nine digits or is 0. Both sides are
      multiplied by the power of ten that makes the fraction whole. */
  lemma TargetExact(text: string, a: string, secs: string, b: string, frac: string, target: u64)
    requires Time(text, a, secs, b, frac) && PtpTimePlus2Min(text) == Ok(target)
    ensures var scale := Pow10(|frac|);
      target * scale == (Decimal(secs) * scale + Decimal(frac)) * BILLION + TWO_MINUTES * scale
      <==> |frac| == 9 || Decimal(frac) == 0
  {
    TimeRead(text, a, secs, b, frac);
    var whole, part, scale := Decimal(secs), Decimal(frac), Pow10(|frac|);
    assert target == whole * BILLION + part + TWO_MINUTES;
    hide *;
    NineDigits(|frac|);
    Scaled(whole, part, scale, target);
  }

  lemma Scaled(whole: nat, part: nat, scale: nat, target: nat)
    requires target == whole * BILLION + part + TWO_MINUTES
    ensures target * scale == (whole * scale + part) * BILLION + TWO_MINUTES * scale
       <==> scale == BILLION || part == 0
  {
    assert target * scale == (whole * scale) * BILLION + part * scale + TWO_MINUTES * scale;
    assert (whole * scale + part) * BILLION == (whole * scale) * BILLION + part * BILLION;
    Cancel(part, scale, BILLION);
  }

  lemma NineDigits(n: nat)
    ensures Pow10(n) == BILLION <==> n == 9
  {
    assert Pow10(9) == BILLION by {
      assert Pow10(3) == 1000;
      assert Pow10(6) == 1000 * Pow10(3);
      assert Pow10(9) == 1000 * Pow10(6);
    }
    if n < 9 { Pow10Rises(n, 9); }
    if n > 9 { Pow10Rises(9, n); }
  }

  lemma Cancel(part: nat, a: nat, b: nat)
    ensures part * a == part * b <==> a == b || part == 0
  {
    if part > 0 && a < b { assert part * a < part * b; }
    if part > 0 && b < a { assert part * b < part * a; }
  }

  /** "1.5" is read as one second and five nanoseconds. */
  lemma HalfSecondLost()
    ensures PtpTimePlus2Min("1.5") == Ok(BILLION + 5 + TWO_MINUTES)
  {
    SplitsAtPoint("1", "5");
    assert "1" + "." + "5" == "1.5";
    assert Decimal("1") == 1 && Decimal("5") == 5;
  }

  // ----- Spinning -----

  /** The reading that ends the spin: outside the inner loop, each reading is compared
      with the deadline; inside, readings are skipped until the next check. */
  function Spin(deadline: nat, clock: seq<nat>): Option<nat>
    decreases |clock|, 1
  {
    if clock == [] then None
    else if clock[0] >= deadline then Some(clock[0])
    else SkipUntil(Min(clock[0] + CHECK_INTERVAL_NS, deadline), deadline, clock[1..])
  }

  function SkipUntil(check: nat, deadline: nat, clock: seq<nat>): Option<nat>
    decreases |clock|, 0
  {
    if clock == [] then None
    else if clock[0] < check then SkipUntil(check, deadline, clock[1..])
    else Spin(deadline, clock[1..])
  }

  /** The nested loops; each iteration takes the next reading of the clock. */
  method SpinUntil(deadline: nat, clock: seq<nat>) returns (r: Option<nat>)
    ensures r == Spin(deadline, clock)
  {
    if clock == [] {
      return None;
    }
    var now := clock[0];
    var i := 1;
    while now < deadline
      invariant 1 <= i <= |clock| && now == clock[i - 1]
      invariant Spin(deadline, clock[i - 1..]) == Spin(deadline, clock)
      decreases |clock| - i
    {
      var candidate := now + CHECK_INTERVAL_NS;
      var nextCheck := if candidate < deadline then candidate else deadline;
      assert clock[i - 1..][1..] == clock[i..];
      while i < |clock| && clock[i] < nextCheck
        invariant 1 <= i <= |clock|
        invariant SkipUntil(nextCheck, deadline, clock[i..]) == Spin(deadline, clock)
      {
        assert clock[i..][1..] == clock[i + 1..];
        i := i + 1;
      }
      if i < |clock| { assert clock[i..][1..] == clock[i + 1..]; }
      if i + 1 >= |clock| {
        return None;
      }
      now := clock[i + 1];
      i := i + 2;
    }
    return Some(now);
  }

  // ----- The loop -----

  function Step(target: u64, w: Wait, e: Event): Wait {
    if !w.Waiting? then w
    else
      match e
      case Changed(status, now) =>
        if !status.Synchronized? then Waiting(None)
        else if status.ptpTimeNs >= target then Enabled(now)
        else Waiting(Some(now + (target - status.ptpTimeNs)))
      case Woken(clock) =>
        if w.deadline.None? then w
        else
          var end := Spin(w.deadline.value, clock);
          if end.None? then w else Enabled(end.value)
      case ChannelClosed => Stopped
  }

  function Run(target: u64, es: seq<Event>): Wait {
    if es == [] then Waiting(None)
    else Step(target, Run(target, es[..|es| - 1]), es[|es| - 1])
  }

  class PacketGenerator {
    var enableCalls: nat

    constructor ()
      ensures enableCalls == 0
    {
      enableCalls := 0;
    }

    method EnablePktGen()
      modifies this
      ensures enableCalls == old(enableCalls) + 1
    {
      enableCalls := enableCalls + 1;
    }
  }

  /** The whole task, from the configured time on; a time that cannot be read ends it. */
  method ActivateAt(time: string, es: seq<Event>, pktgen: PacketGenerator) returns (r: Result<Wait>)
    modifies pktgen
    ensures var target := PtpTimePlus2Min(time);
      if target.Panic? then r.Panic? && pktgen.enableCalls == old(pktgen.enableCalls)
      else r == Ok(Run(target.value, es))
           && pktgen.enableCalls == old(pktgen.enableCalls) + if r.value.Enabled? then 1 else 0
  {
    var target :- PtpTimePlus2Min(time);
    var w := WaitForPtpSyncAndEnablePktgen(target, es, pktgen);
    return Ok(w);
  }

  /** The activation task over a finite run of events. */
  method WaitForPtpSyncAndEnablePktgen(target: u64, es: seq<Event>, pktgen: PacketGenerator) returns (w: Wait)
    modifies pktgen
    ensures w == Run(target, es)
    ensures pktgen.enableCalls == old(pktgen.enableCalls) + if w.Enabled? then 1 else 0
  {
    var activationDeadline: Option<nat> := None;
    for i := 0 to |es|
      invariant Run(target, es[..i]) == Waiting(activationDeadline)
      invariant pktgen.enableCalls == old(pktgen.enableCalls)
    {
      assert es[..i + 1][..i] == es[..i];
      match es[i] {
        case ChannelClosed =>
          Finished(target, es, i + 1);
          return Stopped;
        case Woken(clock) =>
          if activationDeadline.Some? {
            var end := SpinUntil(activationDeadline.value, clock);
            if end.Some? {
              pktgen.EnablePktGen();
              Finished(target, es, i + 1);
              return Enabled(end.value);
            }
          }
        case Changed(status, now) =>
          if !status.Synchronized? {
            activationDeadline := None;
          } else if status.ptpTimeNs >= target {
            pktgen.EnablePktGen();
            Finished(target, es, i + 1);
            return Enabled(now);
          } else {
            var remainingNs := target - status.ptpTimeNs;
            activationDeadline := Some(now + remainingNs);
          }
      }
    }
    assert es[..|es|] == es;
    return Waiting(activationDeadline);
  }

  /** Once the loop has ended, later events change nothing. */
  lemma {:induction false} Finished(target: u64, es: seq<Event>, n: nat)
    requires n <= |es| && !Run(target, es[..n]).Waiting?
    ensures Run(target, es) == Run(target, es[..n])
    decreases |es|
  {
    if n < |es| {
      assert es[..|es| - 1][..n] == es[..n];
      Finished(target, es[..|es| - 1], n);
    } else {
      assert es[..n] == es;
    }
  }

  // ----- Safety and progress -----

  /** The last status consumed and when. */
  function LastStatus(es: seq<Event>): Option<(SyncStatus, nat)> {
    if es == [] then None
    else
      var e := es[|es| - 1];
      if e.Changed? then Some((e.status, e.now)) else LastStatus(es[..|es| - 1])
  }

  /** While waiting, the deadline is that of the last status; any status but Synchronized
      has cancelled it. */
  lemma {:induction false} DeadlineIsCurrent(target: u64, es: seq<Event>)
    requires Run(target, es).Waiting?
    ensures var last := LastStatus(es);
      Run(target, es).deadline
      == if last.Some? && last.value.0.Synchronized? then Some(last.value.1 + (target - last.value.0.ptpTimeNs)) else None
    ensures var last := LastStatus(es);
      last.Some? && last.value.0.Synchronized? ==> last.value.0.ptpTimeNs < target
  {
    if es != [] { DeadlineIsCurrent(target, es[..|es| - 1]); }
  }

  lemma SpinEndsLate(deadline: nat, clock: seq<nat>)
    ensures Spin(deadline, clock).Some? ==> Spin(deadline, clock).value >= deadline
    decreases |clock|, 1
  {
    if clock != [] && clock[0] < deadline {
      SkipEndsLate(Min(clock[0] + CHECK_INTERVAL_NS, deadline), deadline, clock[1..]);
    }
  }

  lemma SkipEndsLate(check: nat, deadline: nat, clock: seq<nat>)
    ensures SkipUntil(check, deadline, clock).Some? ==> SkipUntil(check, deadline, clock).value >= deadline
    decreases |clock|, 0
  {
    if clock != [] {
      if clock[0] < check { SkipEndsLate(check, deadline, clock[1..]); } else { SpinEndsLate(deadline, clock[1..]); }
    }
  }

  /** The generator is enabled only while the last consumed status is Synchronized, and
      never before that status's PTP time plus the local time since it was consumed
      reaches the target. */
  lemma EnabledOnTime(target: u64, es: seq<Event>, e: Event)
    requires Run(target, es).Waiting? && Run(target, es + [e]).Enabled?
    ensures var at := Run(target, es + [e]).at;
      var last := LastStatus(es + [e]);
      last.Some? && last.value.0.Synchronized? && last.value.0.ptpTimeNs + (at - last.value.1) >= target
  {
    assert (es + [e])[..|es|] == es;
    DeadlineIsCurrent(target, es);
    if e.Woken? { SpinEndsLate(Run(target, es).deadline.value, e.clock); }
  }

  /** While waiting, a Synchronized status that has reached the target enables the generator
      at once; any other status only replaces the deadline, and a closed channel ends it. */
  lemma ReactsToStatus(target: u64, es: seq<Event>, e: Event)
    requires Run(target, es).Waiting?
    ensures var w := Run(target, es + [e]);
      && (e.Changed? ==> (w.Enabled? <==> e.status.Synchronized? && e.status.ptpTimeNs >= target))
      && (e.Changed? && w.Enabled? ==> w.at == e.now)
      && (e.Changed? && !w.Enabled? ==> w.Waiting? && (w.deadline.Some? <==> e.status.Synchronized?))
      && (e.ChannelClosed? <==> w.Stopped?)
  {
    assert (es + [e])[..|es|] == es;
    hide Spin;
  }

  ghost predicate Monotone(clock: seq<nat>) {
    forall i, j :: 0 <= i < j < |clock| ==> clock[i] <= clock[j]
  }

  /** The spin ends: two readings at or after the deadline suffice. */
  lemma SpinEnds(deadline: nat, clock: seq<nat>)
    requires Monotone(clock) && |clock| >= 2 && clock[|clock| - 2] >= deadline
    ensures Spin(deadline, clock).Some?
    decreases |clock|, 1
  {
    if clock[0] < deadline {
      SkipEnds(Min(clock[0] + CHECK_INTERVAL_NS, deadline), deadline, clock[1..]);
    }
  }

  lemma SkipEnds(check: nat, deadline: nat, clock: seq<nat>)
    requires Monotone(clock) && |clock| >= 2 && clock[|clock| - 2] >= deadline >= check
    ensures SkipUntil(check, deadline, clock).Some?
    decreases |clock|, 0
  {
    if clock[0] < check {
      SkipEnds(check, deadline, clock[1..]);
    } else if |clock| > 2 {
      SpinEnds(deadline, clock[1..]);
    } else {
      assert clock[1..] == [clock[1]] && clock[1] >= clock[0];
    }
  }

  /** When the last status is Synchronized and the clock passes its deadline after the
      wake-up, the generator is enabled. */
  lemma EnabledEventually(target: u64, es: seq<Event>, clock: seq<nat>)
    requires Run(target, es).Waiting? && LastStatus(es).Some? && LastStatus(es).value.0.Synchronized?
    requires Monotone(clock) && |clock| >= 2
    requires var (status, now) := LastStatus(es).value;
      clock[|clock| - 2] >= now + (target - status.ptpTimeNs)
    ensures Run(target, es + [Woken(clock)]).Enabled?
  {
    DeadlineIsCurrent(target, es);
    assert (es + [Woken(clock)])[..|es|] == es;
    SpinEnds(Run(target, es).deadline.value, clock);
  }
}
