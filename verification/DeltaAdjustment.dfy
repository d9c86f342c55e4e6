/** Position of a packet in a schedule: the time since the stored period start,
    corrected for a period start that lies slightly in the future and cut off at the
    end of the schedule. The cut-off uses a ternary encoding of "greater than". */
module DeltaAdjustment {
  import opened Bits
  import opened TernaryCover

  // ----- The "greater than" table -----

  /** Match keys besides the ternary one, and action data, of one table request. */
  datatype Clamp = Clamp(duration: u64, priority: nat, hyperperiodMax: u64)

  /** Bit i of t, which is zero, forced to one below an unchanged prefix. */
  function AboveAt(t: u48, i: nat): (e: Entry)
    requires i < 48
  {
    Pow2Constants();
    PrefixAtMost(t, i);
    Entry(t - t % Pow2(i + 1) + Pow2(i), Prefix(48, i))
  }

  lemma PrefixAtMost(t: u48, i: nat)
    requires i < 48
    ensures 0 <= t - t % Pow2(i + 1) <= t
    ensures Pow2(i) < TWO_48 && Prefix(48, i) < TWO_48
  {
    RoundedDown(t, Pow2(i + 1));
    Pow2Constants();
    Pow2Monotonic(i, 48);
  }

  predicate ZeroBit(t: nat, i: nat) {
    (t / Pow2(i)) % 2 == 0
  }

  /** Requests for the zero bits of the period below n, highest bit first. */
  function ClampRequests(hyperperiod: u64, n: nat): seq<Request<Clamp>>
    requires n <= 48
  {
    if n == 0 then []
    else
      var t: u48 := hyperperiod % TWO_48;
      (if ZeroBit(t, n - 1)
       then [Request(AboveAt(t, n - 1), Clamp(hyperperiod, n - 1, hyperperiod))] else [])
      + ClampRequests(hyperperiod, n - 1)
  }

  /** The controller's loop over the bits of the period, highest first. */
  method InitHyperperiodExceededDetectionTable(hyperperiod: u64) returns (requests: seq<Request<Clamp>>)
    ensures requests == ClampRequests(hyperperiod, 48)
  {
    hide And, Or, Prefix, AboveAt;
    var all: u64 := 0xFFFF_FFFF_FFFF;
    var t: u64 := And48(hyperperiod);
    requests := [];
    for i := 48 downto 0
      invariant requests + ClampRequests(hyperperiod, i) == ClampRequests(hyperperiod, 48)
    {
      BitStep(t, i);
      NextRequests(requests, hyperperiod, i);
      var bit: u64 := ShiftBit(i);
      if And(t, bit) == 0 {
        var maskHigh: u64 := MaskHigh(all, i);
        var value: u64 := Or(And(t, maskHigh), bit);
        var mask: u64 := Or(maskHigh, bit);
        requests := requests + [Request(Entry(value, mask), Clamp(hyperperiod, i, hyperperiod))];
      }
    }
  }

  lemma NextRequests(done: seq<Request<Clamp>>, hyperperiod: u64, i: nat)
    requires i < 48
    ensures var t: u48 := hyperperiod % TWO_48;
      done + ClampRequests(hyperperiod, i + 1)
      == (if ZeroBit(t, i)
          then done + [Request(AboveAt(t, i), Clamp(hyperperiod, i, hyperperiod))] else done)
         + ClampRequests(hyperperiod, i)
  {
    hide AboveAt, ZeroBit;
  }

  function And48(h: u64): (t: u48)
    ensures t == h % TWO_48
    ensures t == And(h, 0xFFFF_FFFF_FFFF)
  {
    Pow2Constants();
    PrefixMask(h, 48, 0);
    And(h, 0xFFFF_FFFF_FFFF)
  }

  /** `1u64 << i`. */
  function ShiftBit(i: nat): (r: u64)
    requires i <= 48
    ensures r == Pow2(i)
  {
    Pow2Constants();
    if i < 48 then Pow2Monotonic(i, 48); Pow2(i) else Pow2(i)
  }

  /** `!((bit << 1) - 1)`, the ones above bit i of a 64-bit word. */
  function NotLow(i: nat): (r: u64)
    requires i < 48
    ensures r == Prefix(64, i + 1)
  {
    Pow2Monotonic(i + 1, 64);
    Pow2Constants64();
    Not(64, ShiftBit(i + 1) - 1)
  }

  lemma Pow2Constants64()
    ensures Pow2(64) == TWO_64
  {
    Pow2Constants();
    assert Pow2(56) == 0x100_0000_0000_0000;
  }

  /** `all & !((bit << 1) - 1)`, the ones above bit i of a 48-bit word. */
  function MaskHigh(all: u64, i: nat): (r: u64)
    requires all == 0xFFFF_FFFF_FFFF && i < 48
    ensures r == Prefix(48, i + 1)
  {
    Pow2Constants();
    MaskOfOnes(48, 64, i + 1);
    And(all, NotLow(i))
  }

  lemma MaskOfOnes(n: nat, m: nat, k: nat)
    requires k <= n < m
    ensures And(Pow2(n) - 1, Prefix(m, k)) == Prefix(n, k)
  {
    hide And;
    PrefixMask(Pow2(n) - 1, m, k);
    AllOnes(k, n);
    Pow2Monotonic(n, m);
    ModSmall(Pow2(n) - 1, Pow2(m));
  }

  lemma {:induction false} AllOnes(k: nat, n: nat)
    requires k <= n
    ensures (Pow2(n) - 1) % Pow2(k) == Pow2(k) - 1
    decreases n
  {
    if k == n {
      DivModUnique(Pow2(n) - 1, Pow2(k), 0, Pow2(n) - 1);
    } else {
      AllOnes(k, n - 1);
      MultipleMod(k, n - 1);
      AddMultiples(Pow2(n - 1) - 1, Pow2(n - 1), Pow2(k));
    }
  }

  lemma {:induction false} MultipleMod(k: nat, n: nat)
    requires k <= n
    ensures Pow2(n) % Pow2(k) == 0
    decreases n
  {
    if k == n {
      DivModUnique(Pow2(n), Pow2(k), 1, 0);
    } else {
      MultipleMod(k, n - 1);
      AddMultiples(Pow2(n - 1), Pow2(n - 1), Pow2(k));
    }
  }

  lemma AddMultiples(x: nat, y: nat, p: nat)
    requires p >= 1 && y % p == 0
    ensures (x + y) % p == x % p
  {
    assert x == p * (x / p) + x % p && y == p * (y / p);
    Distribute(p, x / p, -(y / p));
    DivModUnique(x + y, p, x / p + y / p, x % p);
  }

  /** What one round of the loop computes. */
  lemma BitStep(t: u48, i: nat)
    requires i < 48
    ensures And(t, Pow2(i)) == 0 <==> ZeroBit(t, i)
    ensures And(t, Prefix(48, i + 1)) < TWO_48
    ensures Or(And(t, Prefix(48, i + 1)), Pow2(i)) == AboveAt(t, i).value
    ensures Or(Prefix(48, i + 1), Pow2(i)) == AboveAt(t, i).mask
  {
    hide And, Or, Prefix;
    AndBit(t, i);
    var p := Pow2(i + 1);
    assert And(t, Prefix(48, i + 1)) == t - t % p by {
      Pow2Constants();
      PrefixMask(t, 48, i + 1);
      ModSmall(t, TWO_48);
    }
    RoundedDown(t, p);
    OrBit(t - t % p, i);
    PrefixDivisible(i + 1);
    OrBit(Prefix(48, i + 1), i);
    PrefixGrows(i);
  }

  lemma PrefixGrows(i: nat)
    requires i < 48
    ensures Prefix(48, i) == Prefix(48, i + 1) + Pow2(i)
  {
  }

  lemma PrefixDivisible(k: nat)
    requires k <= 48
    ensures Prefix(48, k) % Pow2(k) == 0
  {
    if k < 48 {
      MultipleMod(k, 48);
      Pow2Monotonic(k, 48);
      AddMultiple(Pow2(48) - Pow2(k), Pow2(k));
    } else {
      ModSmall(0, Pow2(k));
    }
  }

  // ----- The table is a comparator -----

  /** Among 48-bit keys, the row of bit i selects those one above t after dropping i bits. */
  lemma AboveAtSelects(t: u48, i: nat, x: u48)
    requires i < 48 && ZeroBit(t, i)
    ensures Matches(AboveAt(t, i), x) <==> x / Pow2(i) == t / Pow2(i) + 1
  {
    hide And, Prefix, AboveAt;
    ValueIsSmall(t, i);
    assert AboveAt(t, i).mask == Prefix(48, i) by { AboveAtMask(t, i); }
    var value: u48 := AboveAt(t, i).value;
    Masked48(x, i);
    Masked48(value, i);
    NextMultiple(t, x, Pow2(i));
  }

  lemma AboveAtMask(t: u48, i: nat)
    requires i < 48
    ensures AboveAt(t, i).mask == Prefix(48, i)
  {
  }

  lemma NextMultiple(t: nat, x: nat, p: nat)
    requires p >= 1
    ensures var value := t - t % p + p;
      && value >= 0 && value % p == 0
      && (x - x % p == value <==> x / p == t / p + 1)
  {
    var value := t - t % p + p;
    RoundedDown(t, p);
    AddMultiple(t - t % p, p);
    RoundedDown(x, p);
    if x / p == t / p + 1 {
      MultiplesEqual(x - x % p, value, p);
    }
  }

  lemma Masked48(x: u48, i: nat)
    requires i < 48
    ensures And(x, Prefix(48, i)) == x - x % Pow2(i)
  {
    hide And, Prefix;
    Pow2Constants();
    PrefixMask(x, 48, i);
    ModSmall(x, TWO_48);
  }

  lemma MultiplesEqual(a: nat, b: nat, p: nat)
    requires p >= 1 && a % p == 0 && b % p == 0 && a / p == b / p
    ensures a == b
  {
    assert a == p * (a / p) && b == p * (b / p);
  }

  lemma ValueIsSmall(t: u48, i: nat)
    requires i < 48 && ZeroBit(t, i)
    ensures AboveAt(t, i).value == t - t % Pow2(i) + Pow2(i) < TWO_48
  {
    hide Prefix;
    ModDouble(t, Pow2(i));
    Pow2Constants();
    MultipleMod(i + 1, 48);
    BelowMultiple(t, 2 * Pow2(i), TWO_48);
  }

  lemma BelowMultiple(t: nat, p: nat, top: nat)
    requires p >= 1 && top % p == 0 && t < top
    ensures t - t % p + p <= top
  {
    RoundedDown(t, p);
    if t - t % p + p > top {
      MultiplesApart(t - t % p, top, p);
    }
  }

  /** Rows for the bits below n: one match iff the key agrees with the period from
      bit n on and exceeds it, and no match otherwise. */
  lemma {:induction false} ComparatorBelow(hyperperiod: u64, n: nat, x: u48)
    requires n <= 48
    ensures var t := hyperperiod % TWO_48;
      MatchCount(EntriesIn(ClampRequests(hyperperiod, n)), x)
      == if x / Pow2(n) == t / Pow2(n) && x > t then 1 else 0
  {
    hide Matches, AboveAt;
    var t: u48 := hyperperiod % TWO_48;
    if n == 0 {
      assert Pow2(0) == 1;
    } else {
      var i := n - 1;
      ComparatorBelow(hyperperiod, i, x);
      SplitBit(x, t, i);
      if ZeroBit(t, i) {
        AboveAtSelects(t, i, x);
        var row := Request(AboveAt(t, i), Clamp(hyperperiod, i, hyperperiod));
        var rest := ClampRequests(hyperperiod, i);
        assert EntriesIn([row] + rest) == [row.entry] + EntriesIn(rest);
        CountFirst(row.entry, EntriesIn(rest), x);
      } else {
        assert [] + ClampRequests(hyperperiod, i) == ClampRequests(hyperperiod, i);
      }
    }
  }

  /** Comparing two words one bit lower. */
  lemma SplitBit(x: nat, t: nat, i: nat)
    ensures x / Pow2(i + 1) == (x / Pow2(i)) / 2 && t / Pow2(i + 1) == (t / Pow2(i)) / 2
    ensures x / Pow2(i) > t / Pow2(i) ==> x > t
    ensures x / Pow2(i) < t / Pow2(i) ==> x < t
  {
    ModDouble(x, Pow2(i));
    ModDouble(t, Pow2(i));
    if x <= t { DivMonotonic(x, t, Pow2(i)); }
    if t <= x { DivMonotonic(t, x, Pow2(i)); }
  }

  lemma DivMonotonic(a: nat, b: nat, p: nat)
    requires a <= b && p >= 1
    ensures a / p <= b / p
  {
    var i, j := a / p, b / p;
    assert a == p * i + a % p && b == p * j + b % p;
    if i > j {
      Distribute(p, i, j);
      AtLeastFactor(p, i - j);
    }
  }

  /** The installed table is a comparator: a 48-bit position matches exactly one row
      when it exceeds the low 48 bits of the period, and no row otherwise. */
  lemma TableIsComparator(hyperperiod: u64, x: u48)
    ensures MatchCount(EntriesIn(ClampRequests(hyperperiod, 48)), x) == if x > hyperperiod % TWO_48 then 1 else 0
  {
    Pow2Constants();
    ComparatorBelow(hyperperiod, 48, x);
    ModSmall(x, TWO_48);
    ModSmall(hyperperiod % TWO_48, TWO_48);
  }

  /** One row per zero bit of the period. */
  lemma {:induction false} RowsPerZeroBit(hyperperiod: u64, n: nat)
    requires n <= 48
    ensures |ClampRequests(hyperperiod, n)|
         == |set i | 0 <= i < n && ZeroBit(hyperperiod % TWO_48, i)|
  {
    hide AboveAt, ZeroBit;
    if n > 0 {
      RowsPerZeroBit(hyperperiod, n - 1);
      var t: u48 := hyperperiod % TWO_48;
      var below := set i | 0 <= i < n - 1 && ZeroBit(t, i);
      var all := set i | 0 <= i < n && ZeroBit(t, i);
      if ZeroBit(t, n - 1) {
        assert all == below + {n - 1};
      } else {
        assert all == below;
      }
    }
  }

  // ----- The data-plane pipeline -----

  datatype UnderflowAction = Nop | ResetDiffTs

  const MASK_MAX_UNDERFLOW: u64 := 0xFFFE_0000_0000
  const MASK_INTERVAL_SWITCH_UNDERFLOW: u64 := 0xFFFF_FFFF_FF80
  const MAXIMUM_48_BIT_TS: u48 := 281474976710655

  method InitUnderflowDetectionTable() returns (requests: seq<Request<UnderflowAction>>)
    ensures DetectsUnderflow(requests) && requests == UnderflowTable()
  {
    hide DetectsUnderflow;
    UnderflowRows();
    requests := [];
    requests := requests + [Request(Entry(0, MASK_MAX_UNDERFLOW), Nop)];
    requests := requests
      + [Request(Entry(MASK_INTERVAL_SWITCH_UNDERFLOW, MASK_INTERVAL_SWITCH_UNDERFLOW), ResetDiffTs)];
    assert requests == UnderflowTable();
  }

  function UnderflowTable(): seq<Request<UnderflowAction>> {
    [Request(Entry(0, MASK_MAX_UNDERFLOW), Nop),
     Request(Entry(MASK_INTERVAL_SWITCH_UNDERFLOW, MASK_INTERVAL_SWITCH_UNDERFLOW), ResetDiffTs)]
  }

  predicate AnyAction(a: UnderflowAction) {
    true
  }

  /** Differences from 2^33 up to 128 below 2^48 find no row; all rows a smaller one finds
      do nothing, and all rows a larger one finds reset it. */
  ghost predicate DetectsUnderflow(table: seq<Request<UnderflowAction>>) {
    forall d: u48 ::
      var hits := Rows(table, d, AnyAction);
      && (hits == [] <==> 0x2_0000_0000 <= d < TWO_48 - 128)
      && forall r :: r in hits ==> r.payload == if d < 0x2_0000_0000 then Nop else ResetDiffTs
  }

  /** The rows installed for a list of schedule periods. */
  function ClampTable(durations: seq<u64>): seq<Request<Clamp>> {
    if durations == [] then []
    else ClampRequests(durations[0], 48) + ClampTable(durations[1..])
  }

  /** The fields of the packet metadata that the pipeline reads and writes. */
  datatype Metadata = Metadata(diffTs: u48, hyperperiodTs: u48, duration: u64, differenceMax: u48)

  /** Time from a stored period start to an ingress time, modulo 2^48. */
  function Since(ingress: u48, start: u48): u48 {
    (ingress - start) % TWO_48
  }

  /** Outcome of underflow detection for a difference d: a period start at most 128
      ns in the future counts as just now; from 2^33 on, the value is recomputed from
      the largest timestamp, which loses one nanosecond. */
  function Unwrapped(d: u48): u48 {
    if d >= TWO_48 - 128 then 0
    else if d < 0x2_0000_0000 then d
    else d - 1
  }

  /** Position in a schedule whose period has rows in the table. */
  function Position(period: u64, d: u48): u48 {
    Min(Unwrapped(d), period % TWO_48)
  }

  /** `tie` is the row the switch acts on when several match. */
  method Apply(underflow: seq<Request<UnderflowAction>>, clamps: seq<Request<Clamp>>, ghost durations: seq<u64>,
               ingress: u48, md: Metadata, tie: nat)
    returns (md': Metadata)
    requires DetectsUnderflow(underflow) && clamps == ClampTable(durations)
    requires md.diffTs == Since(ingress, md.hyperperiodTs)
    ensures md' == md.(diffTs := md'.diffTs, differenceMax := md'.differenceMax)
    ensures md'.diffTs == if md.duration in durations then Position(md.duration, md.diffTs) else Unwrapped(md.diffTs)
  {
    hide Matches, ClampTable, UnderflowTable;
    md' := md;
    var hits := Rows(underflow, md'.diffTs, AnyAction);
    assert hits != [] ==> hits[0] in hits;
    if hits == [] {
      md' := md'.(differenceMax := MAXIMUM_48_BIT_TS - md'.hyperperiodTs);
      md' := md'.(diffTs := (md'.differenceMax + ingress) % TWO_48);
      WrapLosesOne(ingress, md.hyperperiodTs);
    } else if hits[0].payload == ResetDiffTs {
      md' := md'.(diffTs := 0);
    }
    assert md'.diffTs == Unwrapped(md.diffTs);
    var exceeded := Rows(clamps, md'.diffTs, (c: Clamp) => c.duration == md'.duration);
    ClampTableHits(durations, md'.diffTs, md'.duration);
    if md'.duration in durations && md'.diffTs > md'.duration % TWO_48 {
      ghost var r :| r in clamps && Matches(r.entry, md'.diffTs) && r.payload.duration == md'.duration;
      assert r in exceeded;
    }
    if exceeded != [] {
      var row := exceeded[tie % |exceeded|];
      assert row in exceeded;
      md' := md'.(diffTs := row.payload.hyperperiodMax % TWO_48);
    }
  }

  /** The masks read as numbers: below 2^33, and within 128 of 2^48. */
  lemma UnderflowRows()
    ensures DetectsUnderflow(UnderflowTable())
  {
    hide Matches;
    var table := UnderflowTable();
    var small, large := table[0], table[1];
    assert forall r :: r in table <==> r == small || r == large;
    forall d: u48
      ensures var hits := Rows(table, d, AnyAction);
        && (hits == [] <==> 0x2_0000_0000 <= d < TWO_48 - 128)
        && forall r :: r in hits ==> r.payload == if d < 0x2_0000_0000 then Nop else ResetDiffTs
    {
      var hits := Rows(table, d, AnyAction);
      UnderflowMatches(d);
      assert small in hits <==> d < 0x2_0000_0000;
      assert large in hits <==> d >= TWO_48 - 128;
      if hits != [] {
        assert hits[0] in hits && (hits[0] == small || hits[0] == large);
      }
    }
  }

  lemma UnderflowMatches(d: u48)
    ensures Matches(Entry(0, MASK_MAX_UNDERFLOW), d) <==> d < 0x2_0000_0000
    ensures Matches(Entry(MASK_INTERVAL_SWITCH_UNDERFLOW, MASK_INTERVAL_SWITCH_UNDERFLOW), d) <==> d >= TWO_48 - 128
  {
    hide And;
    Pow2Constants();
    Masked48(d, 33);
    Masked48(0, 33);
    Masked48(d, 7);
    Masked48(MASK_INTERVAL_SWITCH_UNDERFLOW, 7);
    assert Prefix(48, 33) == MASK_MAX_UNDERFLOW;
    assert Prefix(48, 7) == MASK_INTERVAL_SWITCH_UNDERFLOW;
  }

  lemma WrapLosesOne(ingress: u48, start: u48)
    requires Since(ingress, start) > 0
    ensures (MAXIMUM_48_BIT_TS - start + ingress) % TWO_48 == Since(ingress, start) - 1
  {
  }

  /** A position hits the rows of an installed period iff it exceeds it, and every
      such row holds that period. */
  lemma {:induction false} ClampTableHits(durations: seq<u64>, x: u48, duration: u64)
    ensures (exists r :: r in ClampTable(durations) && Matches(r.entry, x) && r.payload.duration == duration)
       <==> duration in durations && x > duration % TWO_48
    ensures forall r :: r in ClampTable(durations) && r.payload.duration == duration ==> r.payload.hyperperiodMax == duration
  {
    hide Matches;
    if durations != [] {
      ClampTableHits(durations[1..], x, duration);
      var rows := ClampRequests(durations[0], 48);
      RowsOfPeriod(durations[0], 48);
      TableIsComparator(durations[0], x);
      MatchCountPositive(EntriesIn(rows), x);
      assert (exists r :: r in rows && Matches(r.entry, x)) <==> x > durations[0] % TWO_48 by {
        if r :| r in rows && Matches(r.entry, x) {
          var i :| 0 <= i < |rows| && rows[i] == r;
          assert EntriesIn(rows)[i] == r.entry;
        }
        if e :| e in EntriesIn(rows) && Matches(e, x) {
          var i :| 0 <= i < |rows| && EntriesIn(rows)[i] == e;
          assert rows[i] in rows;
        }
      }
    }
  }

  lemma {:induction false} RowsOfPeriod(hyperperiod: u64, n: nat)
    requires n <= 48
    ensures forall r :: r in ClampRequests(hyperperiod, n) ==>
      r.payload.duration == hyperperiod && r.payload.hyperperiodMax == hyperperiod
  {
    hide AboveAt, ZeroBit;
    if n > 0 { RowsOfPeriod(hyperperiod, n - 1); }
  }

  // ----- What the position means -----

  /** The position is the time elapsed since the period start, cut off at the period,
      also when the 48-bit clock wrapped in between; a period start up to 128 ns
      after the packet gives position 0. */
  lemma PositionIsElapsedTime(start: u48, elapsed: int, period: u64)
    requires -128 <= elapsed < TWO_48 - 128 && period < 0x2_0000_0000
    ensures var ingress := (start + elapsed) % TWO_48;
      Position(period, Since(ingress, start)) == if elapsed < 0 then 0 else Min(elapsed, period)
  {
    var ingress: u48 := (start + elapsed) % TWO_48;
    SinceElapsed(start, elapsed);
    SmallMod(period);
  }

  lemma SmallMod(x: nat)
    requires x < TWO_48
    ensures x % TWO_48 == x
  {
  }

  lemma SinceElapsed(start: u48, elapsed: int)
    requires -128 <= elapsed < TWO_48 - 128
    ensures Since((start + elapsed) % TWO_48, start) == if elapsed < 0 then TWO_48 + elapsed else elapsed
  {
  }

  /** The mask of the underflow table lets exactly the periods below 2^33 ns (about
      8.6 s) be measured exactly; for every longer one some position is off by one. */
  lemma ExactPeriods(period: u64)
    ensures (forall d: u48 :: d < TWO_48 - 128 ==> Position(period, d) == Min(d, period)) <==> period < 0x2_0000_0000
  {
    if period < 0x2_0000_0000 {
      SmallMod(period);
    } else {
      var d: u48 := 0x2_0000_0000;
      assert Position(period, d) != Min(d, period);
    }
  }
}
