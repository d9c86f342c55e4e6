/** How good the decomposition of TernaryCover is: no set of aligned blocks covers
    the range with fewer members, and no range needs more than 62 entries. */
module CoverOptimality {
  import opened Bits
  import opened TernaryCover

  // ----- Aligned blocks form a tree -----

  function Parent(b: Block): Block {
    ModAtMost(b.lo, Pow2(b.k + 1));
    Block(b.lo - b.lo % Pow2(b.k + 1), b.k + 1)
  }

  lemma ModAtMost(x: nat, p: nat)
    requires p >= 1
    ensures x % p <= x
  {
    if x < p { DivModUnique(x, p, 0, x); }
  }

  lemma ParentContains(b: Block)
    requires b.Aligned()
    ensures Parent(b).Aligned() && b.Inside(Parent(b))
    ensures Parent(b).lo == if b.lo % Pow2(b.k + 1) == 0 then b.lo else b.lo - Pow2(b.k)
  {
    ModDouble(b.lo, Pow2(b.k));
    var q := Pow2(b.k + 1);
    assert b.lo == q * (b.lo / q) + b.lo % q;
    DivModUnique(b.lo - b.lo % q, q, b.lo / q, 0);
  }

  ghost predicate Disjoint(b: Block, c: Block) {
    b.Last() < c.lo || c.Last() < b.lo
  }

  lemma {:induction false} Nested(b: Block, c: Block)
    requires b.Aligned() && c.Aligned() && b.k <= c.k
    ensures b.Inside(c) || Disjoint(b, c)
    decreases c.k - b.k
  {
    if b.k == c.k {
      if !Disjoint(b, c) { MultiplesApart(b.lo, c.lo, Pow2(b.k)); }
    } else {
      ParentContains(b);
      Nested(Parent(b), c);
    }
  }

  // ----- Every emitted block is maximal -----

  /** What limits a block: the alignment of its first value or the end of the range. */
  lemma BlockLimit(cur: nat, end: nat)
    requires cur <= end < U32_MAX
    ensures var k := BlockExp(cur, end);
      && (cur > 0 ==> k <= TrailingZeros(cur))
      && ((cur > 0 && k == TrailingZeros(cur)) || cur + 2 * Pow2(k) - 1 > end)
  {
    hide TrailingZeros;
    var fit := BitLength(end - cur + 1) - 1;
    assert cur + 2 * Pow2(fit) - 1 > end;
    Pow2Constants();
    BitLengthBound(end - cur + 1, 32);
  }

  lemma TrailingZerosUnique(x: nat, k: nat)
    requires x > 0 && x % Pow2(k) == 0
    ensures k <= TrailingZeros(x)
    ensures x % Pow2(k + 1) != 0 ==> k == TrailingZeros(x)
  {
    var t := TrailingZeros(x);
    LowestSetBit(x);
    if t < k { DivisibleDown(x, t + 1, k); }
    if k < t && x % Pow2(k + 1) != 0 { DivisibleDown(x, k + 1, t); }
  }

  /** The aligned block before `cur` starts before the range, or its sibling at
      `cur` does not fit any more. */
  ghost predicate Saturated(start: nat, cur: nat, end: nat) {
    cur == 0 || cur < start + Pow2(TrailingZeros(cur)) || cur + Pow2(TrailingZeros(cur)) - 1 > end
  }

  lemma SaturatedNext(start: nat, cur: nat, end: nat)
    requires start <= cur <= end < U32_MAX && Saturated(start, cur, end)
    ensures Saturated(start, cur + Pow2(BlockExp(cur, end)), end)
  {
    hide BlockExp, TrailingZeros, Pow2;
    var k := BlockExp(cur, end);
    BlockFits(cur, end);
    BlockLimit(cur, end);
    NextTrailingZeros(cur, k);
  }

  /** A block either is a left child, and then the next value is aligned to it and no
      further, or a right child, and then the next value is aligned further. */
  lemma NextTrailingZeros(cur: nat, k: nat)
    requires cur % Pow2(k) == 0
    ensures var j := TrailingZeros(cur + Pow2(k));
      || (j == k && (cur == 0 || TrailingZeros(cur) > k))
      || (cur > 0 && TrailingZeros(cur) == k && j > k && Pow2(j) >= 2 * Pow2(k)
          && (cur + Pow2(k)) % Pow2(k + 1) == 0)
  {
    hide TrailingZeros;
    var next := cur + Pow2(k);
    AddHalf(cur, Pow2(k));
    if cur % Pow2(k + 1) == 0 {
      TrailingZerosUnique(next, k);
      if cur > 0 { TrailingZerosUnique(cur, k + 1); }
    } else {
      ZeroMod(k + 1);
      TrailingZerosUnique(cur, k);
      TrailingZerosUnique(next, k + 1);
      Pow2Monotonic(k, TrailingZeros(next));
    }
  }

  lemma ZeroMod(k: nat)
    ensures 0 % Pow2(k) == 0
  {
    ModSmall(0, Pow2(k));
  }

  lemma AddHalf(x: nat, p: nat)
    requires p >= 1 && x % p == 0
    ensures (x + p) % p == 0
    ensures (x + p) % (2 * p) == 0 <==> x % (2 * p) != 0
  {
    ModDouble(x, p);
    var q := x / (2 * p);
    assert x == (2 * p) * q + x % (2 * p);
    AddMultiple(x, p);
    if x % (2 * p) == 0 {
      DivModUnique(x + p, 2 * p, q, p);
    } else {
      assert (2 * p) * (q + 1) == (2 * p) * q + 2 * p;
      DivModUnique(x + p, 2 * p, q + 1, 0);
    }
  }

  ghost predicate Maximal(b: Block, start: nat, end: nat) {
    !Parent(b).Within(start, end)
  }

  lemma FirstMaximal(start: nat, cur: nat, end: nat)
    requires start <= cur <= end < U32_MAX && Saturated(start, cur, end)
    ensures Maximal(Block(cur, BlockExp(cur, end)), start, end)
  {
    hide BlockExp, TrailingZeros, Parent;
    var k := BlockExp(cur, end);
    BlockFits(cur, end);
    BlockLimit(cur, end);
    ParentOf(Block(cur, k));
  }

  lemma ParentOf(b: Block)
    requires b.Aligned()
    ensures Parent(b).Last() == Parent(b).lo + 2 * Pow2(b.k) - 1
    ensures || (Parent(b).lo == b.lo && (b.lo == 0 || TrailingZeros(b.lo) > b.k))
            || (b.lo > 0 && Parent(b).lo == b.lo - Pow2(b.k) && TrailingZeros(b.lo) == b.k)
  {
    hide TrailingZeros;
    ParentContains(b);
    if b.lo > 0 {
      TrailingZerosUnique(b.lo, b.k);
      if b.lo % Pow2(b.k + 1) == 0 { TrailingZerosUnique(b.lo, b.k + 1); }
    }
  }

  lemma {:induction false} GreedyMaximal(start: nat, cur: nat, end: nat)
    requires start <= cur && end < U32_MAX && Saturated(start, cur, end)
    ensures forall b :: b in Greedy(cur, end) ==> Maximal(b, start, end)
    decreases if cur <= end then end - cur + 1 else 0
  {
    hide BlockExp, Saturated, Maximal;
    if cur <= end {
      FirstMaximal(start, cur, end);
      SaturatedNext(start, cur, end);
      GreedyMaximal(start, cur + Pow2(BlockExp(cur, end)), end);
    }
  }

  /** Each block of the decomposition is a largest aligned sub-range: an aligned
      block of the range that meets it lies inside it. */
  lemma BlocksAreMaximal(start: nat, end: nat, b: Block, c: Block)
    requires end < U32_MAX && b in Greedy(start, end)
    requires c.Aligned() && c.Within(start, end) && !Disjoint(b, c)
    ensures c.Inside(b)
  {
    hide BlockExp, TrailingZeros;
    assert Saturated(start, start, end) by { if start > 0 { assert Pow2(TrailingZeros(start)) >= 1; } }
    GreedyMaximal(start, start, end);
    GreedyBlocks(start, end);
    assert Maximal(b, start, end);
    if c.k > b.k {
      ParentContains(b);
      Nested(Parent(b), c);
    } else {
      Nested(c, b);
    }
  }

  // ----- Minimality -----

  /** A set of aligned blocks whose union is exactly the range. */
  ghost predicate Covers(s: set<Block>, start: nat, end: nat) {
    && (forall b :: b in s ==> b.Aligned())
    && (forall x: nat :: Covered(s, x) <==> start <= x <= end)
  }

  ghost predicate Covered(s: set<Block>, x: nat) {
    exists b :: b in s && b.Contains(x)
  }

  /** No set of aligned power-of-two blocks covers the range with fewer members than
      the loop emits. */
  lemma GreedyIsMinimal(s: set<Block>, start: nat, end: nat)
    requires end < U32_MAX && Covers(s, start, end)
    ensures |Greedy(start, end)| <= |s|
  {
    hide BlockExp, Greedy;
    var bs := Greedy(start, end);
    forall b | b in bs
      ensures HasInner(s, b)
    {
      GreedyBlocks(start, end);
      assert Covered(s, b.lo);
      var c :| c in s && c.Contains(b.lo);
      assert c.Contains(c.lo) && c.Contains(c.Last());
      assert Covered(s, c.lo) && Covered(s, c.Last());
      BlocksAreMaximal(start, end, b, c);
    }
    GreedyOrdered(start, end);
    InjectBlocks(bs, s);
  }

  ghost predicate Ordered(bs: seq<Block>) {
    forall i, j :: 0 <= i < j < |bs| ==> bs[i].Last() < bs[j].lo
  }

  lemma {:induction false} GreedyOrdered(start: nat, end: nat)
    ensures Ordered(Greedy(start, end))
    decreases if start <= end then end - start + 1 else 0
  {
    hide BlockExp;
    if start <= end {
      var next := start + Pow2(BlockExp(start, end));
      GreedyOrdered(next, end);
      GreedyBlocks(next, end);
    }
  }

  ghost predicate HasInner(s: set<Block>, b: Block) {
    exists c :: c in s && c.Inside(b)
  }

  /** Disjoint blocks that each contain a member of s show that s is at least as large. */
  lemma {:induction false} InjectBlocks(bs: seq<Block>, s: set<Block>)
    requires Ordered(bs)
    requires forall b :: b in bs ==> HasInner(s, b)
    ensures |bs| <= |s|
  {
    if bs != [] {
      assert HasInner(s, bs[0]);
      var c :| c in s && c.Inside(bs[0]);
      forall b | b in bs[1..]
        ensures HasInner(s - {c}, b)
      {
        var i :| 0 <= i < |bs[1..]| && bs[1..][i] == b;
        assert b == bs[i + 1] && b in bs;
        var d :| d in s && d.Inside(b);
        assert d in s - {c};
      }
      InjectBlocks(bs[1..], s - {c});
    }
  }

  // ----- Number of entries -----

  /** Exponents strictly below k that strictly fall. */
  ghost predicate Falls(bs: seq<Block>, k: nat) {
    bs == [] || (bs[0].k < k && Falls(bs[1..], bs[0].k))
  }

  /** Exponents that strictly rise to a peak, may repeat the peak once, then strictly fall. */
  ghost predicate RisesThenFalls(bs: seq<Block>) {
    || |bs| <= 1
    || (bs[0].k < bs[1].k && RisesThenFalls(bs[1..]))
    || (bs[0].k >= bs[1].k && Falls(bs[2..], bs[1].k))
  }

  function Uses(bs: seq<Block>, e: nat): nat {
    if bs == [] then 0 else (if bs[0].k == e then 1 else 0) + Uses(bs[1..], e)
  }

  lemma {:induction false} FallingUses(bs: seq<Block>, k: nat, e: nat)
    requires Falls(bs, k)
    ensures Uses(bs, e) <= if e < k then 1 else 0
  {
    if bs != [] {
      FallingUses(bs[1..], bs[0].k, e);
    }
  }

  /** The shape of the exponents uses each of them at most twice, and those below the
      first at most once. */
  lemma {:induction false} UsedAtMostTwice(bs: seq<Block>, e: nat)
    requires RisesThenFalls(bs)
    ensures Uses(bs, e) <= 2
    ensures bs != [] && e < bs[0].k ==> Uses(bs, e) <= 1
  {
    if |bs| > 1 {
      assert bs[1..][1..] == bs[2..];
      assert Uses(bs[1..], e) == (if bs[1].k == e then 1 else 0) + Uses(bs[2..], e);
      if bs[0].k < bs[1].k && RisesThenFalls(bs[1..]) {
        UsedAtMostTwice(bs[1..], e);
      } else {
        FallingUses(bs[2..], bs[1].k, e);
      }
    } else if bs != [] {
      assert bs[1..] == [];
    }
  }

  lemma GreedyStep(cur: nat, end: nat)
    requires cur <= end
    ensures var k := BlockExp(cur, end);
      && Greedy(cur, end)[0] == Block(cur, k)
      && Greedy(cur, end)[1..] == Greedy(cur + Pow2(k), end)
      && |Greedy(cur, end)| == 1 + |Greedy(cur + Pow2(k), end)|
  {
    hide BlockExp;
  }

  /** Once the end of the range limits the blocks, exponents only fall. */
  lemma {:induction false} Falling(cur: nat, end: nat, k: nat)
    requires cur % Pow2(k) == 0 && end - cur + 1 < Pow2(k) && end < U32_MAX
    ensures |Greedy(cur, end)| <= k
    ensures Falls(Greedy(cur, end), k)
    decreases if cur <= end then end - cur + 1 else 0
  {
    hide BlockExp, TrailingZeros, Greedy;
    if cur <= end {
      var j := BlockExp(cur, end);
      GreedyStep(cur, end);
      BlockFits(cur, end);
      BlockLimit(cur, end);
      if k <= j { if k < j { Pow2Monotonic(k, j); } assert false; }
      if cur > 0 { TrailingZerosUnique(cur, k); }
      AddMultiple(cur, Pow2(j));
      Falling(cur + Pow2(j), end, j);
    }
  }

  /** While alignment limits the blocks, exponents rise; the peak may occur twice. */
  lemma {:induction false} Rising(cur: nat, end: nat)
    requires cur <= end < U32_MAX && cur > 0 && BlockExp(cur, end) == TrailingZeros(cur)
    ensures BlockExp(cur, end) <= 30
    ensures |Greedy(cur, end)| <= 62 - BlockExp(cur, end)
    ensures RisesThenFalls(Greedy(cur, end))
    decreases end - cur
  {
    hide BlockExp, TrailingZeros, Greedy, Pow2, Falls;
    var k := BlockExp(cur, end);
    var next := cur + Pow2(k);
    AtMostThirty(cur, end);
    BlockFits(cur, end);
    GreedyStep(cur, end);
    NextTrailingZeros(cur, k);
    if next <= end {
      GreedyStep(next, end);
      if BlockExp(next, end) == TrailingZeros(next) {
        Rising(next, end);
      } else if end - next + 1 < Pow2(k) {
        AddMultiple(cur, Pow2(k));
        Falling(next, end, k);
        FallsIsShape(Greedy(cur, end));
      } else {
        BlockLimit(next, end);
        Peak(next, end, k);
        PeakShape(Greedy(cur, end));
      }
    }
  }

  lemma PeakShape(bs: seq<Block>)
    requires |bs| > 1 && Falls(bs[1..][1..], bs[1].k)
    ensures RisesThenFalls(bs)
  {
    assert bs[1..][1..] == bs[2..];
    if bs[0].k < bs[1].k { FallsIsShape(bs[1..]); }
  }

  lemma FallsIsShape(bs: seq<Block>)
    requires bs != [] && Falls(bs[1..], bs[0].k)
    ensures RisesThenFalls(bs)
  {
    if |bs| > 1 { assert bs[1..][1..] == bs[2..]; }
  }

  /** An exponent limited by alignment is at most 30: a block of 2^31 values that
      does not start at 0 would end at the largest 32-bit value. */
  lemma AtMostThirty(cur: nat, end: nat)
    requires 0 < cur <= end < U32_MAX
    ensures BlockExp(cur, end) <= 30
  {
    hide BlockExp;
    var k := BlockExp(cur, end);
    if k >= 31 {
      BlockFits(cur, end);
      Pow2Constants();
      DivisibleDown(cur, 31, k);
      if k > 31 { Pow2Monotonic(31, k); }
    }
  }

  /** A block limited by the end of the range: everything after it falls. */
  lemma Peak(cur: nat, end: nat, k: nat)
    requires 0 < cur <= end < U32_MAX && k <= 30
    requires end - cur + 1 >= Pow2(k) && BlockExp(cur, end) != TrailingZeros(cur)
    ensures k <= BlockExp(cur, end) <= 30
    ensures |Greedy(cur, end)| <= 31
    ensures Falls(Greedy(cur, end)[1..], BlockExp(cur, end))
  {
    hide BlockExp, TrailingZeros, Greedy;
    var j := BlockExp(cur, end);
    BlockLimit(cur, end);
    AtMostThirty(cur, end);
    BlockFits(cur, end);
    GreedyStep(cur, end);
    AddMultiple(cur, Pow2(j));
    if j < k { Pow2Monotonic(j, k); }
    Falling(cur + Pow2(j), end, j);
  }

  /** Every range that stays below the largest 32-bit value needs at most 62 entries:
      block sizes rise, may repeat once at the peak, and fall. */
  lemma EntryBound(start: nat, end: nat)
    requires end < U32_MAX
    ensures |Greedy(start, end)| <= 62
    ensures RisesThenFalls(Greedy(start, end))
    ensures forall e: nat :: Uses(Greedy(start, end), e) <= 2
  {
    hide BlockExp, TrailingZeros, Greedy;
    if start <= end {
      var k := BlockExp(start, end);
      BlockLimit(start, end);
      if start > 0 && k == TrailingZeros(start) {
        Rising(start, end);
      } else {
        GreedyStep(start, end);
        BlockFits(start, end);
        AddMultiple(start, Pow2(k));
        ExpSmall(start, end);
        Falling(start + Pow2(k), end, k);
        FallsIsShape(Greedy(start, end));
      }
    }
    forall e: nat ensures Uses(Greedy(start, end), e) <= 2 {
      UsedAtMostTwice(Greedy(start, end), e);
    }
  }

  /** The bound is reached: all 32-bit values but the first and the last. */
  lemma BoundIsTight()
    ensures |Greedy(1, U32_MAX - 1)| == 62
  {
    Pow2Constants();
    TightRising(0, 31);
  }

  lemma {:induction false} TightRising(j: nat, n: nat)
    requires j <= n <= 31
    ensures |Greedy(Pow2(j), 2 * Pow2(n) - 2)| == (n - j) + n
    decreases n - j
  {
    hide BlockExp, TrailingZeros, Greedy;
    var cur, end := Pow2(j), 2 * Pow2(n) - 2;
    if j == n {
      PowMod(n);
      BelowMax(n);
      TightFalling(cur, end, n);
    } else {
      TightExponent(j, n);
      GreedyStep(cur, end);
      TightRising(j + 1, n);
    }
  }

  lemma BelowMax(n: nat)
    requires n <= 31
    ensures 2 * Pow2(n) - 2 < U32_MAX
  {
    Pow2Constants();
    if n < 31 { Pow2Monotonic(n, 31); }
  }

  lemma TightExponent(j: nat, n: nat)
    requires j < n <= 31
    ensures Pow2(j) <= 2 * Pow2(n) - 2
    ensures BlockExp(Pow2(j), 2 * Pow2(n) - 2) == j
  {
    hide BlockExp, TrailingZeros;
    var cur, end := Pow2(j), 2 * Pow2(n) - 2;
    Pow2Monotonic(j, n);
    BelowMax(n);
    assert TrailingZeros(cur) == j by {
      PowMod(j);
      TrailingZerosUnique(cur, j);
    }
    BlockLimit(cur, end);
    if BlockExp(cur, end) < j {
      Pow2Monotonic(BlockExp(cur, end), j);
    }
  }

  lemma PowMod(j: nat)
    ensures Pow2(j) % Pow2(j) == 0
    ensures Pow2(j) % Pow2(j + 1) != 0
  {
    DivModUnique(Pow2(j), Pow2(j), 1, 0);
    DivModUnique(Pow2(j), Pow2(j + 1), 0, Pow2(j));
  }

  lemma {:induction false} TightFalling(cur: nat, end: int, m: nat)
    requires cur % Pow2(m) == 0 && end == cur + Pow2(m) - 2 && 0 <= end < U32_MAX
    ensures |Greedy(cur, end)| == m
    decreases m
  {
    hide BlockExp, TrailingZeros, Greedy;
    if m > 0 && cur <= end {
      var k := BlockExp(cur, end);
      GreedyStep(cur, end);
      BlockFits(cur, end);
      BlockLimit(cur, end);
      if m <= k { if m < k { Pow2Monotonic(m, k); } assert false; }
      if k < m - 1 { Pow2Monotonic(k, m - 1); }
      if cur > 0 { TrailingZerosUnique(cur, m); }
      DivisibleDown(cur, k, m);
      AddMultiple(cur, Pow2(k));
      TightFalling(cur + Pow2(k), end, m - 1);
    }
  }
}
