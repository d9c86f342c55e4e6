/** The evaluation program's first decomposition, which the controller no longer
    uses: it treats 0 as unaligned and measures the distance to the end of the range
    instead of the number of values left. */
module Evaluation {
  import opened Bits
  import opened TernaryCover
  import CoverOptimality

  function Exact(x: u32): Entry {
    Entry(x, U32_MAX)
  }

  /** The optimised decomposition of all values but the last (and, from 0, the
      first), with exact matches for those. */
  function Detour(start: u32, end: u32): seq<Entry> {
    if start > end then []
    else if start == end then [Exact(end)]
    else if start == 0 then [Exact(0)] + Entries(1, end - 1) + [Exact(end)]
    else Entries(start, end - 1) + [Exact(end)]
  }

  /** Size of the next block; no operation overflows, whatever the range. */
  method DetourSize(cur: u32, end: u32) returns (size: u32)
    requires cur < end
    ensures size == if cur == 0 then 1 else Pow2(BlockExp(cur, end - 1))
    ensures cur + size <= end
  {
    hide BitLength, TrailingZeros, LeadingZeros32, BlockExp, Pow2;
    var remaining: u32 := end - cur;
    var maxBlockSize: u32 := ShiftOne(31 - LeadingZeros32(remaining));
    var alignSize: u32 := if cur == 0 then 1 else AlignSize(cur);
    size := if maxBlockSize <= alignSize then maxBlockSize else alignSize;
    SizeIsBlock(cur, end - 1);
    BlockFits(cur, end - 1);
  }

  /** The first decomposition takes the detour, on every range. */
  method TernaryEntries(start: u32, end: u32) returns (entries: seq<Entry>)
    ensures entries == Detour(start, end)
  {
    hide BlockExp, Entries, Detour;
    entries := [];
    if start > end {
      DetourEmpty(start, end);
      return;
    }
    var cur: u32 := start;
    while cur <= end
      invariant cur <= end
      invariant entries + Detour(cur, end) == Detour(start, end)
      decreases end - cur
    {
      var remaining: u32 := end - cur;
      if remaining == 0 {
        DetourLast(end);
        entries := entries + [Entry(cur, 0xFFFF_FFFF)];
        break;
      }
      var size := DetourSize(cur, end);
      var mask: u32 := U32_MAX - (size - 1);
      DetourStep(cur, end, size, entries);
      entries := entries + [Entry(cur, mask)];
      cur := cur + size;
    }
  }

  lemma DetourEmpty(start: u32, end: u32)
    requires start > end
    ensures Detour(start, end) == []
  {
  }

  lemma DetourLast(end: u32)
    ensures Detour(end, end) == [Exact(end)]
  {
  }

  lemma DetourStep(cur: u32, end: u32, size: u32, done: seq<Entry>)
    requires cur < end && cur + size <= end
    requires size == if cur == 0 then 1 else Pow2(BlockExp(cur, end - 1))
    ensures done + Detour(cur, end) == (done + [Entry(cur, U32_MAX - (size - 1))]) + Detour(cur + size, end)
  {
    hide BlockExp, Detour;
    var e := Entry(cur, U32_MAX - (size - 1));
    DetourCons(cur, end, size);
    assert done + ([e] + Detour(cur + size, end)) == (done + [e]) + Detour(cur + size, end);
  }

  lemma DetourCons(cur: u32, end: u32, size: u32)
    requires cur < end && cur + size <= end
    requires size == if cur == 0 then 1 else Pow2(BlockExp(cur, end - 1))
    ensures Detour(cur, end) == [Entry(cur, U32_MAX - (size - 1))] + Detour(cur + size, end)
  {
    hide BlockExp;
    if cur > 0 {
      var e, rest := FirstEntry(cur, end - 1);
      assert cur + size == end ==> rest == [];
    } else {
      assert end == 1 ==> Entries(1, end - 1) == [];
    }
  }

  method CountTernaryEntries(start: u32, end: u32) returns (count: nat)
    ensures count == |Detour(start, end)|
  {
    hide BlockExp, Entries, Detour;
    if start > end {
      DetourEmpty(start, end);
      return 0;
    }
    count := 0;
    var cur: u32 := start;
    while cur <= end
      invariant cur <= end
      invariant count + |Detour(cur, end)| == |Detour(start, end)|
      decreases end - cur
    {
      var remaining: u32 := end - cur;
      if remaining == 0 {
        DetourLast(end);
        count := count + 1;
        break;
      }
      var size := DetourSize(cur, end);
      DetourStep(cur, end, size, []);
      count := count + 1;
      cur := cur + size;
    }
  }

  method CountTernaryEntriesOptimized(start: u32, end: u32) returns (r: Result<nat>)
    ensures r.Ok? <==> start >= end || end < U32_MAX
    ensures r.Ok? ==> r.value == |Entries(start, end)|
  {
    hide BlockExp, Entries;
    if start > end {
      NoEntries(start, end);
      return Ok(0);
    }
    var count := 0;
    var cur: u32 := start;
    while cur <= end
      invariant start <= cur
      invariant start < end == U32_MAX ==> cur < end
      invariant count + |Entries(cur, end)| == |Entries(start, end)|
      decreases end - cur
    {
      ghost var e, rest := FirstEntry(cur, end);
      if cur == end {
        NoEntries(cur + 1, end);
        return Ok(count + 1);
      }
      var size :- BlockSize(cur, end);
      count := count + 1;
      if cur + size > U32_MAX {
        return Panic;
      }
      ParityStep(cur, end);
      cur := cur + size;
    }
    NoEntries(cur, end);
    return Ok(count);
  }

  lemma NoEntries(start: nat, end: u32)
    requires start > end
    ensures Entries(start, end) == []
  {
  }

  // ----- Comparing the two decompositions -----

  lemma ExactSelects(x: u32, key: nat)
    ensures Matches(Exact(x), key) <==> key % TWO_32 == x
  {
    Pow2Constants();
    var b := Block(x, 0);
    EntrySelectsBlock(b, key);
    EntryMask(b);
  }

  lemma {:induction false} MatchCountConcat(a: seq<Entry>, b: seq<Entry>, key: nat)
    ensures MatchCount(a + b, key) == MatchCount(a, key) + MatchCount(b, key)
  {
    if a == [] {
      assert a + b == b;
    } else {
      MatchCountConcat(a[1..], b, key);
      assert (a + b)[1..] == a[1..] + b;
    }
  }

  /** The first decomposition also matches each value of the range exactly once. */
  lemma DetourCoversRange(start: u32, end: u32, key: nat)
    ensures MatchCount(Detour(start, end), key) == if start <= key % TWO_32 <= end then 1 else 0
  {
    hide Matches, Entries;
    if start <= end {
      ExactSelects(end, key);
      CountOne(Exact(end), key);
      if start < end {
        var lo: u32 := if start == 0 then 1 else start;
        ExactCover(lo, end - 1, key);
        MatchCountConcat(Entries(lo, end - 1), [Exact(end)], key);
        if start == 0 {
          ExactSelects(0, key);
          CountFirst(Exact(0), Entries(1, end - 1) + [Exact(end)], key);
          assert Detour(0, end) == [Exact(0)] + (Entries(1, end - 1) + [Exact(end)]);
        }
      }
    }
  }

  lemma CountOne(e: Entry, key: nat)
    ensures MatchCount([e], key) == if Matches(e, key) then 1 else 0
  {
    CountFirst(e, [], key);
    assert [e] + [] == [e];
  }

  /** The blocks of the first decomposition. */
  ghost function DetourBlocks(start: nat, end: nat): seq<Block>
    requires start <= end
  {
    if start == end then [Block(end, 0)]
    else if start == 0 then [Block(0, 0)] + Greedy(1, end - 1) + [Block(end, 0)]
    else Greedy(start, end - 1) + [Block(end, 0)]
  }

  ghost predicate Hit(bs: seq<Block>, x: nat) {
    exists b :: b in bs && b.Contains(x)
  }

  lemma HitConcat(a: seq<Block>, b: seq<Block>, x: nat)
    ensures Hit(a + b, x) <==> Hit(a, x) || Hit(b, x)
  {
    if c :| c in a && c.Contains(x) { assert c in a + b; }
    if c :| c in b && c.Contains(x) { assert c in a + b; }
  }

  lemma HitOne(b: Block, x: nat)
    ensures Hit([b], x) <==> b.Contains(x)
  {
    assert b in [b];
  }

  lemma {:induction false} GreedyUnion(start: nat, end: nat, x: nat)
    ensures Hit(Greedy(start, end), x) <==> start <= x <= end
    decreases if start <= end then end - start + 1 else 0
  {
    hide BlockExp, Hit;
    if start <= end {
      var b := Block(start, BlockExp(start, end));
      BlockFits(start, end);
      GreedyUnion(start + Pow2(b.k), end, x);
      HitConcat([b], Greedy(start + Pow2(b.k), end), x);
      HitOne(b, x);
    } else {
      NoHit(x);
    }
  }

  lemma NoHit(x: nat)
    ensures !Hit([], x)
  {
  }

  lemma {:induction false} SetOfSeq<T>(s: seq<T>)
    ensures |set x | x in s| <= |s|
  {
    if s != [] {
      SetOfSeq(s[1..]);
      assert (set x | x in s) == {s[0]} + (set x | x in s[1..]);
    }
  }

  lemma DetourHit(start: nat, end: nat, x: nat)
    requires start <= end
    ensures Hit(DetourBlocks(start, end), x) <==> start <= x <= end
  {
    hide Hit, Greedy;
    assert Pow2(0) == 1;
    HitOne(Block(end, 0), x);
    HitOne(Block(0, 0), x);
    if start < end {
      var lo := if start == 0 then 1 else start;
      GreedyUnion(lo, end - 1, x);
      HitConcat(Greedy(lo, end - 1), [Block(end, 0)], x);
      if start == 0 {
        assert DetourBlocks(0, end) == [Block(0, 0)] + (Greedy(1, end - 1) + [Block(end, 0)]);
        HitConcat([Block(0, 0)], Greedy(1, end - 1) + [Block(end, 0)], x);
      }
    }
  }

  lemma DetourBlocksCover(start: nat, end: nat)
    requires start <= end
    ensures CoverOptimality.Covers((set b | b in DetourBlocks(start, end)), start, end)
  {
    hide Greedy;
    var bs := DetourBlocks(start, end);
    var s := set b | b in bs;
    assert Pow2(0) == 1;
    if start < end { GreedyBlocks(if start == 0 then 1 else start, end - 1); }
    forall b: Block | b in bs ensures b.Aligned() {}
    forall x: nat
      ensures CoverOptimality.Covered(s, x) <==> start <= x <= end
    {
      DetourHit(start, end, x);
      assert CoverOptimality.Covered(s, x) <==> Hit(bs, x);
    }
  }

  /** The optimised decomposition is never longer than the first one. */
  lemma OptimisedNeverLonger(start: u32, end: u32)
    requires end < U32_MAX
    ensures |Entries(start, end)| <= |Detour(start, end)|
  {
    hide Entries, Detour, DetourBlocks, Greedy, CoverOptimality.Covers;
    EntriesAreBlocks(start, end);
    if start <= end {
      DetourLength(start, end);
      DetourBlocksCover(start, end);
      SetOfSeq(DetourBlocks(start, end));
      CoverOptimality.GreedyIsMinimal((set b | b in DetourBlocks(start, end)), start, end);
    }
  }

  lemma DetourLength(start: u32, end: u32)
    requires start <= end
    ensures |Detour(start, end)| == |DetourBlocks(start, end)|
  {
    hide Entries, Greedy;
    if start < end { EntriesAreBlocks(if start == 0 then 1 else start, end - 1); }
  }
}
