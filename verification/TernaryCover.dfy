/** Decomposition of a closed range of 32-bit values into ternary (value, mask)
    entries, as the gate tables of TAS and PSFP need it. The controller holds two
    copies of the loop (one per table) and its evaluation program a third; they
    differ only in the match keys and action data attached to each entry, which is
    the `payload` here. */
module TernaryCover {
  import opened Bits

  datatype Entry = Entry(value: u64, mask: u64)

  /** One table request: the ternary key and everything that does not depend on it. */
  datatype Request<+P> = Request(entry: Entry, payload: P)

  /** Ternary match of a key of any width; a mask built from 32 bits is zero-extended. */
  predicate Matches(e: Entry, key: nat) {
    And(key, e.mask) == And(e.value, e.mask)
  }

  function MatchCount(es: seq<Entry>, key: nat): nat {
    if es == [] then 0
    else (if Matches(es[0], key) then 1 else 0) + MatchCount(es[1..], key)
  }

  function EntriesIn<P>(rs: seq<Request<P>>): seq<Entry> {
    seq(|rs|, i requires 0 <= i < |rs| => rs[i].entry)
  }

  /** The rows of a table that match a ternary key and the exact keys tested by
      `exact`. The controller gives gate rows no priority, so the switch may act on
      any of them. */
  function Rows<P(!new)>(table: seq<Request<P>>, key: nat, exact: P -> bool): (rows: seq<Request<P>>)
    ensures forall r :: r in rows <==> r in table && Matches(r.entry, key) && exact(r.payload)
  {
    if table == [] then []
    else
      var rest := Rows(table[1..], key, exact);
      if Matches(table[0].entry, key) && exact(table[0].payload) then [table[0]] + rest else rest
  }

  /** An aligned block of 2^k consecutive values. */
  datatype Block = Block(lo: nat, k: nat) {
    ghost predicate Aligned() { lo % Pow2(k) == 0 }
    predicate Contains(x: nat) { lo <= x < lo + Pow2(k) }
    function Last(): nat { lo + Pow2(k) - 1 }
    predicate Within(start: nat, end: nat) { start <= lo && Last() <= end }
    predicate Inside(b: Block) { Within(b.lo, b.Last()) }
  }

  /** Largest exponent the loop allows at `cur`: the block must fit before `end`
      and `cur` must be aligned to it. */
  function BlockExp(cur: nat, end: nat): (k: nat)
    requires cur <= end
  {
    Min(BitLength(end - cur + 1) - 1, if cur == 0 then 31 else TrailingZeros(cur))
  }

  lemma BlockFits(cur: nat, end: nat)
    requires cur <= end
    ensures Block(cur, BlockExp(cur, end)).Aligned()
    ensures cur + Pow2(BlockExp(cur, end)) - 1 <= end
  {
    var fit := BitLength(end - cur + 1) - 1;
    var align := if cur == 0 then 31 else TrailingZeros(cur);
    if cur > 0 { LowestSetBit(cur); }
    Down(cur, BlockExp(cur, end), align, fit);
  }

  lemma Down(cur: nat, k: nat, align: nat, fit: nat)
    requires k <= align && k <= fit && (cur == 0 || cur % Pow2(align) == 0)
    ensures cur % Pow2(k) == 0 && Pow2(k) <= Pow2(fit)
  {
    if cur == 0 {
      DivModUnique(0, Pow2(k), 0, 0);
    } else {
      DivisibleDown(cur, k, align);
    }
    if k < fit { Pow2Monotonic(k, fit); }
  }

  /** The blocks the loop emits, from left to right. */
  function Greedy(start: nat, end: nat): (bs: seq<Block>)
    ensures bs == [] <==> start > end
    ensures bs != [] ==> bs[0].lo == start
    decreases if start <= end then end - start + 1 else 0
  {
    if start > end then []
    else
      var k := BlockExp(start, end);
      [Block(start, k)] + Greedy(start + Pow2(k), end)
  }

  /** The entry whose prefix mask selects exactly the block. */
  function EntryOf(b: Block): Entry
    requires b.lo < TWO_32 && b.k <= 31
  {
    Pow2Constants();
    Pow2Monotonic(b.k, 32);
    Entry(b.lo, Not(32, Pow2(b.k) - 1))
  }

  lemma {:induction false} GreedyBlocks(start: nat, end: nat)
    ensures forall b :: b in Greedy(start, end) ==> b.Aligned() && b.Within(start, end)
    ensures end < TWO_32 ==> forall b :: b in Greedy(start, end) ==> b.lo < TWO_32 && b.k <= 31
    decreases if start <= end then end - start + 1 else 0
  {
    if start <= end {
      hide BlockExp;
      BlockFits(start, end);
      GreedyBlocks(start + Pow2(BlockExp(start, end)), end);
      if end < TWO_32 { ExpSmall(start, end); }
    }
  }

  lemma ExpSmall(cur: nat, end: nat)
    requires cur <= end < TWO_32
    ensures BlockExp(cur, end) <= 31
  {
    Pow2Constants();
    if cur > 0 && TrailingZeros(cur) >= 32 {
      LowestSetBit(cur);
      if TrailingZeros(cur) > 32 { Pow2Monotonic(32, TrailingZeros(cur)); }
    }
  }

  /** The ternary entries of a range of 32-bit values. */
  function Entries(start: nat, end: u32): seq<Entry>
    decreases if start <= end then end - start + 1 else 0
  {
    if start > end then []
    else
      ExpSmall(start, end);
      var b := Block(start, BlockExp(start, end));
      [EntryOf(b)] + Entries(start + Pow2(b.k), end)
  }

  /** The entries are the prefix forms of the blocks, one for one. */
  lemma {:induction false} EntriesAreBlocks(start: nat, end: u32)
    ensures |Entries(start, end)| == |Greedy(start, end)|
    ensures forall i :: 0 <= i < |Greedy(start, end)| ==>
      var b := Greedy(start, end)[i];
      b.lo < TWO_32 && b.k <= 31 && Entries(start, end)[i] == EntryOf(b)
    decreases if start <= end then end - start + 1 else 0
  {
    hide BlockExp;
    if start <= end {
      ExpSmall(start, end);
      EntriesAreBlocks(start + Pow2(BlockExp(start, end)), end);
    }
  }

  // ----- A ternary entry selects its block, modulo 2^32 -----

  lemma EntrySelectsBlock(b: Block, key: nat)
    requires b.Aligned() && b.lo < TWO_32 && b.k <= 31
    ensures Matches(EntryOf(b), key) <==> b.Contains(key % TWO_32)
  {
    var p := Pow2(b.k);
    EntryMask(b);
    assert And(key, EntryOf(b).mask) == key % TWO_32 - key % p by {
      Pow2Constants();
      PrefixMask(key, 32, b.k);
    }
    assert And(b.lo, EntryOf(b).mask) == b.lo by {
      Pow2Constants();
      PrefixMask(b.lo, 32, b.k);
      DivModUnique(b.lo, TWO_32, 0, b.lo);
    }
    assert (key % TWO_32) % p == key % p by {
      Pow2Constants();
      KeepLow(key, b.k, 32);
    }
    RoundDown(key % TWO_32, b.lo, p);
  }

  lemma EntryMask(b: Block)
    requires b.lo < TWO_32 && b.k <= 31
    ensures EntryOf(b).mask == Prefix(32, b.k)
  {
    Pow2Constants();
  }

  lemma {:induction false} KeepLow(x: nat, k: nat, n: nat)
    requires k <= n
    ensures (x % Pow2(n)) % Pow2(k) == x % Pow2(k)
    decreases n
  {
    var y := x % Pow2(n);
    if k < n {
      DoubleKeepsLow(x, Pow2(n - 1));
      KeepLow(x, k, n - 1);
      KeepLow(y, k, n - 1);
    } else {
      DivModUnique(y, Pow2(n), 0, y);
    }
  }

  lemma DoubleKeepsLow(x: nat, p: nat)
    requires p >= 1
    ensures (x % (2 * p)) % p == x % p
  {
    ModDouble(x, p);
    AddMultiple(x % p, p);
    DivModUnique(x % p, p, 0, x % p);
  }

  lemma RoundDown(y: nat, lo: nat, p: nat)
    requires p >= 1 && lo % p == 0
    ensures y - y % p == lo <==> lo <= y < lo + p
  {
    assert y == p * (y / p) + y % p;
    DivModUnique(y - y % p, p, y / p, 0);
    if lo <= y < lo + p {
      MultiplesApart(y - y % p, lo, p);
    }
  }

  // ----- Exact cover -----

  /** Every key is matched exactly once when its low 32 bits lie in the range, and
      never otherwise. */
  lemma {:induction false} ExactCover(start: nat, end: u32, key: nat)
    ensures MatchCount(Entries(start, end), key) == if start <= key % TWO_32 <= end then 1 else 0
    decreases if start <= end then end - start + 1 else 0
  {
    hide BlockExp, And;
    if start <= end {
      var b := Block(start, BlockExp(start, end));
      ExpSmall(start, end);
      BlockFits(start, end);
      EntrySelectsBlock(b, key);
      ExactCover(start + Pow2(b.k), end, key);
      CountFirst(EntryOf(b), Entries(start + Pow2(b.k), end), key);
    }
  }

  lemma CountFirst(e: Entry, es: seq<Entry>, key: nat)
    ensures MatchCount([e] + es, key) == (if Matches(e, key) then 1 else 0) + MatchCount(es, key)
  {
    assert ([e] + es)[1..] == es;
  }

  lemma {:induction false} MatchCountPositive(es: seq<Entry>, key: nat)
    ensures MatchCount(es, key) > 0 <==> exists e :: e in es && Matches(e, key)
  {
    if es != [] {
      MatchCountPositive(es[1..], key);
      assert forall e :: e in es <==> e == es[0] || e in es[1..];
    }
  }

  /** What a lookup sees of a range: some entry matches iff the key lies in it. */
  lemma CoverHit(start: nat, end: u32, key: nat)
    ensures (exists e :: e in Entries(start, end) && Matches(e, key)) <==> start <= key % TWO_32 <= end
  {
    ExactCover(start, end, key);
    MatchCountPositive(Entries(start, end), key);
  }

  // ----- Entries of adjoining ranges -----

  /** The entry of a single value. */
  function ExactEntry(x: u32): Entry {
    EntryOf(Block(x, 0))
  }

  /** A block inside a range is a single value iff its entry is the exact one. */
  lemma OnlyExact(b: Block, x: u32)
    requires b.lo < TWO_32 && b.k <= 31 && b.Aligned()
    ensures EntryOf(b) == ExactEntry(x) <==> b == Block(x, 0)
  {
  }

  /** The first block is a single value iff the range is, or starts at an odd number. */
  lemma FirstSingle(start: nat, end: nat)
    requires start <= end
    ensures BlockExp(start, end) == 0 <==> start == end || start % 2 == 1
  {
    if start < end { assert BitLength(end - start + 1) >= 2; }
    assert BitLength(1) == 1;
  }

  lemma StartsExact(start: u32, end: u32)
    requires start <= end
    ensures ExactEntry(start) in Entries(start, end) <==> start == end || start % 2 == 1
  {
    ExpSmall(start, end);
    var b := Block(start, BlockExp(start, end));
    BlockFits(start, end);
    FirstSingle(start, end);
    OnlyExact(b, start);
    var rest := Entries(start + Pow2(b.k), end);
    if ExactEntry(start) in rest {
      InRange(start + Pow2(b.k), end, ExactEntry(start), start);
    }
  }

  /** An entry of a range matches only values of the range. */
  lemma InRange(start: nat, end: u32, e: Entry, x: u32)
    requires e in Entries(start, end) && Matches(e, x)
    ensures start <= x <= end
  {
    CoverHit(start, end, x);
    ModSmall(x, TWO_32);
  }

  lemma ExactMatches(x: u32)
    ensures Matches(ExactEntry(x), x)
  {
    ModSmall(x, TWO_32);
    assert Block(x, 0).Aligned();
    EntrySelectsBlock(Block(x, 0), x);
  }

  lemma {:induction false} EndsExact(start: u32, end: u32)
    requires start <= end
    ensures ExactEntry(end) in Entries(start, end) <==> start == end || end % 2 == 0
    decreases end - start
  {
    if start == end {
      StartsExact(start, end);
    } else {
      hide *;
      var next := AfterFirst(start, end);
      if next <= end { EndsExact(next, end); }
    }
  }

  /** The first block of a longer range ends before an even number, and is not the exact
      one of the end. */
  lemma AfterFirst(start: u32, end: u32) returns (next: nat)
    requires start < end
    ensures start < next <= end + 1 && next % 2 == 0
    ensures ExactEntry(end) in Entries(start, end) <==> next <= end && ExactEntry(end) in Entries(next, end)
  {
    var k := BlockExp(start, end);
    next := start + Pow2(k);
    ExpSmall(start, end);
    BlockFits(start, end);
    FirstSingle(start, end);
    OnlyExact(Block(start, k), end);
    assert Entries(start, end) == [EntryOf(Block(start, k))] + Entries(next, end);
    hide BlockExp, Entries, Pow2, EntryOf;
    NextParity(start, k);
  }

  /** A longer block starts and ends on even boundaries. */
  lemma NextParity(start: nat, k: nat)
    requires start % Pow2(k) == 0 && (k == 0 ==> start % 2 == 1)
    ensures (start + Pow2(k)) % 2 == 0
  {
    if k > 0 {
      assert Pow2(1) == 2;
      DivisibleDown(start, 1, k);
      EvenSum(start, Pow2(k - 1));
    }
  }

  lemma EvenSum(x: nat, half: nat)
    requires x % 2 == 0
    ensures (x + 2 * half) % 2 == 0
  {
    assert x + 2 * half == 2 * (x / 2 + half);
  }

  ghost predicate SharedEntry(a: u32, b: u32, c: u32, d: u32) {
    exists e :: e in Entries(a, b) && e in Entries(c, d)
  }

  /** Two ranges that meet in at most one value share an entry iff they meet in one, the
      left one has an exact entry for its end and the right one for its start. */
  lemma SharedEntryExact(a: u32, b: u32, c: u32, d: u32)
    requires a <= b <= c <= d
    ensures SharedEntry(a, b, c, d) <==> b == c && (a == b || b % 2 == 0) && (c == d || c % 2 == 1)
  {
    EndsExact(a, b);
    StartsExact(c, d);
    if e :| e in Entries(a, b) && e in Entries(c, d) {
      hide Entries;
      SharedIsExact(a, b, c, d, e);
    }
  }

  lemma SharedIsExact(a: u32, b: u32, c: u32, d: u32, e: Entry)
    requires b <= c && e in Entries(a, b) && e in Entries(c, d)
    ensures b == c && e == ExactEntry(b)
  {
    EntriesAreBlocks(a, b);
    GreedyBlocks(a, b);
    hide Entries, Greedy, Matches;
    var i :| 0 <= i < |Entries(a, b)| && Entries(a, b)[i] == e;
    var block := Greedy(a, b)[i];
    assert block in Greedy(a, b);
    EntryMatchesRange(block, block.lo);
    InRange(a, b, e, block.lo);
    InRange(c, d, e, block.lo);
  }

  lemma EntryMatchesRange(b: Block, x: u32)
    requires b.Aligned() && b.lo < TWO_32 && b.k <= 31 && b.Contains(x)
    ensures Matches(EntryOf(b), x)
  {
    ModSmall(x, TWO_32);
    EntrySelectsBlock(b, x);
  }

  /** The entries of one range are all different. */
  lemma EntriesDiffer(start: u32, end: u32, i: nat, j: nat)
    requires i < j < |Entries(start, end)|
    ensures Entries(start, end)[i] != Entries(start, end)[j]
  {
    var e := Entries(start, end)[i];
    EntriesAreBlocks(start, end);
    GreedyBlocks(start, end);
    var block := Greedy(start, end)[i];
    assert block in Greedy(start, end);
    EntryMatchesRange(block, block.lo);
    ExactCover(start, end, block.lo);
    if Entries(start, end)[j] == e { CountsBoth(Entries(start, end), block.lo, i, j); }
  }

  lemma {:induction false} CountsBoth(es: seq<Entry>, key: nat, i: nat, j: nat)
    requires i < j < |es| && Matches(es[i], key) && Matches(es[j], key)
    ensures MatchCount(es, key) >= 2
  {
    if i > 0 {
      CountsBoth(es[1..], key, i - 1, j - 1);
    } else {
      assert es[1..][j - 1] in es[1..];
      MatchCountPositive(es[1..], key);
    }
  }

  // ----- The loop -----

  /** One request per block, in order. */
  function Requests<P>(es: seq<Entry>, payload: P): seq<Request<P>> {
    seq(|es|, i requires 0 <= i < |es| => Request(es[i], payload))
  }

  lemma RequestsHave<P>(es: seq<Entry>, payload: P, r: Request<P>)
    ensures r in Requests(es, payload) <==> r.payload == payload && r.entry in es
  {
    if r.payload == payload && r.entry in es {
      var i :| 0 <= i < |es| && es[i] == r.entry;
      assert Requests(es, payload)[i] == r;
    }
  }

  /** Size of the next block: the largest power of two that is at most the number
      of values left and divides `cur`. The count of values left overflows for the
      full 32-bit range. */
  method BlockSize(cur: u32, end: u32) returns (r: Result<u32>)
    requires cur < end
    ensures r.Panic? <==> end - cur == U32_MAX
    ensures r.Ok? ==> r.value == Pow2(BlockExp(cur, end)) && cur + r.value <= end + 1
  {
    hide BlockExp, BitLength, TrailingZeros, LeadingZeros32, Pow2;
    BlockFits(cur, end);
    var remaining: u32 := end - cur;
    if remaining == U32_MAX {
      return Panic;
    }
    var numRemaining: u32 := remaining + 1;
    var maxBlockSize: u32 := ShiftOne(31 - LeadingZeros32(numRemaining));
    var alignSize: u32 := if cur == 0 then ShiftOne(31) else AlignSize(cur);
    SizeIsBlock(cur, end);
    return Ok(if maxBlockSize <= alignSize then maxBlockSize else alignSize);
  }

  /** The controller's loop over 32-bit values, every addition and subtraction
      checked for overflow. It fails exactly when the range ends at the largest
      32-bit value and has more than one element. */
  method RangeToTernaryEntries<P>(start: u32, end: u32, payload: P) returns (r: Result<seq<Request<P>>>)
    ensures r.Ok? <==> start >= end || end < U32_MAX
    ensures r.Ok? ==> r.value == Requests(Entries(start, end), payload)
  {
    hide BlockExp, Emitted;
    var requests: seq<Request<P>> := [];
    var cur: u32 := start;
    EmittedNothing(start, end, payload);
    while cur <= end
      invariant start <= cur
      invariant start < end == U32_MAX ==> cur < end
      invariant Emitted(requests, cur, start, end, payload)
      decreases end - cur
    {
      Emit(requests, cur, start, end, payload);
      if cur == end {
        requests := requests + [Request(Entry(cur, 0xFFFF_FFFF), payload)];
        EmittedAll(requests, cur + 1, start, end, payload);
        return Ok(requests);
      }
      var size :- BlockSize(cur, end);
      var mask: u32 := U32_MAX - (size - 1);
      requests := requests + [Request(Entry(cur, mask), payload)];
      if cur + size > U32_MAX {
        return Panic;
      }
      ParityStep(cur, end);
      cur := cur + size;
    }
    EmittedAll(requests, cur, start, end, payload);
    return Ok(requests);
  }

  /** The requests so far and those of the rest of the range make up the whole. */
  ghost predicate Emitted<P>(requests: seq<Request<P>>, cur: nat, start: u32, end: u32, payload: P) {
    requests + Requests(Entries(cur, end), payload) == Requests(Entries(start, end), payload)
  }

  lemma EmittedNothing<P>(start: u32, end: u32, payload: P)
    ensures Emitted([], start, start, end, payload)
  {
  }

  lemma EmittedAll<P>(requests: seq<Request<P>>, cur: nat, start: u32, end: u32, payload: P)
    requires cur > end && Emitted(requests, cur, start, end, payload)
    ensures requests == Requests(Entries(start, end), payload)
  {
  }

  lemma Emit<P>(requests: seq<Request<P>>, cur: u32, start: u32, end: u32, payload: P)
    requires cur <= end && Emitted(requests, cur, start, end, payload)
    ensures var size := Pow2(BlockExp(cur, end));
      && size <= U32_MAX
      && Emitted(requests + [Request(Entry(cur, U32_MAX - (size - 1)), payload)], cur + size, start, end, payload)
      && (cur == end ==> size == 1)
  {
    hide BlockExp, Requests;
    var e, rest := FirstEntry(cur, end);
    RequestsCons(e, rest, payload);
    assert requests + ([Request(e, payload)] + Requests(rest, payload))
        == (requests + [Request(e, payload)]) + Requests(rest, payload);
  }

  /** The entry the loop pushes next. */
  lemma FirstEntry(cur: u32, end: u32) returns (e: Entry, rest: seq<Entry>)
    requires cur <= end
    ensures var size := Pow2(BlockExp(cur, end));
      && size <= U32_MAX
      && e == Entry(cur, U32_MAX - (size - 1))
      && rest == Entries(cur + size, end)
      && (cur == end ==> size == 1)
    ensures Entries(cur, end) == [e] + rest
  {
    hide BlockExp;
    ExpSmall(cur, end);
    BlockFits(cur, end);
    LastBlock(cur, end);
    var b := Block(cur, BlockExp(cur, end));
    Pow2Constants();
    Pow2Monotonic(b.k, 32);
    e, rest := EntryOf(b), Entries(cur + Pow2(b.k), end);
  }

  lemma RequestsCons<P>(e: Entry, es: seq<Entry>, payload: P)
    ensures Requests([e] + es, payload) == [Request(e, payload)] + Requests(es, payload)
  {
  }

  /** `1u32 << n` for a shift below the word size. */
  function ShiftOne(n: nat): (r: u32)
    requires n <= 31
    ensures r == Pow2(n)
  {
    Pow2Constants();
    Pow2Monotonic(n, 32);
    Pow2(n)
  }

  function AlignSize(cur: u32): (r: u32)
    requires cur > 0
    ensures r == Pow2(TrailingZeros(cur))
  {
    LowestSetBit(cur);
    Pow2(TrailingZeros(cur))
  }

  lemma SizeIsBlock(cur: u32, end: u32)
    requires cur <= end && end - cur < U32_MAX
    ensures Pow2(BlockExp(cur, end))
         == Min(Pow2(31 - LeadingZeros32(end - cur + 1)), if cur == 0 then Pow2(31) else Pow2(TrailingZeros(cur)))
  {
    hide Pow2, BitLength, TrailingZeros, LeadingZeros32;
    var fit := 31 - LeadingZeros32(end - cur + 1);
    ExponentOf(end - cur + 1, fit);
    MinPow2(fit, if cur == 0 then 31 else TrailingZeros(cur));
  }

  lemma MinPow2(a: nat, b: nat)
    ensures Pow2(Min(a, b)) == Min(Pow2(a), Pow2(b))
  {
    if a < b { Pow2Monotonic(a, b); } else if b < a { Pow2Monotonic(b, a); }
  }

  lemma ExponentOf(x: nat, n: nat)
    requires Pow2(n) <= x < 2 * Pow2(n)
    ensures BitLength(x) - 1 == n
  {
    BitLengthBound(x, n + 1);
    if BitLength(x) < n + 1 && BitLength(x) != n { Pow2Monotonic(BitLength(x), n); }
  }

  lemma LastBlock(cur: nat, end: nat)
    requires cur <= end
    ensures cur == end ==> BlockExp(cur, end) == 0
  {
    assert BitLength(1) == 1;
  }

  /** A block never stops one short of the largest 32-bit value. */
  lemma ParityStep(cur: u32, end: u32)
    requires cur < end
    ensures end == U32_MAX ==> cur + Pow2(BlockExp(cur, end)) != end
  {
    var k := BlockExp(cur, end);
    if k == 0 {
      SmallBlockOdd(cur, end);
    } else {
      BlockFits(cur, end);
      EvenBlock(cur, k);
    }
  }

  lemma EvenBlock(cur: nat, k: nat)
    requires k > 0 && cur % Pow2(k) == 0
    ensures (cur + Pow2(k)) % 2 == 0
  {
    assert cur % 2 == 0 by {
      DivisibleDown(cur, 1, k);
      assert Pow2(1) == 2;
    }
    var half := Pow2(k - 1);
    DivModUnique(cur + 2 * half, 2, cur / 2 + half, 0);
  }

  lemma SmallBlockOdd(cur: u32, end: u32)
    requires cur < end && BlockExp(cur, end) == 0
    ensures cur % 2 == 1
  {
    assert Pow2(1) == 2 && Pow2(0) == 1;
    assert BitLength(end - cur + 1) >= 2;
  }
}
