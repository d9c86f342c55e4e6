/** Fixed-width machine integers and the bit operations the controller uses, on
    natural numbers: `And` and `Or` are defined bit by bit, and the lemmas below
    turn the masks that occur in ternary keys into division and remainder. */
module Bits {

  /** Result of a computation that Rust aborts on an arithmetic overflow, on an
      index out of bounds or on `unwrap` of a missing value. */
  datatype Result<+T> = Ok(value: T) | Panic {
    predicate IsFailure() { Panic? }
    function PropagateFailure<U>(): Result<U>
      requires Panic?
    {
      Panic
    }
    function Extract(): T
      requires Ok?
    {
      value
    }
  }

  datatype Option<+T> = None | Some(value: T)

  const U32_MAX := 0xFFFF_FFFF
  const TWO_32 := 0x1_0000_0000
  const TWO_48 := 0x1_0000_0000_0000
  const TWO_64 := 0x1_0000_0000_0000_0000

  type u8 = x: nat | x < 0x100
  type u16 = x: nat | x < 0x1_0000
  type u32 = x: nat | x < 0x1_0000_0000
  type u48 = x: nat | x < 0x1_0000_0000_0000
  type u64 = x: nat | x < 0x1_0000_0000_0000_0000

  function Min(a: int, b: int): (m: int) {
    if a <= b then a else b
  }

  function Pow2(n: nat): (p: nat)
    ensures p >= 1
  {
    if n == 0 then 1 else 2 * Pow2(n - 1)
  }

  lemma {:induction false} Pow2Monotonic(a: nat, b: nat)
    requires a < b
    ensures 2 * Pow2(a) <= Pow2(b)
    decreases b
  {
    if a < b - 1 {
      Pow2Monotonic(a, b - 1);
    }
  }

  lemma Pow2Constants()
    ensures Pow2(7) == 0x80
    ensures Pow2(31) == 0x8000_0000
    ensures Pow2(32) == TWO_32
    ensures Pow2(33) == 0x2_0000_0000
    ensures Pow2(48) == TWO_48
  {
    assert Pow2(8) == 0x100;
    assert Pow2(16) == 0x1_0000;
    assert Pow2(24) == 0x100_0000;
    assert Pow2(32) == 0x1_0000_0000;
    assert Pow2(40) == 0x100_0000_0000;
  }

  // ----- Remainders and powers of two -----

  /** The remainder modulo 2p keeps the remainder modulo p and one more bit. */
  lemma ModDouble(x: nat, p: nat)
    requires p >= 1
    ensures x % (2 * p) == x % p || x % (2 * p) == x % p + p
    ensures (x % (2 * p) == x % p) <==> (x / p) % 2 == 0
    ensures x / (2 * p) == (x / p) / 2
  {
    var q, r := x / p, x % p;
    assert x == p * q + r;
    var h, b := q / 2, q % 2;
    assert q == 2 * h + b;
    var two := 2 * p;
    assert p * q == two * h + p * b by {
      assert p * (2 * h + b) == two * h + p * b;
    }
    assert x == two * h + (p * b + r);
    assert 0 <= p * b + r < two;
    DivModUnique(x, two, h, p * b + r);
  }

  lemma DivModUnique(x: int, d: int, q: int, r: int)
    requires d > 0 && 0 <= r < d && x == d * q + r
    ensures x / d == q && x % d == r
  {
    var q', r' := x / d, x % d;
    assert x == d * q' + r';
    Distribute(d, q, q');
    if q > q' {
      AtLeastFactor(d, q - q');
    } else if q < q' {
      Distribute(d, q', q);
      AtLeastFactor(d, q' - q);
    }
  }

  lemma Distribute(d: int, a: int, b: int)
    ensures d * (a - b) == d * a - d * b
  {
  }

  lemma AtLeastFactor(d: int, m: int)
    requires d > 0 && m >= 1
    ensures d * m >= d
  {
  }

  /** Halving moves a remainder down by one exponent. */
  lemma ModHalf(x: nat, n: nat)
    ensures x % Pow2(n + 1) == 2 * ((x / 2) % Pow2(n)) + x % 2
  {
    var p := Pow2(n);
    var y := x / 2;
    var q, r := y / p, y % p;
    assert y == p * q + r;
    assert x == 2 * y + x % 2;
    assert x == (2 * p) * q + (2 * r + x % 2) by {
      assert 2 * (p * q) == (2 * p) * q;
    }
    DivModUnique(x, 2 * p, q, 2 * r + x % 2);
  }

  lemma RoundedDown(x: nat, p: nat)
    requires p >= 1
    ensures 0 <= x - x % p <= x
    ensures (x - x % p) % p == 0
    ensures (x - x % p) / p == x / p
  {
    var q := x / p;
    assert x == p * q + x % p;
    NonNegativeProduct(p, q);
    DivModUnique(p * q, p, q, 0);
  }

  lemma OneMore(n: nat, k: nat)
    ensures (n + 1) * k == n * k + k
  {
  }

  lemma NonNegativeProduct(a: nat, b: nat)
    ensures a * b >= 0
  {
  }

  lemma ModSmall(x: nat, p: nat)
    requires x < p
    ensures x % p == x && x / p == 0
  {
    DivModUnique(x, p, 0, x);
  }

  lemma MultiplesApart(a: nat, b: nat, p: nat)
    requires p >= 1 && a % p == 0 && b % p == 0
    requires a < b + p && b < a + p
    ensures a == b
  {
    var i, j := a / p, b / p;
    assert a == p * i && b == p * j;
    if i < j {
      Distribute(p, j, i);
      AtLeastFactor(p, j - i);
    } else if j < i {
      Distribute(p, i, j);
      AtLeastFactor(p, i - j);
    }
  }

  lemma AddMultiple(a: nat, p: nat)
    requires p >= 1
    ensures (a + p) % p == a % p
    ensures (a + p) / p == a / p + 1
  {
    assert a == p * (a / p) + a % p;
    assert a + p == p * (a / p + 1) + a % p;
    DivModUnique(a + p, p, a / p + 1, a % p);
  }

  lemma {:induction false} DivisibleDown(x: nat, j: nat, k: nat)
    requires j <= k && x % Pow2(k) == 0
    ensures x % Pow2(j) == 0
    decreases k - j
  {
    if j < k {
      DivisibleDown(x, j + 1, k);
      ModDouble(x, Pow2(j));
    }
  }

  // ----- Bitwise conjunction and disjunction -----

  function And(a: nat, b: nat): nat {
    if a == 0 || b == 0 then 0
    else 2 * And(a / 2, b / 2) + (if a % 2 == 1 && b % 2 == 1 then 1 else 0)
  }

  function Or(a: nat, b: nat): nat
    decreases a + b
  {
    if a == 0 then b
    else if b == 0 then a
    else 2 * Or(a / 2, b / 2) + (if a % 2 == 1 || b % 2 == 1 then 1 else 0)
  }

  /** Complement of an n-bit word. */
  function Not(n: nat, a: nat): nat
    requires a < Pow2(n)
  {
    Pow2(n) - 1 - a
  }

  /** Masking with ones in the bits k to n-1: an arbitrarily wide key is cut to n
      bits and loses its k low bits. */
  lemma {:induction false} PrefixMask(x: nat, n: nat, k: nat)
    requires k <= n
    ensures And(x, Prefix(n, k)) == x % Pow2(n) - x % Pow2(k)
    decreases n
  {
    var mask := Prefix(n, k);
    if k < n {
      ModHalf(x, n - 1);
      if k == 0 {
        assert mask / 2 == Prefix(n - 1, 0) && mask % 2 == 1;
        PrefixMask(x / 2, n - 1, 0);
      } else {
        ModHalf(x, k - 1);
        assert mask / 2 == Prefix(n - 1, k - 1) && mask % 2 == 0;
        PrefixMask(x / 2, n - 1, k - 1);
      }
      Halved(x, mask);
    }
  }

  /** The n-bit mask with ones in the bits k to n-1. */
  function Prefix(n: nat, k: nat): nat
    requires k <= n
  {
    if k < n then Pow2Monotonic(k, n); Pow2(n) - Pow2(k) else 0
  }

  lemma Halved(a: nat, b: nat)
    ensures And(a, b) == 2 * And(a / 2, b / 2) + (if a % 2 == 1 && b % 2 == 1 then 1 else 0)
  {
    if a == 0 || b == 0 {
      assert And(a / 2, b / 2) == 0;
    }
  }

  /** Testing a single bit. */
  lemma {:induction false} AndBit(x: nat, i: nat)
    ensures And(x, Pow2(i)) == if (x / Pow2(i)) % 2 == 1 then Pow2(i) else 0
    decreases i
  {
    if i == 0 {
      assert And(x, 1) == 2 * And(x / 2, 0) + x % 2 || x == 0;
    } else {
      AndBit(x / 2, i - 1);
      ModDouble(x, 1);
      DivHalf(x, i - 1);
      assert x != 0 ==> And(x, Pow2(i)) == 2 * And(x / 2, Pow2(i - 1));
      if x == 0 {
        assert 0 / Pow2(i) == 0 by { DivModUnique(0, Pow2(i), 0, 0); }
      }
    }
  }

  lemma DivHalf(x: nat, n: nat)
    ensures x / Pow2(n + 1) == (x / 2) / Pow2(n)
  {
    ModHalf(x, n);
    var p := Pow2(n);
    var y := x / 2;
    assert y == p * (y / p) + y % p;
    assert x == (2 * p) * (y / p) + (2 * (y % p) + x % 2) by {
      assert 2 * (p * (y / p)) == (2 * p) * (y / p);
    }
    DivModUnique(x, 2 * p, y / p, 2 * (y % p) + x % 2);
  }

  /** Setting a bit below which, and at which, the word is zero. */
  lemma {:induction false} OrBit(a: nat, i: nat)
    requires a % Pow2(i + 1) == 0
    ensures Or(a, Pow2(i)) == a + Pow2(i)
    decreases i
  {
    ModHalf(a, i);
    if i == 0 {
      assert a != 0 ==> Or(a, 1) == 2 * Or(a / 2, 0) + 1;
      assert a != 0 ==> Or(a / 2, 0) == a / 2;
    } else if a != 0 {
      OrBit(a / 2, i - 1);
      assert Or(a, Pow2(i)) == 2 * Or(a / 2, Pow2(i - 1));
    }
  }

  // ----- Leading and trailing zeros -----

  function BitLength(x: nat): (n: nat)
    ensures x == 0 <==> n == 0
    ensures x > 0 ==> Pow2(n - 1) <= x
    ensures x < Pow2(n)
  {
    if x == 0 then 0 else 1 + BitLength(x / 2)
  }

  lemma {:induction false} BitLengthBound(x: nat, n: nat)
    requires x < Pow2(n)
    ensures BitLength(x) <= n
  {
    if BitLength(x) > n {
      if n < BitLength(x) - 1 { Pow2Monotonic(n, BitLength(x) - 1); }
    }
  }

  function LeadingZeros32(x: u32): (n: nat)
    ensures n <= 32
    ensures x > 0 ==> n <= 31 && Pow2(31 - n) <= x < 2 * Pow2(31 - n)
  {
    Pow2Constants();
    BitLengthBound(x, 32);
    32 - BitLength(x)
  }

  /** Position of the lowest set bit. */
  function TrailingZeros(x: nat): nat
    requires x > 0
  {
    if x % 2 == 1 then 0 else 1 + TrailingZeros(x / 2)
  }

  lemma {:induction false} LowestSetBit(x: nat)
    requires x > 0
    ensures x % Pow2(TrailingZeros(x)) == 0
    ensures x % Pow2(TrailingZeros(x) + 1) != 0
    ensures Pow2(TrailingZeros(x)) <= x
  {
    if x % 2 == 0 {
      LowestSetBit(x / 2);
      ModHalf(x, TrailingZeros(x / 2));
      ModHalf(x, TrailingZeros(x / 2) + 1);
    } else {
      ModHalf(x, 0);
      assert Pow2(0) == 1 && Pow2(1) == 2;
    }
  }
}
