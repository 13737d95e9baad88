/**
 * `aligned_size` (src/utility.rs): rounding a byte count up to a
 * power-of-two alignment with `(value + alignment - 1) & !(alignment - 1)`
 * on `u32`. The bitwise operators are modelled on naturals, bit by bit, and
 * proved equal to "round down to a multiple".
 */
module Utility {
  import opened Wrappers

  const U32_MAX: nat := 0xFFFF_FFFF
  type u32 = x: nat | x <= U32_MAX

  function Pow2(k: nat): (r: nat)
    ensures r >= 1
  {
    if k == 0 then 1 else 2 * Pow2(k - 1)
  }

  /** `u32::is_power_of_two`: exactly one bit set. */
  predicate IsPowerOfTwo(a: nat)
  {
    a == 1 || (a > 1 && a % 2 == 0 && IsPowerOfTwo(a / 2))
  }

  function Log2(a: nat): (k: nat)
    requires IsPowerOfTwo(a)
    ensures Pow2(k) == a
  {
    if a == 1 then 0 else 1 + Log2(a / 2)
  }

  lemma Pow2Monotone(k: nat, n: nat)
    requires k <= n
    ensures Pow2(k) <= Pow2(n)
    ensures Pow2(n) % Pow2(k) == 0
    decreases n
  {
    if k < n {
      Pow2Monotone(k, n - 1);
      var q := Pow2(n - 1) / Pow2(k);
      assert Pow2(n) == Pow2(k) * (2 * q) + 0;
      DivModUnique(Pow2(n), Pow2(k), 2 * q, 0);
    }
  }

  lemma MulNonNeg(d: nat, c: nat)
    ensures d * c >= 0
  {}

  lemma MulMono(d: nat, a: int, b: int)
    requires a <= b
    ensures d * a <= d * b
  {
    assert d * b - d * a == d * (b - a);
    MulNonNeg(d, b - a);
  }

  lemma DivModUnique(x: int, d: int, t: int, u: int)
    requires d > 0 && 0 <= u < d && x == d * t + u
    ensures x / d == t && x % d == u
  {
    var t2, u2 := x / d, x % d;
    assert x == d * t2 + u2;
    if t2 > t {
      assert d * (t + 1) == d * t + d;
      MulMono(d, t + 1, t2);
    } else if t2 < t {
      assert d * (t2 + 1) == d * t2 + d;
      MulMono(d, t2 + 1, t);
    }
  }

  lemma DivMod(x: int, d: int)
    requires d > 0
    ensures x == d * (x / d) + x % d && 0 <= x % d < d
  {
  }

  lemma MulSucc(d: int, q: int)
    ensures d * (q + 1) == d * q + d
  {
  }

  lemma ModDouble(x: nat, m: nat)
    requires m > 0
    ensures x % (2 * m) == 2 * ((x / 2) % m) + x % 2
  {
    var q, r := x / 2, x % 2;
    var t, s := q / m, q % m;
    assert q == m * t + s;
    assert x == (2 * m) * t + (2 * s + r);
    DivModUnique(x, 2 * m, t, 2 * s + r);
  }

  /** Bitwise `&` on naturals, lowest bit first. */
  function BitAnd(a: nat, b: nat): nat
  {
    if a == 0 || b == 0 then 0 else 2 * BitAnd(a / 2, b / 2) + (if a % 2 == 1 && b % 2 == 1 then 1 else 0)
  }

  /** Bitwise `!` on a `u32`. */
  function BitNot32(a: u32): u32
  {
    U32_MAX - a
  }

  /** `x` with its `k` lowest bits cleared. */
  function ClearLow(x: nat, k: nat): nat
  {
    if k == 0 then x else 2 * ClearLow(x / 2, k - 1)
  }

  lemma {:induction false} ClearLowRoundsDown(x: nat, k: nat)
    ensures ClearLow(x, k) == x - x % Pow2(k)
  {
    if k > 0 {
      ClearLowRoundsDown(x / 2, k - 1);
      ModDouble(x, Pow2(k - 1));
    }
  }

  /** The mask with bits `k..n-1` set: `2^n - 2^k`, built bit by bit. */
  function HighMask(n: nat, k: nat): nat
  {
    if n == 0 then 0
    else if k == 0 then 2 * HighMask(n - 1, 0) + 1
    else 2 * HighMask(n - 1, k - 1)
  }

  lemma {:induction false} HighMaskValue(n: nat, k: nat)
    requires k <= n
    ensures HighMask(n, k) == Pow2(n) - Pow2(k)
  {
    if n > 0 {
      HighMaskValue(n - 1, if k == 0 then 0 else k - 1);
    }
  }

  lemma {:induction false} AndWithHighMask(x: nat, n: nat, k: nat)
    requires x < Pow2(n)
    ensures BitAnd(x, HighMask(n, k)) == ClearLow(x, k)
  {
    if n == 0 {
      assert x == 0;
      ClearLowRoundsDown(0, k);
    } else if x == 0 {
      ClearLowRoundsDown(0, k);
    } else if k == 0 {
      AndWithHighMask(x / 2, n - 1, 0);
    } else {
      AndWithHighMask(x / 2, n - 1, k - 1);
    }
  }

  lemma U32Bound()
    ensures Pow2(32) == U32_MAX + 1
  {
    assert Pow2(4) == 16;
    Pow2Add(4, 4);
    assert Pow2(8) == 256;
    Pow2Add(8, 8);
    assert Pow2(16) == 65536;
    Pow2Add(16, 16);
  }

  lemma {:induction false} Pow2Add(a: nat, b: nat)
    ensures Pow2(a + b) == Pow2(a) * Pow2(b)
  {
    if a > 0 {
      Pow2Add(a - 1, b);
      assert Pow2(a + b) == 2 * Pow2(a - 1 + b);
    }
  }

  /** Masking with `!(alignment - 1)` rounds down to a multiple of the alignment. */
  lemma AlignMask(x: u32, alignment: nat)
    requires IsPowerOfTwo(alignment) && alignment <= U32_MAX
    ensures BitAnd(x, BitNot32(alignment - 1)) == x - x % alignment
  {
    var k := Log2(alignment);
    U32Bound();
    if k > 32 {
      Pow2Monotone(33, k);
      assert false;
    }
    HighMaskValue(32, k);
    var mask := HighMask(32, k);
    assert BitNot32(alignment - 1) == mask;
    AndWithHighMask(x, 32, k);
    assert BitAnd(x, mask) == ClearLow(x, k);
    ClearLowRoundsDown(x, k);
  }

  /**
   * `aligned_size`: `None` where the source panics, that is when the
   * alignment is not a power of two (the assert) or when the addition
   * `value + alignment`, which Rust evaluates before subtracting 1,
   * overflows `u32` (a debug-build overflow panic).
   */
  function AlignedSize(value: u32, alignment: u32): (r: Option<u32>)
    ensures r.None? <==> !IsPowerOfTwo(alignment) || value + alignment > U32_MAX
  {
    if !IsPowerOfTwo(alignment) then None
    else if value + alignment > U32_MAX then None
    else
      AlignMask(value + alignment - 1, alignment);
      Some(BitAnd(value + alignment - 1, BitNot32(alignment - 1)))
  }

  /** The result is the least multiple of the alignment that is at least `value`. */
  lemma AlignedSizeRoundsUp(value: u32, alignment: u32)
    requires AlignedSize(value, alignment).Some?
    ensures alignment > 0
    ensures AlignedSize(value, alignment).value % alignment == 0
    ensures value <= AlignedSize(value, alignment).value < value + alignment
  {
    var x := value + alignment - 1;
    var r := AlignedSize(value, alignment).value;
    AlignMask(x, alignment);
    assert r == x - x % alignment;
    DivMod(x, alignment);
    DivModUnique(r, alignment, x / alignment, 0);
  }

  /**
   * A multiple of the alignment is its own aligned size, unless adding the
   * alignment to it overflows, where the source panics.
   */
  lemma AlignedOfMultiple(r: u32, alignment: u32)
    requires IsPowerOfTwo(alignment)
    requires r % alignment == 0
    ensures AlignedSize(r, alignment) == if r + alignment <= U32_MAX then Some(r) else None
  {
    if r + alignment <= U32_MAX {
      var x := r + alignment - 1;
      DivMod(r, alignment);
      DivModUnique(x, alignment, r / alignment, alignment - 1);
      assert x % alignment == alignment - 1;
      AlignMask(x, alignment);
      assert BitAnd(x, BitNot32(alignment - 1)) == r;
    }
  }

  /**
   * Aligning an aligned size changes nothing, except that the second call
   * panics when the aligned size plus the alignment no longer fits in `u32`.
   */
  lemma AlignedSizeIdempotent(value: u32, alignment: u32)
    requires AlignedSize(value, alignment).Some?
    ensures var r := AlignedSize(value, alignment).value;
      AlignedSize(r, alignment) == if r + alignment <= U32_MAX then Some(r) else None
  {
    AlignedSizeRoundsUp(value, alignment);
    AlignedOfMultiple(AlignedSize(value, alignment).value, alignment);
  }

  /** The second call overflows at the top of the range, for instance at 0xFFFF_FFF9 with alignment 4. */
  lemma AlignedSizeOverflowsAtTop()
    ensures AlignedSize(0xFFFF_FFF9, 4) == Some(0xFFFF_FFFC)
    ensures AlignedSize(0xFFFF_FFFC, 4).None?
  {
    AlignedOfMultiple(0xFFFF_FFFC, 4);
    AlignedSizeRoundsUp(0xFFFF_FFF9, 4);
  }
}
