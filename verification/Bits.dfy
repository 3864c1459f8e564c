/**
 Powers of two, bit masks and population counts on unsigned integers, and the
 three bit helpers of blake3_impl.h proved against them.

 Every function recurses by halving, so that lemmas follow the binary digits.
 */
module Bits {

  const TWO_64: nat := 0x1_0000_0000_0000_0000

  /** n is 1, 2, 4, 8, ... */
  predicate IsPow2(n: nat) {
    n == 1 || (n > 1 && n % 2 == 0 && IsPow2(n / 2))
  }

  /** c is a multiple of the power of two k. */
  predicate Aligned(c: nat, k: nat) {
    k <= 1 || (c % 2 == 0 && Aligned(c / 2, k / 2))
  }

  function Pow2(e: nat): nat {
    if e == 0 then 1 else 2 * Pow2(e - 1)
  }

  /** Bitwise and, digit by digit. */
  function BitAnd(a: nat, b: nat): nat {
    if a == 0 || b == 0 then 0
    else (if a % 2 == 1 && b % 2 == 1 then 1 else 0) + 2 * BitAnd(a / 2, b / 2)
  }

  /** Bitwise or, digit by digit. */
  function BitOr(a: nat, b: nat): nat
    decreases a + b
  {
    if a == 0 && b == 0 then 0
    else (if a % 2 == 1 || b % 2 == 1 then 1 else 0) + 2 * BitOr(a / 2, b / 2)
  }

  /** The number of one digits. */
  function PopCount(n: nat): nat {
    if n == 0 then 0 else n % 2 + PopCount(n / 2)
  }

  /** The value of the lowest one digit. */
  function LowBit(n: nat): nat
    requires n > 0
  {
    if n % 2 == 1 then 1 else 2 * LowBit(n / 2)
  }

  /** The value of the highest one digit. */
  function TopBit(n: nat): nat
    requires n > 0
  {
    if n == 1 then 1 else 2 * TopBit(n / 2)
  }

  // ---------- Powers of two ----------

  lemma {:induction false} Pow2IsPow2(e: nat)
    ensures IsPow2(Pow2(e)) && Pow2(e) > 0
  {
    if e > 0 {
      Pow2IsPow2(e - 1);
      assert Pow2(e) / 2 == Pow2(e - 1);
    }
  }

  lemma {:induction false} Pow2Monotone(d: nat, e: nat)
    requires d <= e
    ensures Pow2(d) <= Pow2(e)
  {
    if d < e {
      Pow2Monotone(d, e - 1);
    }
  }

  /** Different powers of two differ by at least a factor of two. */
  lemma {:induction false} Pow2Gap(p: nat, q: nat)
    requires IsPow2(p) && IsPow2(q) && p < q
    ensures 2 * p <= q
  {
    if p > 1 {
      Pow2Gap(p / 2, q / 2);
    }
  }

  lemma Pow2Double(p: nat)
    requires IsPow2(p)
    ensures IsPow2(2 * p)
  {
    assert (2 * p) / 2 == p;
  }

  /** The highest one digit is the only power of two p with p <= n < 2p. */
  lemma {:induction false} TopBitSpec(n: nat)
    requires n > 0
    ensures IsPow2(TopBit(n)) && TopBit(n) <= n < 2 * TopBit(n)
  {
    if n > 1 {
      TopBitSpec(n / 2);
      Pow2Double(TopBit(n / 2));
    }
  }

  lemma TopBitUnique(n: nat, p: nat)
    requires n > 0 && IsPow2(p) && p <= n < 2 * p
    ensures TopBit(n) == p
  {
    TopBitSpec(n);
    if TopBit(n) < p {
      Pow2Gap(TopBit(n), p);
    } else if p < TopBit(n) {
      Pow2Gap(p, TopBit(n));
    }
  }

  // ---------- Alignment ----------

  lemma {:induction false} LowBitSpec(n: nat)
    requires n > 0
    ensures IsPow2(LowBit(n)) && LowBit(n) <= n && Aligned(n, LowBit(n))
  {
    if n % 2 == 0 {
      LowBitSpec(n / 2);
      Pow2Double(LowBit(n / 2));
    }
  }

  /** A power of two divides n exactly when it does not exceed the lowest one digit. */
  lemma {:induction false} AlignedIffLowBit(n: nat, k: nat)
    requires n > 0 && IsPow2(k)
    ensures Aligned(n, k) <==> k <= LowBit(n)
  {
    LowBitSpec(n);
    if k > 1 && n % 2 == 0 {
      AlignedIffLowBit(n / 2, k / 2);
    }
  }

  /** Aligned is divisibility. */
  lemma {:induction false} AlignedIffMod(c: nat, k: nat)
    requires IsPow2(k)
    ensures Aligned(c, k) <==> c % k == 0
  {
    if k > 1 {
      AlignedIffMod(c / 2, k / 2);
      HalfMod(c, k / 2);
    }
  }

  lemma DivModUnique(x: int, m: int, q: int, r: int)
    requires m > 0 && 0 <= r < m && x == m * q + r
    ensures x / m == q && x % m == r
  {
    var d := x / m - q;
    assert x == m * (x / m) + x % m;
    assert m * d == r - x % m by { assert m * d == m * (x / m) - m * q; }
    if d >= 1 {
      MulAtLeast(m, d);
    } else if d <= -1 {
      MulAtLeast(m, -d);
    }
  }

  lemma MulAtLeast(m: int, d: int)
    requires m > 0 && d >= 1
    ensures m * d >= m
  {}

  lemma {:induction false} AlignedAdd(a: nat, b: nat, k: nat)
    requires IsPow2(k) && Aligned(a, k) && Aligned(b, k)
    ensures Aligned(a + b, k)
  {
    if k > 1 {
      AlignedAdd(a / 2, b / 2, k / 2);
      assert (a + b) / 2 == a / 2 + b / 2;
    }
  }

  lemma {:induction false} AlignedSub(a: nat, b: nat, k: nat)
    requires IsPow2(k) && Aligned(a, k) && Aligned(b, k) && b <= a
    ensures Aligned(a - b, k)
  {
    if k > 1 {
      AlignedSub(a / 2, b / 2, k / 2);
      assert (a - b) / 2 == a / 2 - b / 2;
    }
  }

  lemma {:induction false} AlignedSelf(k: nat)
    requires IsPow2(k)
    ensures Aligned(k, k) && Aligned(0, k)
  {
    if k > 1 {
      AlignedSelf(k / 2);
    }
  }

  /** A multiple of a power of two is a multiple of every smaller one. */
  lemma {:induction false} AlignedWeaken(c: nat, k: nat, j: nat)
    requires IsPow2(k) && IsPow2(j) && j <= k && Aligned(c, k)
    ensures Aligned(c, j)
  {
    if j > 1 {
      AlignedWeaken(c / 2, k / 2, j / 2);
    }
  }

  lemma AlignedDouble(c: nat, k: nat)
    requires k > 0
    ensures Aligned(2 * c, 2 * k) <==> Aligned(c, k)
  {
    assert (2 * c) / 2 == c && (2 * k) / 2 == k;
  }

  /** Shifting both sides by the ten digits of a chunk length keeps divisibility. */
  lemma AlignedBytes(c: nat, k: nat)
    requires IsPow2(k)
    ensures IsPow2(1024 * k)
    ensures Aligned(1024 * c, 1024 * k) <==> Aligned(c, k)
  {
    AlignedShl(c, k, 10);
    ShlTen(c);
    ShlTen(k);
  }

  lemma ShlTen(v: nat)
    ensures Shl(v, 10) == 1024 * v
  {
    assert Shl(v, 1) == 2 * v;
    assert Shl(v, 2) == 4 * v;
    assert Shl(v, 4) == 16 * v;
    assert Shl(v, 6) == 64 * v;
    assert Shl(v, 8) == 256 * v;
  }

  lemma {:induction false} AlignedShl(c: nat, k: nat, e: nat)
    requires IsPow2(k)
    ensures IsPow2(Shl(k, e))
    ensures Aligned(Shl(c, e), Shl(k, e)) <==> Aligned(c, k)
  {
    if e > 0 {
      AlignedShl(c, k, e - 1);
      AlignedDouble(Shl(c, e - 1), Shl(k, e - 1));
      Pow2Double(Shl(k, e - 1));
    }
  }

  /** The lowest digit of m + j when j is a power of two below the lowest digit of m. */
  lemma {:induction false} LowBitOfSum(m: nat, j: nat)
    requires IsPow2(j) && Aligned(m, 2 * j)
    ensures LowBit(m + j) == j && PopCount(m + j) == PopCount(m) + 1
  {
    assert (2 * j) / 2 == j;
    if j > 1 {
      assert 2 * (j / 2) == j;
      LowBitOfSum(m / 2, j / 2);
      assert (m + j) / 2 == m / 2 + j / 2;
    } else {
      assert (m + j) / 2 == m / 2;
    }
  }

  /** Clearing the lowest one digit. */
  lemma {:induction false} ClearLowBit(n: nat)
    requires n > 0
    ensures LowBit(n) <= n
    ensures PopCount(n) == 1 + PopCount(n - LowBit(n))
    ensures Aligned(n - LowBit(n), 2 * LowBit(n))
  {
    if n % 2 == 0 {
      ClearLowBit(n / 2);
      assert (n - LowBit(n)) / 2 == n / 2 - LowBit(n / 2);
      assert (2 * LowBit(n)) / 2 == 2 * LowBit(n / 2);
    }
  }

  /** Adding a power of two that divides m never raises the population count by more than one. */
  lemma {:induction false} PopCountCarry(m: nat, j: nat)
    requires IsPow2(j) && Aligned(m, j)
    ensures 1 <= PopCount(m + j) <= PopCount(m) + 1
    decreases m
  {
    if Aligned(m, 2 * j) {
      LowBitOfSum(m, j);
    } else {
      LowBitIs(m, j);
      ClearLowBit(m);
      Pow2Double(j);
      PopCountCarry(m - j, 2 * j);
    }
  }

  lemma LowBitIs(m: nat, j: nat)
    requires IsPow2(j) && Aligned(m, j) && !Aligned(m, 2 * j)
    ensures m > 0 && LowBit(m) == j
  {
    Pow2Double(j);
    if m == 0 {
      AlignedSelf(2 * j);
    } else {
      AlignedIffLowBit(m, j);
      AlignedIffLowBit(m, 2 * j);
      LowBitSpec(m);
      if j < LowBit(m) {
        Pow2Gap(j, LowBit(m));
      }
    }
  }

  lemma {:induction false} PopCountBound(n: nat, e: nat)
    requires n < Pow2(e)
    ensures PopCount(n) <= e
  {
    if n > 0 {
      PopCountBound(n / 2, e - 1);
    }
  }

  // ---------- Masks ----------

  /** The mask k - 1 selects the remainder modulo the power of two k. */
  lemma {:induction false} MaskIsMod(x: nat, k: nat)
    requires IsPow2(k)
    ensures BitAnd(k - 1, x) == x % k
  {
    if k > 1 {
      var h := k / 2;
      assert k == 2 * h;
      MaskIsMod(x / 2, h);
      assert (k - 1) / 2 == h - 1;
      HalfMod(x, h);
    }
  }

  lemma HalfMod(x: nat, h: nat)
    requires h > 0
    ensures x % (2 * h) == 2 * ((x / 2) % h) + x % 2
  {
    var q, r := (x / 2) / h, (x / 2) % h;
    assert x / 2 == h * q + r;
    assert (2 * h) * q == 2 * (h * q);
    DivModUnique(x, 2 * h, q, 2 * r + x % 2);
  }

  /** A mask of the shape 11..100..0 over x < limit tells whether x reaches p. */
  lemma {:induction false} HighMask(x: nat, p: nat, limit: nat)
    requires IsPow2(p) && IsPow2(limit) && p <= limit && x < limit
    ensures BitAnd(x, limit - p) == 0 <==> x < p
  {
    if p == 1 {
      FullMask(x, limit);
    } else if p < limit {
      HighMask(x / 2, p / 2, limit / 2);
      assert (limit - p) / 2 == limit / 2 - p / 2;
    }
  }

  lemma {:induction false} FullMask(x: nat, limit: nat)
    requires IsPow2(limit) && x < limit
    ensures BitAnd(x, limit - 1) == x
  {
    if limit > 1 {
      FullMask(x / 2, limit / 2);
      assert (limit - 1) / 2 == limit / 2 - 1;
    }
  }

  /** x & (x - 1) clears the lowest one digit. */
  lemma {:induction false} AndPredecessor(x: nat)
    requires x > 0
    ensures LowBit(x) <= x && BitAnd(x, x - 1) == x - LowBit(x)
  {
    if x % 2 == 1 {
      AndSelf(x / 2);
      assert (x - 1) / 2 == x / 2;
    } else {
      AndPredecessor(x / 2);
      assert (x - 1) / 2 == x / 2 - 1;
    }
  }

  lemma {:induction false} AndSelf(x: nat)
    ensures BitAnd(x, x) == x
  {
    if x > 0 {
      AndSelf(x / 2);
    }
  }

  lemma OrOne(x: nat)
    ensures BitOr(x, 1) == if x % 2 == 1 then x else x + 1
  {
    OrZero(x / 2);
    assert BitOr(x, 1) == 1 + 2 * BitOr(x / 2, 0);
  }

  lemma {:induction false} OrZero(x: nat)
    ensures BitOr(x, 0) == x
  {
    if x > 0 {
      OrZero(x / 2);
    }
  }

  // ---------- The helpers of blake3_impl.h ----------

  /** Count the one digits by clearing the lowest one until none is left. */
  method PopCnt(x0: nat) returns (count: nat)
    ensures count == PopCount(x0)
  {
    var x := x0;
    count := 0;
    while x != 0
      invariant count + PopCount(x) == PopCount(x0)
    {
      ClearLowBit(x);
      AndPredecessor(x);
      LowBitSpec(x);
      count := count + 1;
      x := BitAnd(x, x - 1);
    }
  }

  /** v << c */
  function Shl(v: nat, c: nat): nat {
    if c == 0 then v else 2 * Shl(v, c - 1)
  }

  /** x >> e */
  function Shr(x: nat, e: nat): nat {
    if e == 0 then x else Shr(x / 2, e - 1)
  }

  /** The top digit of x0 is the top digit of the window x, moved up c places. */
  predicate Narrowed(x0: nat, x: nat, c: nat, limit: nat)
    requires x0 > 0
  {
    0 < x < limit && TopBit(x0) == Shl(TopBit(x), c)
  }

  /** The three wide windows: leaves a number below 256. */
  method NarrowToByte(x0: nat) returns (x: nat, c: nat)
    requires 0 < x0 < TWO_64
    ensures Narrowed(x0, x, c, 0x100)
  {
    x, c := x0, 0;
    WindowStep(x0, x, c, 32);
    if BitAnd(x, 0xffff_ffff_0000_0000) != 0 {
      x := Shr(x, 32);
      c := c + 32;
    }
    assert Narrowed(x0, x, c, 0x1_0000_0000);
    WindowStep(x0, x, c, 16);
    if BitAnd(x, 0xffff_0000) != 0 {
      x := Shr(x, 16);
      c := c + 16;
    }
    assert Narrowed(x0, x, c, 0x1_0000);
    WindowStep(x0, x, c, 8);
    if BitAnd(x, 0xff00) != 0 {
      x := Shr(x, 8);
      c := c + 8;
    }
    assert Narrowed(x0, x, c, 0x100);
  }

  /** Index of the highest one digit of a nonzero 64-bit number, by halving the window. */
  method HighestOne(x0: nat) returns (c: nat)
    requires 0 < x0 < TWO_64
    ensures Pow2(c) == TopBit(x0)
  {
    var x: nat;
    x, c := NarrowToByte(x0);
    WindowStep(x0, x, c, 4);
    if BitAnd(x, 0xf0) != 0 {
      x := Shr(x, 4);
      c := c + 4;
    }
    assert Narrowed(x0, x, c, 0x10);
    WindowStep(x0, x, c, 2);
    if BitAnd(x, 0xc) != 0 {
      x := Shr(x, 2);
      c := c + 2;
    }
    assert Narrowed(x0, x, c, 4);
    WindowStep(x0, x, c, 1);
    if BitAnd(x, 2) != 0 {
      c := c + 1;
    }
  }

  /** Two to the power e, for the window widths of HighestOne. */
  function WindowTop(e: nat): nat {
    if e == 32 then 0x1_0000_0000 else if e == 16 then 0x1_0000 else if e == 8 then 0x100
    else if e == 4 then 0x10 else if e == 2 then 4 else 2
  }

  /** The number that the bits above the window add up to. */
  function WindowLimit(e: nat): nat {
    if e == 32 then TWO_64 else if e == 16 then 0x1_0000_0000 else if e == 8 then 0x1_0000
    else if e == 4 then 0x100 else if e == 2 then 0x10 else 4
  }

  /** One step of HighestOne: the mask test is exact, and shifting keeps the top digit. */
  lemma WindowStep(x0: nat, x: nat, c: nat, e: nat)
    requires e in {32, 16, 8, 4, 2, 1}
    requires x0 > 0 && Narrowed(x0, x, c, WindowLimit(e))
    ensures BitAnd(x, WindowLimit(e) - WindowTop(e)) == 0 <==> x < WindowTop(e)
    ensures x < WindowTop(e) ==> Narrowed(x0, x, c, WindowTop(e))
    ensures x >= WindowTop(e) ==> Narrowed(x0, Shr(x, e), c + e, WindowTop(e))
    ensures e == 1 ==> Pow2(if x < 2 then c else c + 1) == TopBit(x0)
  {
    WindowTable(e);
    Pow2IsPow2(e);
    Pow2IsPow2(2 * e);
    HighMask(x, WindowTop(e), WindowLimit(e));
    if x >= WindowTop(e) {
      ShlOne(e);
      ShlSum(1, e, e);
      ShlOne(2 * e);
      ShrBound(x, e, WindowTop(e));
      ShrBoundBelow(x, e);
      TopBitShift(x, e);
      ShlSum(TopBit(Shr(x, e)), e, c);
    }
    if e == 1 {
      ShlOne(c);
      ShlOne(c + 1);
    }
  }

  lemma WindowTable(e: nat)
    requires e in {32, 16, 8, 4, 2, 1}
    ensures Pow2(e) == WindowTop(e) && Pow2(2 * e) == WindowLimit(e)
  {
    Pow2Bytes();
    if e <= 4 {
      Pow2Nibble(e);
    }
  }

  lemma Pow2Nibble(e: nat)
    requires e in {1, 2, 4}
    ensures Pow2(e) == WindowTop(e) && (e < 4 ==> Pow2(2 * e) == WindowLimit(e))
  {
    assert Pow2(0) == 1;
    assert Pow2(1) == 2;
    assert Pow2(2) == 4;
    assert Pow2(3) == 8;
    assert Pow2(4) == 16;
  }

  lemma Pow2Bytes()
    ensures Pow2(8) == 0x100 && Pow2(16) == 0x1_0000
    ensures Pow2(32) == 0x1_0000_0000 && Pow2(64) == TWO_64
  {
    Pow2Plus8(0); Pow2Plus8(8); Pow2Plus8(16); Pow2Plus8(24);
    Pow2Plus8(32); Pow2Plus8(40); Pow2Plus8(48); Pow2Plus8(56);
  }

  lemma Pow2Plus8(e: nat)
    ensures Pow2(e + 8) == 0x100 * Pow2(e)
  {
    assert Pow2(e + 2) == 4 * Pow2(e);
    assert Pow2(e + 4) == 4 * Pow2(e + 2);
    assert Pow2(e + 6) == 4 * Pow2(e + 4);
  }

  lemma {:induction false} ShlOne(c: nat)
    ensures Shl(1, c) == Pow2(c)
  {
    if c > 0 {
      ShlOne(c - 1);
    }
  }

  lemma {:induction false} ShlSum(v: nat, d: nat, c: nat)
    ensures Shl(Shl(v, d), c) == Shl(v, c + d)
  {
    if c > 0 {
      ShlSum(v, d, c - 1);
    }
  }

  lemma {:induction false} ShrBound(x: nat, e: nat, limit: nat)
    requires x < Shl(limit, e)
    ensures Shr(x, e) < limit
  {
    if e > 0 {
      ShrBound(x / 2, e - 1, limit);
    }
  }

  lemma {:induction false} ShrBoundBelow(x: nat, e: nat)
    requires x >= Pow2(e)
    ensures Shr(x, e) > 0
  {
    if e > 0 {
      ShrBoundBelow(x / 2, e - 1);
    }
  }

  lemma {:induction false} TopBitShift(x: nat, e: nat)
    requires x > 0 && Shr(x, e) > 0
    ensures TopBit(x) == Shl(TopBit(Shr(x, e)), e)
  {
    if e > 0 {
      if x == 1 {
        ShrZero(e - 1);
      }
      TopBitShift(x / 2, e - 1);
    }
  }

  lemma {:induction false} ShrZero(e: nat)
    ensures Shr(0, e) == 0
  {
    if e > 0 {
      ShrZero(e - 1);
    }
  }

  lemma TopBitOr(x: nat)
    requires x > 0 && x % 2 == 0
    ensures TopBit(x) == TopBit(x + 1) && TopBit(x + 1) <= x
  {
    assert (x + 1) / 2 == x / 2;
    TopBitSpec(x);
  }

  /** Largest power of two not above x, and 1 for x = 0. */
  method RoundDownToPowerOf2(x: nat) returns (p: nat)
    requires x < TWO_64
    ensures IsPow2(p)
    ensures x == 0 ==> p == 1
    ensures x > 0 ==> p <= x < 2 * p && p == TopBit(x)
  {
    OrOne(x);
    var y := BitOr(x, 1);
    assert y < TWO_64;
    var c := HighestOne(y);
    p := Pow2(c);
    TopBitSpec(y);
    if x > 0 && y != x {
      TopBitOr(x);
    }
  }
}
