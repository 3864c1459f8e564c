/**
 Ciphertexts as their ideal slot vectors: rotation, addition and multiplication slot by
 slot, and the rotate-and-add trees that sum windows of slots.
 */
module Packed {
  import opened Bits

  type Slots = seq<real>

  /** A ciphertext object, shared by reference. */
  class Ciphertext {
    var value: Slots

    constructor (value: Slots)
      ensures this.value == value
    {
      this.value := value;
    }
  }

  // ---------- Cyclic indices ----------

  lemma ModAdd(a: int, k: int, n: int)
    requires n > 0
    ensures (a % n + k) % n == (a + k) % n
  {
    var q, r := a / n, a % n;
    var q2, r2 := (r + k) / n, (r + k) % n;
    assert a == n * q + r && r + k == n * q2 + r2;
    assert n * (q + q2) == n * q + n * q2;
    DivModUnique(a + k, n, q + q2, r2);
  }

  lemma ModMultiple(a: int, m: int, n: int)
    requires n > 0
    ensures (a + n * m) % n == a % n
  {
    var q, r := a / n, a % n;
    assert a == n * q + r;
    assert n * (q + m) == n * q + n * m;
    DivModUnique(a + n * m, n, q + m, r);
  }

  /** Slot i, counted around the vector. */
  function At(x: Slots, i: int): real
    requires x != []
  {
    x[i % |x|]
  }

  lemma AtInside(x: Slots, i: nat)
    requires i < |x|
    ensures At(x, i) == x[i]
  {
    DivModUnique(i, |x|, 0, i);
  }

  // ---------- Operations ----------

  /** EvalRotate: slot i of the result is slot i + k. */
  function Rot(x: Slots, k: int): (r: Slots)
    requires x != []
    ensures |r| == |x|
  {
    seq(|x|, i requires 0 <= i < |x| => At(x, i + k))
  }

  /** EvalAdd */
  function Add(x: Slots, y: Slots): (r: Slots)
    requires |x| == |y|
    ensures |r| == |x|
  {
    seq(|x|, i requires 0 <= i < |x| => x[i] + y[i])
  }

  /** EvalSub */
  function Sub(x: Slots, y: Slots): (r: Slots)
    requires |x| == |y|
    ensures |r| == |x|
  {
    seq(|x|, i requires 0 <= i < |x| => x[i] - y[i])
  }

  /** EvalMult of two ciphertexts, or of a ciphertext and a plaintext. */
  function Mul(x: Slots, y: Slots): (r: Slots)
    requires |x| == |y|
    ensures |r| == |x|
  {
    seq(|x|, i requires 0 <= i < |x| => x[i] * y[i])
  }

  /** EvalMult with a number. */
  function Scale(x: Slots, c: real): (r: Slots)
    ensures |r| == |x|
  {
    seq(|x|, i requires 0 <= i < |x| => x[i] * c)
  }

  lemma AtRot(x: Slots, k: int, i: int)
    requires x != []
    ensures At(Rot(x, k), i) == At(x, i + k)
  {
    ModAdd(i, k, |x|);
  }

  lemma AtAdd(x: Slots, y: Slots, i: int)
    requires |x| == |y| && x != []
    ensures At(Add(x, y), i) == At(x, i) + At(y, i)
  {}

  lemma SlotsEqual(x: Slots, y: Slots)
    requires |x| == |y| && x != []
    requires forall i :: 0 <= i < |x| ==> At(x, i) == At(y, i)
    ensures x == y
  {
    forall i | 0 <= i < |x|
      ensures x[i] == y[i]
    {
      AtInside(x, i);
      AtInside(y, i);
    }
  }

  /** Rotations by congruent amounts are the same. */
  lemma RotCongruent(x: Slots, k: int, m: int)
    requires x != []
    ensures Rot(x, k + |x| * m) == Rot(x, k)
  {
    var a, b := Rot(x, k + |x| * m), Rot(x, k);
    forall i | 0 <= i < |x|
      ensures a[i] == b[i]
    {
      var p := |x| * m;
      ModMultiple(i + k, m, |x|);
      assert At(x, i + (k + p)) == At(x, i + k);
    }
  }

  // ---------- Window sums ----------

  /** x[i] + x[i + stride] + ... , count terms, around the vector. */
  function Window(x: Slots, i: int, stride: int, count: nat): real
    requires x != []
  {
    if count == 0 then 0.0 else Window(x, i, stride, count - 1) + At(x, i + stride * (count - 1))
  }

  lemma {:induction false} WindowSplit(x: Slots, i: int, stride: int, a: nat, b: nat)
    requires x != []
    ensures Window(x, i, stride, a + b) == Window(x, i, stride, a) + Window(x, i + stride * a, stride, b)
  {
    if b > 0 {
      WindowSplit(x, i, stride, a, b - 1);
      assert stride * (a + b - 1) == stride * a + stride * (b - 1);
    }
  }

  /** A window over the whole cycle does not depend on where it starts. */
  lemma WindowTurn(x: Slots, i: int, stride: int, count: nat)
    requires x != [] && count > 0 && stride * count == |x|
    ensures Window(x, i + stride, stride, count) == Window(x, i, stride, count)
  {
    WindowSplit(x, i, stride, 1, count - 1);
    WindowSplit(x, i + stride, stride, count - 1, 1);
    WindowOne(x, i, stride);
    WindowOne(x, i + stride + stride * (count - 1), stride);
    assert stride + stride * (count - 1) == stride * count;
    ModMultiple(i, 1, |x|);
  }

  lemma WindowOne(x: Slots, i: int, stride: int)
    requires x != []
    ensures Window(x, i, stride, 1) == At(x, i)
  {
    assert Window(x, i, stride, 0) == 0.0;
    assert stride * 0 == 0;
  }

  lemma {:induction false} WindowTurns(x: Slots, i: int, stride: int, count: nat, turns: nat)
    requires x != [] && count > 0 && stride * count == |x|
    ensures Window(x, i + stride * turns, stride, count) == Window(x, i, stride, count)
  {
    if turns > 0 {
      WindowTurns(x, i, stride, count, turns - 1);
      WindowTurn(x, i + stride * (turns - 1), stride, count);
      assert stride * turns == stride * (turns - 1) + stride;
    }
  }

  /** A stride of one less than the slot count walks backwards. */
  lemma {:induction false} WindowBackwards(x: Slots, i: int, count: nat)
    requires x != []
    ensures Window(x, i, |x| - 1, count) == Window(x, i, -1, count)
  {
    if count > 0 {
      WindowBackwards(x, i, count - 1);
      var t := count - 1;
      assert i + (|x| - 1) * t == i + -1 * t + |x| * t;
      ModMultiple(i + -1 * t, t, |x|);
    }
  }

  // ---------- The doubling tree ----------

  /** Every slot holds the window sum of the given length. */
  ghost predicate HoldsWindows(ct: Slots, x: Slots, stride: int, count: nat) {
    x != [] && |ct| == |x| && forall i: int :: At(ct, i) == Window(x, i, stride, count)
  }

  lemma WindowsOfOne(x: Slots, stride: int)
    requires x != []
    ensures HoldsWindows(x, x, stride, 1)
  {
    forall i: int
      ensures At(x, i) == Window(x, i, stride, 1)
    {
      WindowOne(x, i, stride);
    }
  }

  /** Adding a rotation by the windows so far makes them longer by the windows of the other. */
  lemma WindowsJoin(a: Slots, b: Slots, x: Slots, stride: int, m: nat, n: nat)
    requires HoldsWindows(a, x, stride, m) && HoldsWindows(b, x, stride, n)
    ensures HoldsWindows(Add(a, Rot(b, stride * m)), x, stride, m + n)
  {
    forall i: int
      ensures At(Add(a, Rot(b, stride * m)), i) == Window(x, i, stride, m + n)
    {
      AtAdd(a, Rot(b, stride * m), i);
      AtRot(b, stride * m, i);
      WindowSplit(x, i, stride, m, n);
    }
  }

  /** The rotation amounts of the tree. */
  function TreeRotations(stride: int, s: nat, size: nat): seq<int>
    requires s > 0
    decreases size - s
  {
    if s >= size then [] else [stride * s] + TreeRotations(stride, s * 2, size)
  }

  /** How many terms the tree sums: doubled from the given count until the size is reached. */
  function Doubled(count: nat, start: nat, size: nat): nat
    requires count > 0 && start > 0
    decreases size - start * count
  {
    StartDoubles(start, count);
    if start * count >= size then count else Doubled(count + count, start, size)
  }

  /** A rotation needs a key for its amount. */
  function EvalRotate(x: Slots, k: int, ghost keys: seq<int>): (r: Slots)
    requires x != [] && k in keys
    ensures |r| == |x|
  {
    Rot(x, k)
  }

  /**
   The loop of row_accumulate, row_propagate, col_accumulate and of the CPU paths of
   AccumulateSum: for (s = start; s < size; s <<= 1) ct += rotate(ct, stride * s).
   Keys for the tree's rotations are enough.
   */
  method DoublingTree(x: Slots, stride: int, start: nat, size: nat, ghost keys: seq<int>) returns (ct: Slots)
    requires x != [] && start > 0 && forall r :: r in TreeRotations(stride, start, size) ==> r in keys
    ensures HoldsWindows(ct, x, stride * start, Doubled(1, start, size))
  {
    hide HoldsWindows, Rot, Add;
    ct := x;
    ghost var count := 1;
    WindowsOfOne(x, stride * start);
    var s: nat := start;
    WindowsLength(ct, x, stride * start, count);
    while s < size
      invariant s > 0 && count > 0 && s == start * count && |ct| == |x|
      invariant forall r :: r in TreeRotations(stride, s, size) ==> r in keys
      invariant HoldsWindows(ct, x, stride * start, count)
      invariant Doubled(count, start, size) == Doubled(1, start, size)
      decreases size - s
    {
      assert stride * s == stride * start * count by { MulAssoc(stride, start, count); }
      WindowsJoin(ct, ct, x, stride * start, count, count);
      StartDoubles(start, count);
      assert TreeRotations(stride, s, size)[0] == stride * s;
      assert forall r :: r in TreeRotations(stride, s * 2, size) ==> r in TreeRotations(stride, s, size);
      ct := Add(ct, EvalRotate(ct, stride * s, keys));
      s := s * 2;
      count := count + count;
      WindowsLength(ct, x, stride * start, count);
    }
  }

  /** The count is the least power of two of terms that reaches the size. */
  lemma {:induction false} DoubledSpec(count: nat, start: nat, size: nat)
    requires count > 0 && start > 0 && IsPow2(count) && (count > 1 ==> start * (count / 2) < size)
    ensures var n := Doubled(count, start, size);
            IsPow2(n) && start * n >= size && (n > 1 ==> start * (n / 2) < size)
    decreases size - start * count
  {
    hide IsPow2;
    StartDoubles(start, count);
    if start * count < size {
      assert IsPow2(count + count) by { Pow2Double(count); }
      DoubledSpec(count + count, start, size);
    }
  }

  lemma WindowsLength(ct: Slots, x: Slots, stride: int, count: nat)
    requires HoldsWindows(ct, x, stride, count)
    ensures |ct| == |x| && x != []
  {}

  lemma MulAssoc(a: int, b: int, c: int)
    ensures a * (b * c) == a * b * c
  {}

  lemma StartDoubles(start: nat, count: nat)
    requires start > 0 && count > 0
    ensures start * (count + count) == start * count * 2 && start * count > 0
    ensures start * ((count + count) / 2) == start * count
  {
    assert (count + count) / 2 == count;
    assert start * count >= start by { MulAtLeast(start, count); }
  }

  /** For a power of two of terms, the tree sums exactly the window of that size. */
  lemma TreeIsExact(start: nat, k: nat)
    requires start > 0 && IsPow2(k)
    ensures Doubled(1, start, start * k) == k
  {
    hide Doubled;
    DoubledSpec(1, start, start * k);
    var count := Doubled(1, start, start * k);
    if count < k {
      MulLess(start, count, k);
    }
    if k < count {
      Pow2Gap(k, count);
      if k < count / 2 {
        MulLess(start, k, count / 2);
      }
    }
  }

  lemma MulLess(c: int, a: int, b: int)
    requires c > 0 && a < b
    ensures c * a < c * b
  {
    MulAtLeast(c, b - a);
    assert c * b == c * a + c * (b - a);
  }
}
