/**
 The GPU prototype's sums: a cascade of stages in base 4, described by the rotation
 indices the client makes keys for, and its agreement with the CPU's doubling trees.
 */
module Cascade {
  import opened Bits
  import opened Packed

  // ---------- Reduced rotations ----------

  /** The remainder of C: it has the sign of the dividend. */
  function CRem(a: int, n: int): int
    requires n > 0
  {
    if a >= 0 then a % n else -((-a) % n)
  }

  /** reduce_rotation, for n slots. */
  function ReduceRotation(idx: int, n: int): int
    requires n > 0
  {
    var r := CRem(CRem(idx, n) + n, n);
    if r > n / 2 then r - n else r
  }

  lemma CRemCongruent(a: int, n: int)
    requires n > 0
    ensures -n < CRem(a, n) < n && (CRem(a, n) % n == a % n)
  {
    if a < 0 {
      var q, r := (-a) / n, (-a) % n;
      assert -a == n * q + r;
      assert a == -r + n * -q by { assert n * -q == -(n * q); }
      ModMultiple(-r, -q, n);
    } else {
      ModAdd(a, 0, n);
    }
  }

  /** The reduced amount lies in (-n/2, n/2] and differs from the given one by a multiple of n. */
  lemma ReducedRange(idx: int, n: int)
    requires n > 0
    ensures -n < 2 * ReduceRotation(idx, n) <= n
    ensures ReduceRotation(idx, n) % n == idx % n
  {
    CRemCongruent(idx, n);
    var c := CRem(idx, n) + n;
    ModMultiple(CRem(idx, n), 1, n);
    CRemCongruent(c, n);
    DivModUnique(CRem(c, n), n, 0, CRem(c, n));
    ModMultiple(CRem(c, n) - n, 1, n);
  }

  /** So the key for the reduced amount rotates exactly as asked, whatever the amount. */
  lemma ReducedRotates(x: Slots, idx: int)
    requires x != []
    ensures Rot(x, ReduceRotation(idx, |x|)) == Rot(x, idx)
  {
    hide ReduceRotation, Rot;
    var n, r := |x|, ReduceRotation(idx, |x|);
    ReducedRange(idx, n);
    var m := SameRest(r, idx, n);
    RotCongruent(x, idx, m);
  }

  lemma SameRest(a: int, b: int, n: int) returns (m: int)
    requires n > 0 && a % n == b % n
    ensures a == b + n * m
  {
    m := a / n - b / n;
    assert a == n * (a / n) + a % n && b == n * (b / n) + b % n;
    assert n * m == n * (a / n) - n * (b / n);
  }

  // ---------- The emitted indices ----------

  const B_STEP: nat := 4

  /** How many multiples of s, zero included, one stage combines. */
  function StageCount(s: nat, size: nat): nat
    requires s > 0
  {
    if size <= s then 1 else if size <= 2 * s then 2 else if size <= 3 * s then 3 else 4
  }

  /** The indices of the stage with step s. */
  function StageIndices(stride: int, s: nat, size: nat, n: int): (r: seq<int>)
    requires s > 0 && n > 0
    ensures |r| == StageCount(s, size) - 1
  {
    seq(StageCount(s, size) - 1, k requires 0 <= k < StageCount(s, size) - 1 => ReduceRotation(stride * s * (k + 1), n))
  }

  /** All stages from step s on. */
  function Stages(stride: int, s: nat, size: nat, n: int): seq<seq<int>>
    requires s > 0 && n > 0
    decreases size - s
  {
    if s >= size then [] else [StageIndices(stride, s, size, n)] + Stages(stride, 4 * s, size, n)
  }

  function Flatten(stages: seq<seq<int>>): seq<int> {
    if stages == [] then [] else stages[0] + Flatten(stages[1..])
  }

  /** emit_accumulate_cascade_indices, and with start 1 emit_accumulate_indices. */
  method EmitIndices(out0: seq<int>, stride: int, size: nat, start: nat, n: int) returns (out: seq<int>)
    requires stride > 0 && start > 0 && n > 0
    ensures out == out0 + Flatten(Stages(stride, start, size, n))
  {
    hide ReduceRotation;
    out := out0;
    var s := start;
    while s < size
      invariant s > 0 && out + Flatten(Stages(stride, s, size, n)) == out0 + Flatten(Stages(stride, start, size, n))
      decreases size - s
    {
      var indices := EmitStage(stride, size, s, n);
      assert Stages(stride, s, size, n)[1..] == Stages(stride, 4 * s, size, n);
      out := out + indices;
      s := s * 4;
    }
  }

  /** The inner loop. */
  method EmitStage(stride: int, size: nat, s: nat, n: int) returns (out: seq<int>)
    requires stride > 0 && 0 < s < size && n > 0
    ensures out == StageIndices(stride, s, size, n)
  {
    hide ReduceRotation;
    out := [];
    var idx := stride * s;
    ghost var k: nat := 1;
    assert stride * s * 1 == stride * s;
    StepBound(stride, s, size, k);
    while idx < stride * size && idx < B_STEP * stride * s
      invariant k > 0 && idx == stride * s * k && |out| == k - 1
      invariant (idx < stride * size <==> s * k < size) && (idx < B_STEP * stride * s <==> k < 4)
      invariant k <= StageCount(s, size)
      invariant forall j :: 0 <= j < |out| ==> out[j] == ReduceRotation(stride * s * (j + 1), n)
      decreases 4 - k
    {
      out := out + [ReduceRotation(idx, n)];
      assert stride * s * (k + 1) == stride * s * k + stride * s;
      idx := idx + stride * s;
      k := k + 1;
      StepBound(stride, s, size, k);
    }
  }

  /** Scaling by the stride keeps both loop bounds. */
  lemma StepBound(stride: int, s: nat, size: nat, k: nat)
    requires stride > 0 && s > 0
    ensures stride * s * k < stride * size <==> s * k < size
    ensures stride * s * k < B_STEP * stride * s <==> k < 4
  {
    MulAssoc(stride, s, k);
    MulOrder(stride, s * k, size);
    MulAtLeast(stride, s);
    MulAssoc(B_STEP, stride, s);
    MulOrder(stride * s, k, B_STEP);
  }

  lemma MulOrder(c: int, a: int, b: int)
    requires c > 0
    ensures c * a < c * b <==> a < b
  {
    if a < b {
      MulLess(c, a, b);
    } else if b < a {
      MulLess(c, b, a);
    }
  }

  // ---------- Mixed-radix choices ----------

  /** One digit for each stage: zero for none of its indices, d for the d-th. */
  ghost predicate Choice(ds: seq<nat>, s: nat, size: nat)
    requires s > 0
    decreases size - s
  {
    if s >= size then ds == []
    else ds != [] && ds[0] < StageCount(s, size) && Choice(ds[1..], 4 * s, size)
  }

  /** What a choice adds up to, before the stride. */
  function Reached(ds: seq<nat>, s: nat): nat {
    if ds == [] then 0 else ds[0] * s + Reached(ds[1..], 4 * s)
  }

  /** The chosen rotations, one after the other. */
  ghost function RotateBy(x: Slots, stages: seq<seq<int>>, ds: seq<nat>): (r: Slots)
    requires x != [] && |stages| == |ds| && forall i :: 0 <= i < |ds| ==> ds[i] <= |stages[i]|
    ensures |r| == |x|
    decreases |ds|
  {
    if ds == [] then x
    else RotateBy(if ds[0] == 0 then x else Rot(x, stages[0][ds[0] - 1]), stages[1..], ds[1..])
  }

  lemma {:induction false} ChoiceFits(ds: seq<nat>, stride: int, s: nat, size: nat, n: int)
    requires s > 0 && n > 0 && Choice(ds, s, size)
    ensures |Stages(stride, s, size, n)| == |ds|
    ensures forall i :: 0 <= i < |ds| ==> ds[i] <= |Stages(stride, s, size, n)[i]|
    decreases size - s
  {
    if s < size {
      ChoiceFits(ds[1..], stride, 4 * s, size, n);
      var stages := Stages(stride, s, size, n);
      assert stages[1..] == Stages(stride, 4 * s, size, n);
      forall i | 0 <= i < |ds|
        ensures ds[i] <= |stages[i]|
      {
        if i > 0 {
          assert stages[i] == stages[1..][i - 1] && ds[i] == ds[1..][i - 1];
        }
      }
    }
  }

  lemma RotRot(x: Slots, a: int, b: int)
    requires x != []
    ensures Rot(Rot(x, a), b) == Rot(x, b + a)
  {
    forall i | 0 <= i < |x|
      ensures Rot(Rot(x, a), b)[i] == Rot(x, b + a)[i]
    {
      AtRot(x, a, i + b);
      assert i + b + a == i + (b + a);
    }
  }

  lemma RotZero(x: Slots)
    requires x != []
    ensures Rot(x, 0) == x
  {
    forall i | 0 <= i < |x|
      ensures Rot(x, 0)[i] == x[i]
    {
      AtInside(x, i);
    }
  }

  lemma DigitRotates(x: Slots, d: nat, stride: int, s: nat, size: nat)
    requires x != [] && 0 < s < size && d < StageCount(s, size)
    ensures |StageIndices(stride, s, size, |x|)| == StageCount(s, size) - 1
    ensures (if d == 0 then x else Rot(x, StageIndices(stride, s, size, |x|)[d - 1])) == Rot(x, stride * s * d)
  {
    hide Rot, ReduceRotation;
    if d == 0 {
      RotZero(x);
    } else {
      ReducedRotates(x, stride * s * d);
    }
  }

  lemma NoDigits(stride: int, s: nat, size: nat, n: int)
    requires size <= s && s > 0 && n > 0
    ensures Stages(stride, s, size, n) == [] && stride * Reached([], s) == 0
  {}

  lemma FirstDigit(ds: seq<nat>, stride: int, s: nat, size: nat, n: int)
    requires 0 < s < size && n > 0 && ds != []
    ensures Reached(ds, s) == ds[0] * s + Reached(ds[1..], 4 * s)
    ensures Stages(stride, s, size, n) != [] && Stages(stride, s, size, n)[0] == StageIndices(stride, s, size, n)
    ensures Stages(stride, s, size, n)[1..] == Stages(stride, 4 * s, size, n)
  {
    hide StageIndices;
  }

  /** The chosen rotations act as one rotation by the sum of the choice. */
  lemma {:induction false} ChoiceRotates(x: Slots, ds: seq<nat>, stride: int, s: nat, size: nat)
    requires x != [] && s > 0 && Choice(ds, s, size)
    ensures |Stages(stride, s, size, |x|)| == |ds|
    ensures forall i :: 0 <= i < |ds| ==> ds[i] <= |Stages(stride, s, size, |x|)[i]|
    ensures RotateBy(x, Stages(stride, s, size, |x|), ds) == Rot(x, stride * Reached(ds, s))
    decreases size - s
  {
    hide Rot, StageIndices, StageCount, Stages, Reached;
    ChoiceFits(ds, stride, s, size, |x|);
    if s >= size {
      RotZero(x);
      NoDigits(stride, s, size, |x|);
    } else {
      var stages, d, rest := Stages(stride, s, size, |x|), ds[0], Reached(ds[1..], 4 * s);
      var y := if d == 0 then x else Rot(x, stages[0][d - 1]);
      DigitRotates(x, d, stride, s, size);
      FirstDigit(ds, stride, s, size, |x|);
      ChoiceRotates(y, ds[1..], stride, 4 * s, size);
      RotRot(x, stride * s * d, stride * rest);
      SumOfChoice(stride, s, d, rest);
    }
  }

  lemma SumOfChoice(stride: int, s: int, d: int, rest: int)
    ensures stride * rest + stride * s * d == stride * (d * s + rest)
  {}

  /** Scaling all steps changes neither the choices nor, but for the scale, what they reach. */
  lemma {:induction false} ChoiceScales(ds: seq<nat>, m: nat, n: nat, scale: nat)
    requires m > 0 && scale > 0
    ensures scale * m > 0
    ensures Choice(ds, scale * m, scale * n) <==> Choice(ds, m, n)
    decreases n - m
  {
    MulAtLeast(scale, m);
    MulOrder(scale, m, n);
    MulOrder(scale, 2 * m, n);
    MulOrder(scale, 3 * m, n);
    assert scale * (2 * m) == 2 * (scale * m) && scale * (3 * m) == 3 * (scale * m);
    assert scale * (4 * m) == 4 * (scale * m);
    if m < n && ds != [] {
      ChoiceScales(ds[1..], 4 * m, n, scale);
    }
  }

  lemma {:induction false} ReachedScales(ds: seq<nat>, m: nat, scale: nat)
    ensures Reached(ds, scale * m) == scale * Reached(ds, m)
  {
    if ds != [] {
      ReachedScales(ds[1..], 4 * m, scale);
      assert scale * (4 * m) == 4 * (scale * m);
      assert ds[0] * (scale * m) + scale * Reached(ds[1..], 4 * m) == scale * (ds[0] * m + Reached(ds[1..], 4 * m));
    }
  }

  /** The choices of n units: a digit below four, and a choice of n / 4 units. */
  lemma ChoiceUnits(ds: seq<nat>, n: nat)
    requires IsPow2(n)
    ensures n == 1 ==> (Choice(ds, 1, n) <==> ds == [])
    ensures n == 2 ==> (Choice(ds, 1, n) <==> |ds| == 1 && ds[0] < 2)
    ensures n > 2 ==> n == 4 * (n / 4) && IsPow2(n / 4)
    ensures n > 2 ==> (Choice(ds, 1, n) <==> ds != [] && ds[0] < 4 && Choice(ds[1..], 1, n / 4))
    ensures ds != [] ==> Reached(ds, 1) == ds[0] + 4 * Reached(ds[1..], 1)
  {
    if ds != [] {
      ReachedScales(ds[1..], 1, 4);
    }
    if n > 2 {
      assert IsPow2(n / 2) && IsPow2(n / 2 / 2);
      if ds != [] {
        ChoiceScales(ds[1..], 1, n / 4, 4);
      }
    }
  }

  /** The digits of j. */
  lemma {:induction false} Digits(n: nat, j: nat) returns (ds: seq<nat>)
    requires IsPow2(n) && j < n
    ensures Choice(ds, 1, n) && Reached(ds, 1) == j
  {
    hide Choice, Reached;
    if n == 1 {
      ds := [];
      ChoiceUnits(ds, n);
      assert Reached([], 1) == 0 by { ReachedNone(); }
    } else if n == 2 {
      ds := [j];
      ChoiceUnits(ds, n);
      assert ds[1..] == [];
      ReachedNone();
    } else {
      ChoiceUnits([], n);
      var rest := Digits(n / 4, j / 4);
      ds := [j % 4] + rest;
      ChoiceUnits(ds, n);
      assert ds[1..] == rest;
    }
  }

  lemma ReachedNone()
    ensures Reached([], 1) == 0
  {}

  lemma {:induction false} ReachedBound(n: nat, ds: seq<nat>)
    requires IsPow2(n) && Choice(ds, 1, n)
    ensures Reached(ds, 1) < n
    decreases n
  {
    hide Choice;
    ChoiceUnits(ds, n);
    if n > 2 {
      ReachedBound(n / 4, ds[1..]);
    }
  }

  lemma {:induction false} DigitsUnique(n: nat, ds: seq<nat>, es: seq<nat>)
    requires IsPow2(n) && Choice(ds, 1, n) && Choice(es, 1, n) && Reached(ds, 1) == Reached(es, 1)
    ensures ds == es
    decreases n
  {
    hide Choice;
    ChoiceUnits(ds, n);
    ChoiceUnits(es, n);
    if n == 2 {
      assert Reached(ds[1..], 1) == 0 && Reached(es[1..], 1) == 0;
    } else if n > 2 {
      DigitsUnique(n / 4, ds[1..], es[1..]);
      assert ds == [ds[0]] + ds[1..] && es == [es[0]] + es[1..];
    }
  }

  /** Choosing none or one index per stage reaches each multiple of start below size ... */
  lemma EachMultipleIsReached(start: nat, n: nat, j: nat) returns (ds: seq<nat>)
    requires start > 0 && IsPow2(n) && j < n
    ensures Choice(ds, start, start * n) && Reached(ds, start) == start * j
  {
    hide Choice, Reached;
    ds := Digits(n, j);
    InUnits(start, n, ds);
  }

  /** ... nothing else ... */
  lemma OnlyMultiplesAreReached(start: nat, n: nat, ds: seq<nat>) returns (j: nat)
    requires start > 0 && IsPow2(n) && Choice(ds, start, start * n)
    ensures j < n && Reached(ds, start) == start * j
  {
    hide Choice, Reached;
    InUnits(start, n, ds);
    ReachedBound(n, ds);
    j := Reached(ds, 1);
  }

  /** ... and each of them in one way only. */
  lemma EachMultipleOnce(start: nat, n: nat, ds: seq<nat>, es: seq<nat>)
    requires start > 0 && IsPow2(n) && Choice(ds, start, start * n) && Choice(es, start, start * n)
    requires Reached(ds, start) == Reached(es, start)
    ensures ds == es
  {
    hide Choice, Reached;
    InUnits(start, n, ds);
    InUnits(start, n, es);
    MulOrder(start, Reached(ds, 1), Reached(es, 1));
    MulOrder(start, Reached(es, 1), Reached(ds, 1));
    DigitsUnique(n, ds, es);
  }

  lemma InUnits(start: nat, n: nat, ds: seq<nat>)
    requires start > 0
    ensures Choice(ds, start, start * n) <==> Choice(ds, 1, n)
    ensures Reached(ds, start) == start * Reached(ds, 1)
  {
    hide Choice, Reached;
    assert start * 1 == start;
    ChoiceScales(ds, 1, n, start);
    ReachedScales(ds, 1, start);
  }

  // ---------- The cascade ----------

  /** One stage: the rotations by all its indices are added to the ciphertext. */
  function StageSum(ct: Slots, indices: seq<int>): (r: Slots)
    requires ct != []
    ensures |r| == |ct|
  {
    if indices == [] then ct
    else Add(StageSum(ct, indices[..|indices| - 1]), Rot(ct, indices[|indices| - 1]))
  }

  /** All stages, one after the other. */
  function CascadeSum(ct: Slots, stages: seq<seq<int>>): (r: Slots)
    requires ct != []
    ensures |r| == |ct|
    decreases |stages|
  {
    if stages == [] then ct else CascadeSum(StageSum(ct, stages[0]), stages[1..])
  }

  /** The device's sum, stage by stage and rotation by rotation; keys for the emitted indices are enough. */
  method Accumulate(x: Slots, stride: int, start: nat, size: nat, ghost keys: seq<int>) returns (ct: Slots)
    requires x != [] && start > 0 && forall r :: r in Flatten(Stages(stride, start, size, |x|)) ==> r in keys
    ensures ct == CascadeSum(x, Stages(stride, start, size, |x|))
  {
    hide StageSum, StageIndices;
    ct := x;
    var s := start;
    while s < size
      invariant s > 0 && |ct| == |x|
      invariant CascadeSum(ct, Stages(stride, s, size, |x|)) == CascadeSum(x, Stages(stride, start, size, |x|))
      invariant forall r :: r in Flatten(Stages(stride, s, size, |x|)) ==> r in keys
      decreases size - s
    {
      var indices := StageIndices(stride, s, size, |x|);
      assert Stages(stride, s, size, |x|)[1..] == Stages(stride, 4 * s, size, |x|);
      assert forall r :: r in indices ==> r in Flatten(Stages(stride, s, size, |x|));
      ct := AccumulateStage(ct, indices, keys);
      s := 4 * s;
    }
  }

  method AccumulateStage(ct0: Slots, indices: seq<int>, ghost keys: seq<int>) returns (ct: Slots)
    requires ct0 != [] && forall r :: r in indices ==> r in keys
    ensures ct == StageSum(ct0, indices)
  {
    hide Add, Rot;
    ct := ct0;
    for k := 0 to |indices|
      invariant |ct| == |ct0| && ct == StageSum(ct0, indices[..k])
    {
      assert indices[..k + 1][..k] == indices[..k];
      ct := Add(ct, EvalRotate(ct0, indices[k], keys));
    }
    assert indices[..|indices|] == indices;
  }

  /** The rotations of one stage, which start from windows of length m, join up to k + 1 of them. */
  lemma {:induction false} StageJoins(ct: Slots, x: Slots, stride: int, s: nat, m: nat, size: nat, unit: int, k: nat)
    requires s > 0 && x != [] && k <= StageCount(s, size) - 1
    requires unit * m == stride * s && HoldsWindows(ct, x, unit, m)
    ensures HoldsWindows(StageSum(ct, StageIndices(stride, s, size, |x|)[..k]), x, unit, m * (k + 1))
  {
    hide HoldsWindows, Rot, Add, ReduceRotation;
    WindowsLength(ct, x, unit, m);
    var indices := StageIndices(stride, s, size, |x|);
    if k == 0 {
      assert m * 1 == m;
    } else {
      StageJoins(ct, x, stride, s, m, size, unit, k - 1);
      assert indices[..k][..k - 1] == indices[..k - 1];
      assert indices[..k][k - 1] == ReduceRotation(stride * s * k, |x|);
      ReducedRotates(ct, stride * s * k);
      assert unit * (m * k) == stride * s * k by { MulAssoc(unit, m, k); }
      WindowsJoin(StageSum(ct, indices[..k - 1]), ct, x, unit, m * k, m);
      assert m * k + m == m * (k + 1);
    }
  }

  /** How many terms the cascade sums, when its next step is m units of start. */
  function CascadeCount(m: nat, start: nat, size: nat): nat
    requires m > 0 && start > 0
    decreases size - m * start
  {
    if m * start >= size then m
    else
      NextStep(m, start);
      if 4 * m * start >= size then m * StageCount(m * start, size) else CascadeCount(4 * m, start, size)
  }

  lemma NextStep(m: nat, start: nat)
    requires m > 0 && start > 0
    ensures m * start > 0 && 4 * m * start == 4 * (m * start) > m * start
  {
    MulAtLeast(m, start);
  }

  /** The cascade sums one window, of CascadeCount terms. */
  lemma {:induction false} CascadeSumsWindow(ct: Slots, x: Slots, stride: int, start: nat, m: nat, size: nat)
    requires x != [] && m > 0 && start > 0 && HoldsWindows(ct, x, stride * start, m)
    ensures |ct| == |x| && m * start > 0
    ensures HoldsWindows(CascadeSum(ct, Stages(stride, m * start, size, |x|)), x, stride * start,
                         CascadeCount(m, start, size))
    decreases size - m * start
  {
    hide HoldsWindows, StageIndices, StageSum;
    WindowsLength(ct, x, stride * start, m);
    NextStep(m, start);
    var s := m * start;
    if s < size {
      var indices := StageIndices(stride, s, size, |x|);
      var k := StageCount(s, size) - 1;
      assert indices[..k] == indices;
      assert stride * start * m == stride * s by { MulAssoc(stride, start, m); }
      StageJoins(ct, x, stride, s, m, size, stride * start, k);
      var next := StageSum(ct, indices);
      var rest := Stages(stride, 4 * s, size, |x|);
      assert Stages(stride, s, size, |x|)[1..] == rest;
      if 4 * s >= size {
        assert rest == [];
      } else {
        assert m * (k + 1) == 4 * m;
        CascadeSumsWindow(next, x, stride, start, 4 * m, size);
      }
    }
  }

  /** Steps and sizes compare as their numbers of terms do. */
  lemma SameOrder(m: nat, start: nat, k: nat)
    requires start > 0
    ensures k * start <= m * start <==> k <= m
    ensures k * start <= 2 * (m * start) <==> k <= 2 * m
    ensures k * start <= 3 * (m * start) <==> k <= 3 * m
    ensures k * start <= 4 * (m * start) <==> k <= 4 * m
  {
    MulOrder(start, m, k);
    MulOrder(start, 2 * m, k);
    MulOrder(start, 3 * m, k);
    MulOrder(start, 4 * m, k);
    assert start * (2 * m) == 2 * (m * start) && start * (3 * m) == 3 * (m * start);
    assert start * (4 * m) == 4 * (m * start);
  }

  /** A power of two of terms is summed exactly. */
  lemma {:induction false} CascadeExact(m: nat, start: nat, k: nat)
    requires m > 0 && start > 0 && IsPow2(m) && IsPow2(k) && m <= k
    ensures CascadeCount(m, start, k * start) == k
    decreases k - m
  {
    hide StageCount;
    NextStep(m, start);
    SameOrder(m, start, k);
    StageCounts(m * start, k * start);
    if m < k {
      Pow2Gap(m, k);
      Pow2Double(m);
      Pow2Double(2 * m);
      StepCases(m, k);
      if k > 4 * m {
        CascadeExact(4 * m, start, k);
      }
    }
  }

  lemma StepCases(m: nat, k: nat)
    requires IsPow2(m) && IsPow2(2 * m) && IsPow2(4 * m) && IsPow2(k) && m < k
    ensures k == 2 * m || k == 4 * m || k > 4 * m
  {
    Pow2Gap(m, k);
    if 2 * m < k {
      Pow2Gap(2 * m, k);
    }
  }

  /** The step of the last stage. */
  function LastStep(s: nat, size: nat): (r: nat)
    requires 0 < s < size
    ensures 0 < r < size
    decreases size - s
  {
    if 4 * s >= size then s else LastStep(4 * s, size)
  }

  lemma {:induction false} LastStepRange(s: nat, size: nat)
    requires 0 < s < size
    ensures size <= 4 * LastStep(s, size)
    decreases size - s
  {
    if 4 * s < size {
      LastStepRange(4 * s, size);
    }
  }

  lemma {:induction false} CountByLastStep(m: nat, start: nat, size: nat)
    requires m > 0 && start > 0 && m * start < size
    ensures m * start > 0
    ensures CascadeCount(m, start, size) * start
         == LastStep(m * start, size) * StageCount(LastStep(m * start, size), size)
    decreases size - m * start
  {
    NextStep(m, start);
    var s := m * start;
    if 4 * s >= size {
      var c := StageCount(s, size);
      assert m * c * start == m * start * c;
    } else {
      CountByLastStep(4 * m, start, size);
    }
  }

  /** For any size: nothing in it is missed, and nothing beyond it is summed if and only if the last step divides it. */
  lemma CascadeExactIff(start: nat, size: nat)
    requires 0 < start < size
    ensures CascadeCount(1, start, size) * start >= size
    ensures CascadeCount(1, start, size) * start == size <==> size % LastStep(start, size) == 0
  {
    hide CascadeCount, LastStep, StageCount;
    assert 1 * start == start;
    CountByLastStep(1, start, size);
    LastStepRange(start, size);
    var s := LastStep(start, size);
    var q, r := size / s, size % s;
    assert size == s * q + r;
    MulOrder(s, q, 1);
    MulOrder(s, 4, q);
    SmallMultiples(s, q);
    StageCounts(s, size);
  }

  /** Five terms overshoot: the last step, 4, takes one more window of four, and eight are summed. */
  lemma CascadeOvershoots()
    ensures LastStep(1, 5) == 4 && 5 % 4 != 0
    ensures CascadeCount(1, 1, 5) == 8
  {}

  lemma StageCounts(s: nat, size: nat)
    requires s > 0
    ensures StageCount(s, size) == if size <= s then 1 else if size <= 2 * s then 2 else if size <= 3 * s then 3 else 4
  {}

  lemma SmallMultiples(s: nat, q: nat)
    ensures q == 1 ==> s * q == s
    ensures q == 2 ==> s * q == 2 * s
    ensures q == 3 ==> s * q == 3 * s
    ensures q == 4 ==> s * q == 4 * s
  {}

  /**
   For a power of two of terms the cascade and the doubling tree leave the same slots,
   in spite of reduced rotation amounts and different intermediate sums.
   */
  method CascadeIsTree(x: Slots, stride: int, start: nat, k: nat, ghost keys: seq<int>) returns (ct: Slots)
    requires x != [] && start > 0 && IsPow2(k) && forall r :: r in TreeRotations(stride, start, start * k) ==> r in keys
    ensures HoldsWindows(ct, x, stride * start, k)
    ensures ct == CascadeSum(x, Stages(stride, start, k * start, |x|))
  {
    hide HoldsWindows, CascadeSum, Stages, Doubled;
    ct := DoublingTree(x, stride, start, start * k, keys);
    TreeIsExact(start, k);
    WindowsOfOne(x, stride * start);
    CascadeSumsWindow(x, x, stride, start, 1, k * start);
    CascadeExact(1, start, k);
    SameWindows(ct, CascadeSum(x, Stages(stride, start, k * start, |x|)), x, stride * start, k);
  }

  lemma SameWindows(a: Slots, b: Slots, x: Slots, stride: int, count: nat)
    requires HoldsWindows(a, x, stride, count) && HoldsWindows(b, x, stride, count)
    ensures a == b
  {
    SlotsEqual(a, b);
  }
}
